/** What one unguarded count can do under row locks while all others are
    guarded: exactly when it can cost the last active admin. */
module RowLockLoss {
  import opened Ordering
  import opened UserAdmin
  import opened RowLocks

  // ----- schedules with guarded counts that lead from one state to another -----

  ghost predicate Leads(s: System, r: System) {
    exists schedule :: IsGuardedRun(s, schedule) && Run(s, schedule) == r
  }

  lemma LeadsToItself(s: System)
    ensures Leads(s, s)
  {
    assert IsGuardedRun(s, []) && Run(s, []) == s;
  }

  lemma GuardedAppend(s: System, schedule: seq<(int, Move)>, t: int, m: Move)
    requires IsGuardedRun(s, schedule) && IsEnabled(Run(s, schedule), t, m)
    requires m == Check && LetsWeaken(Run(s, schedule), t) ==>
      IsGuarded(Run(s, schedule), t, Run(s, schedule).txns[t].op.id)
    ensures IsGuardedRun(s, schedule + [(t, m)]) && Run(s, schedule + [(t, m)]) == Next(Run(s, schedule), t, m)
  {
    var longer := schedule + [(t, m)];
    assert longer[..|schedule|] == schedule;
    forall i | 0 <= i < |schedule| ensures longer[..i] == schedule[..i] && longer[i] == schedule[i] {
    }
  }

  lemma Step(s: System, r: System, t: int, m: Move)
    requires Leads(s, r) && IsEnabled(r, t, m)
    requires m == Check && LetsWeaken(r, t) ==> IsGuarded(r, t, r.txns[t].op.id)
    ensures Leads(s, Next(r, t, m))
  {
    var schedule :| IsGuardedRun(s, schedule) && Run(s, schedule) == r;
    GuardedAppend(s, schedule, t, m);
  }

  // ----- everybody else gives up -----

  lemma {:induction false} ReleaseFewer(locks: map<int, int>, row: int)
    requires row in locks
    ensures |Release(locks, locks[row])| < |locks|
  {
    var rest := Release(locks, locks[row]);
    assert rest.Keys <= locks.Keys - {row};
    FewerKeys(rest.Keys, locks.Keys, row);
  }

  lemma FewerKeys(a: set<int>, b: set<int>, x: int)
    requires a <= b - {x} && x in b
    ensures |a| < |b|
  {
    assert b == a + (b - a) && x in b - a;
  }

  /** The owners of the locks roll back; `t`, which owns none, stays. */
  lemma {:induction false} OthersRollBack(s: System, r: System, t: int) returns (free: System)
    requires Leads(s, r) && OwnersAreLive(r) && t in r.txns && !HoldsRow(r, t)
    ensures Leads(s, free) && free.locks == map[] && free.table == r.table
    ensures t in free.txns && free.txns[t] == r.txns[t]
    decreases |r.locks|
  {
    if r.locks.Keys == {} {
      assert r.locks == map[];
      free := r;
    } else {
      var row := Pick(r.locks.Keys);
      var u := r.locks[row];
      assert u != t;
      Step(s, r, u, Rollback);
      ReleaseFewer(r.locks, row);
      free := OthersRollBack(s, Next(r, u, Rollback), t);
    }
  }

  // ----- one whole operation, all admins held -----

  lemma {:induction false} FreshId(used: set<int>) returns (x: int)
    ensures forall y :: y in used ==> y < x
  {
    x := 0;
    if used != {} {
      var y := Pick(used);
      var z := FreshId(used - {y});
      x := if y < z then z else y + 1;
      assert used == (used - {y}) + {y};
    }
  }

  /** `u` is about to run `op`, has locked all active admins but `wanted`. */
  function Locked(r: System, u: int, op: Operation, wanted: set<int>): System {
    System(r.table, map row | row in ActiveAdmins(r.table.users) - wanted :: u, r.txns[u := Txn(op, Locking(wanted))])
  }

  lemma {:induction false} LockAll(s: System, r: System, u: int, op: Operation, wanted: set<int>)
    requires Leads(s, Locked(r, u, op, wanted)) && wanted <= ActiveAdmins(r.table.users)
    ensures Leads(s, Locked(r, u, op, {}))
    decreases wanted
  {
    if wanted != {} {
      var row := Pick(wanted);
      var before, after := Locked(r, u, op, wanted), Locked(r, u, op, wanted - {row});
      Step(s, before, u, LockRow(row));
      assert before.locks[row := u] == after.locks;
      assert before.txns[u := Txn(op, Locking(wanted - {row}))] == after.txns;
      LockAll(s, r, u, op, wanted - {row});
    }
  }

  lemma BeginFresh(s: System, r: System, op: Operation) returns (u: int)
    requires Leads(s, r) && r.locks == map[]
    requires !op.CreateUser? && (op.UpdateRole? ==> op.role in ROLES)
    ensures u !in r.txns && Leads(s, Locked(r, u, op, {}))
  {
    u := FreshId(r.txns.Keys);
    assert u !in r.txns;
    var admins := ActiveAdmins(r.table.users);
    Step(s, r, u, Snapshot(op));
    assert Locked(r, u, op, admins).locks == map[];
    assert Next(r, u, Snapshot(op)) == Locked(r, u, op, admins);
    LockAll(s, r, u, op, admins);
  }

  /** The count passes, and is guarded if the operation weakens. */
  lemma CountFresh(s: System, r: System, u: int, op: Operation)
    requires Leads(s, Locked(r, u, op, {}))
    requires !op.CreateUser? && op.id in r.table.users
    requires Weakens(op) ==> ActiveAdmins(r.table.users) - {op.id} != {}
    ensures Leads(s, Locked(r, u, op, {}).(txns := r.txns[u := Txn(op, Checked)]))
  {
    var locked := Locked(r, u, op, {});
    Step(s, locked, u, Read);
    var read := Next(locked, u, Read);
    var user := r.table.users[op.id];
    assert read == locked.(txns := r.txns[u := Txn(op, HasRow(user))]);
    if Weakens(op) {
      var row := Pick(ActiveAdmins(r.table.users) - {op.id});
      assert row in read.locks && read.locks[row] == u;
      assert IsGuarded(read, u, op.id);
    }
    assert Passes(read, u);
    Step(s, read, u, Check);
    assert read.txns[u := Txn(op, Checked)] == r.txns[u := Txn(op, Checked)];
  }

  lemma FinishFresh(s: System, c: System, u: int, op: Operation)
    requires Leads(s, c) && u in c.txns && c.txns[u] == Txn(op, Checked)
    requires !op.CreateUser? && op.id in c.table.users && forall row :: row in c.locks ==> c.locks[row] == u
    ensures Leads(s, System(Perform(c.table, op), map[], c.txns[u := Txn(op, Ended(Accepted))]))
  {
    Step(s, c, u, Write);
    var written := Next(c, u, Write);
    Step(s, written, u, Commit);
    assert forall row :: row !in Release(written.locks, u);
    assert Release(written.locks, u) == map[];
    assert written.txns[u := Txn(op, Ended(Accepted))] == c.txns[u := Txn(op, Ended(Accepted))];
  }

  /** From a state without locks a new transaction can carry out an operation. */
  lemma Carry(s: System, r: System, op: Operation, t: int) returns (after: System)
    requires Leads(s, r) && r.locks == map[] && t in r.txns
    requires !op.CreateUser? && (op.UpdateRole? ==> op.role in ROLES) && op.id in r.table.users
    requires Weakens(op) ==> ActiveAdmins(r.table.users) - {op.id} != {}
    ensures Leads(s, after) && after.locks == map[] && after.table == Perform(r.table, op)
    ensures t in after.txns && after.txns[t] == r.txns[t]
  {
    var u := BeginFresh(s, r, op);
    CountFresh(s, r, u, op);
    var counted := Locked(r, u, op, {}).(txns := r.txns[u := Txn(op, Checked)]);
    FinishFresh(s, counted, u, op);
    after := System(Perform(r.table, op), map[], counted.txns[u := Txn(op, Ended(Accepted))]);
  }

  // ----- only the target is left -----

  lemma MakeTargetAdmin(s: System, r: System, t: int, id: int) returns (after: System)
    requires Leads(s, r) && r.locks == map[] && t in r.txns && id in r.table.users
    ensures Leads(s, after) && after.locks == map[] && id in ActiveAdmins(after.table.users)
    ensures t in after.txns && after.txns[t] == r.txns[t]
  {
    var promoted := Carry(s, r, UpdateRole(id, "admin"), t);
    after := Carry(s, promoted, SetActive(id, true), t);
  }

  lemma {:induction false} RemoveOthers(s: System, r: System, t: int, id: int) returns (after: System)
    requires Leads(s, r) && r.locks == map[] && t in r.txns && id in ActiveAdmins(r.table.users)
    ensures Leads(s, after) && after.locks == map[] && ActiveAdmins(after.table.users) == {id}
    ensures t in after.txns && after.txns[t] == r.txns[t]
    decreases |ActiveAdmins(r.table.users)|
  {
    var others := ActiveAdmins(r.table.users) - {id};
    if others == {} {
      after := r;
    } else {
      var row := Pick(others);
      var op := SetActive(row, false);
      assert id in ActiveAdmins(r.table.users) - {row};
      var fewer := Carry(s, r, op, t);
      DethroningRemoves(r.table, op);
      assert |ActiveAdmins(fewer.table.users)| == |ActiveAdmins(r.table.users)| - 1;
      after := RemoveOthers(s, fewer, t, id);
    }
  }

  /** A weakening operation that has counted and holds no row: a schedule whose
      other counts are all guarded ends without an active admin. */
  lemma UnheldCountLosesAdmins(s: System, t: int)
    requires OwnersAreLive(s) && !HoldsRow(s, t)
    requires t in s.txns && s.txns[t].phase.Checked? && Weakens(s.txns[t].op) && s.txns[t].op.id in s.table.users
    ensures exists schedule :: IsGuardedRun(s, schedule) && ActiveAdmins(Run(s, schedule).table.users) == {}
  {
    var op := s.txns[t].op;
    LeadsToItself(s);
    var free := OthersRollBack(s, s, t);
    var ready := MakeTargetAdmin(s, free, t, op.id);
    var alone := RemoveOthers(s, ready, t, op.id);
    FinishFresh(s, alone, t, op);
    DethroningRemoves(alone.table, op);
    assert ActiveAdmins(Perform(alone.table, op).users) == {};
  }

  // ----- the exact condition -----

  lemma HeldCountGuards(s: System, t: int)
    requires Inv(s, None) && LetsWeaken(s, t) && HoldsRow(s, t)
    ensures IsGuarded(s, t, s.txns[t].op.id) || IsSelfGuarded(s, t, s.txns[t].op.id)
  {
    assert TxnIsSound(s, t, None);
    var id := s.txns[t].op.id;
    var row :| row in s.locks && s.locks[row] == t;
    if row == id {
      assert s.txns[t].phase.user == s.table.users[id];
      var other := Pick(ActiveAdmins(s.table.users) - {id});
    }
  }

  /** A weakening count passes while every other transaction is sound. As long as
      all later counts are guarded there always is an active admin, exactly when
      the transaction holds some row as it counts. */
  lemma UnguardedCountIsSafeExactlyWhen(s: System, t: int)
    requires Inv(s, None) && LetsWeaken(s, t)
    ensures (forall schedule :: IsGuardedRun(Next(s, t, Check), schedule) ==>
               ActiveAdmins(Run(Next(s, t, Check), schedule).table.users) != {})
            <==> HoldsRow(s, t)
  {
    var counted := Next(s, t, Check);
    assert TxnIsSound(s, t, None);
    if HoldsRow(s, t) {
      HeldCountGuards(s, t);
      CheckKeeps(s, t, None, Some(t));
      forall schedule | IsGuardedRun(counted, schedule) ensures ActiveAdmins(Run(counted, schedule).table.users) != {} {
        GuardedRunKeeps(counted, schedule, Some(t));
      }
    } else {
      assert counted.locks == s.locks && OwnersAreLive(counted) && !HoldsRow(counted, t);
      UnheldCountLosesAdmins(counted, t);
    }
  }
}
