/** The user operations as interleaved transactions under Postgres row locks
    (`SELECT ... FOR UPDATE` over the active admins), where each statement reads
    the latest committed rows. */
module RowLocks {
  import opened Ordering
  import opened UserAdmin

  /** `Locking(wanted)`: the rows of the statement's snapshot still to lock. */
  datatype Phase =
    | Locking(wanted: set<int>)
    | HasRow(user: User)
    | Checked
    | Written
    | Ended(verdict: Verdict)
    | RolledBack

  datatype Txn = Txn(op: Operation, phase: Phase)

  /** `locks` maps a locked row to the transaction that holds it. */
  datatype System = System(table: Table, locks: map<int, int>, txns: map<int, Txn>)

  datatype Move =
    | Snapshot(op: Operation)
    | LockRow(row: int)
    | Read
    | Check
    | Write
    | Commit
    | Rollback
    | Insert(user: Operation)

  function Release(locks: map<int, int>, t: int): map<int, int> {
    map row | row in locks && locks[row] != t :: locks[row]
  }

  function At(s: System, t: int, phase: Phase): map<int, Txn>
    requires t in s.txns
  {
    s.txns[t := s.txns[t].(phase := phase)]
  }

  predicate IsOver(phase: Phase) {
    phase.Ended? || phase.RolledBack?
  }

  /** The transaction is over and its rows are free. */
  function Finish(s: System, t: int, phase: Phase): System
    requires t in s.txns
  {
    s.(txns := At(s, t, phase), locks := Release(s.locks, t))
  }

  function End(s: System, t: int, verdict: Verdict): System
    requires t in s.txns
  {
    Finish(s, t, Ended(verdict))
  }

  /** A row no longer held by others is locked if it still is an active admin,
      and dropped from the result otherwise. */
  function Relock(s: System, t: int, row: int): System
    requires t in s.txns && s.txns[t].phase.Locking?
  {
    var rest := s.txns[t].phase.wanted - {row};
    if row in ActiveAdmins(s.table.users) then s.(locks := s.locks[row := t], txns := At(s, t, Locking(rest)))
    else s.(txns := At(s, t, Locking(rest)))
  }

  /** The count finds another active admin, or is not asked for. */
  predicate Passes(s: System, t: int)
    requires t in s.txns && s.txns[t].phase.HasRow? && !s.txns[t].op.CreateUser?
  {
    var op := s.txns[t].op;
    !(Dethrones(s.txns[t].phase.user, op) && ActiveAdminCount(s.table.users, Some(op.id)) == 0)
  }

  function Decided(s: System, t: int): System
    requires t in s.txns && s.txns[t].phase.HasRow? && !s.txns[t].op.CreateUser?
  {
    if Passes(s, t) then s.(txns := At(s, t, Checked)) else End(s, t, LastAdmin)
  }

  function Committed(s: System, t: int): System
    requires t in s.txns && !s.txns[t].op.CreateUser?
  {
    End(s.(table := Perform(s.table, s.txns[t].op)), t, Accepted)
  }

  /** The step `m` of transaction `t`, if it is enabled. */
  predicate IsEnabled(s: System, t: int, m: Move) {
    match m
    case Snapshot(op) => t !in s.txns && !op.CreateUser? && (op.UpdateRole? ==> op.role in ROLES)
    case LockRow(row) => t in s.txns && s.txns[t].phase.Locking? && row in s.txns[t].phase.wanted && row !in s.locks
    case Read => t in s.txns && s.txns[t].phase == Locking({}) && !s.txns[t].op.CreateUser?
    case Check => t in s.txns && s.txns[t].phase.HasRow? && !s.txns[t].op.CreateUser?
    case Write => && t in s.txns && s.txns[t].phase.Checked? && !s.txns[t].op.CreateUser?
                  && (s.txns[t].op.id in s.locks ==> s.locks[s.txns[t].op.id] == t)
    case Commit => t in s.txns && s.txns[t].phase.Written? && !s.txns[t].op.CreateUser?
    case Rollback => t in s.txns && !IsOver(s.txns[t].phase)
    case Insert(op) => op.CreateUser? && ComplaintAbout(s.table, op) == None
  }

  function Next(s: System, t: int, m: Move): System
    requires IsEnabled(s, t, m)
  {
    match m
    case Snapshot(op) => s.(txns := s.txns[t := Txn(op, Locking(ActiveAdmins(s.table.users)))])
    case LockRow(row) => Relock(s, t, row)
    case Read =>
      if s.txns[t].op.id in s.table.users then s.(txns := At(s, t, HasRow(s.table.users[s.txns[t].op.id])))
      else End(s, t, Rejected(UserNotFound))
    case Check => Decided(s, t)
    case Write => s.(locks := s.locks[s.txns[t].op.id := t], txns := At(s, t, Written))
    case Commit => Committed(s, t)
    case Rollback => Finish(s, t, RolledBack)
    case Insert(op) => s.(table := Perform(s.table, op))
  }

  /** A schedule: which transaction takes which step. Steps that are not enabled
      when their turn comes do nothing. */
  function Run(s: System, schedule: seq<(int, Move)>): System {
    if schedule == [] then s
    else
      var before := Run(s, schedule[..|schedule| - 1]);
      var (t, m) := schedule[|schedule| - 1];
      if IsEnabled(before, t, m) then Next(before, t, m) else before
  }

  lemma {:induction false} RunConcat(s: System, a: seq<(int, Move)>, b: seq<(int, Move)>)
    ensures Run(s, a + b) == Run(Run(s, a), b)
    decreases |b|
  {
    if b == [] {
      assert a + b == a;
    } else {
      var n := |b| - 1;
      assert (a + b)[..|a + b| - 1] == a + b[..n];
      RunConcat(s, a, b[..n]);
    }
  }

  // ----- the lockout error -----

  /** A transaction ends in the lockout error only if completing it then would
      leave no active admin, however old its row and its locks are. */
  lemma LockoutOnlyWhenNeeded(s: System, t: int, m: Move, u: int)
    requires IsEnabled(s, t, m)
    requires u in s.txns && s.txns[u].phase != Ended(LastAdmin) && Next(s, t, m).txns[u].phase == Ended(LastAdmin)
    ensures ActiveAdmins(Perform(s.table, s.txns[u].op).users) == {} && Next(s, t, m).table == s.table
  {
    assert u == t && m == Check && !Passes(s, t);
    var op := s.txns[t].op;
    var rest := ActiveAdmins(s.table.users) - {op.id};
    assert |rest| == 0 && rest == {};
    forall row ensures row !in ActiveAdmins(Perform(s.table, op).users) {
      assert row !in rest;
    }
  }

  // ----- counts that are guarded by a lock -----

  predicate Weakens(op: Operation) {
    (op.UpdateRole? && op.role != "admin") || (op.SetActive? && !op.active)
  }

  ghost predicate HoldsRow(s: System, t: int) {
    exists row :: row in s.locks && s.locks[row] == t
  }

  /** The row lock keeps an admin other than the target for `t`. */
  ghost predicate IsGuarded(s: System, t: int, id: int) {
    exists row :: row != id && row in s.locks && s.locks[row] == t && row in ActiveAdmins(s.table.users)
  }

  /** `t` holds its target, and there is another admin. */
  ghost predicate IsSelfGuarded(s: System, t: int, id: int) {
    && id in s.locks && s.locks[id] == t
    && exists row :: row != id && row in ActiveAdmins(s.table.users)
  }

  /** The count of `t` passes and lets a weakening operation go on. */
  predicate LetsWeaken(s: System, t: int) {
    IsEnabled(s, t, Check) && Weakens(s.txns[t].op) && Passes(s, t)
  }

  /** Every count that lets a weakening operation go on is made while the
      transaction holds an admin other than its target. */
  ghost predicate IsGuardedRun(s: System, schedule: seq<(int, Move)>) {
    forall i :: 0 <= i < |schedule| && schedule[i].1 == Check && LetsWeaken(Run(s, schedule[..i]), schedule[i].0) ==>
      IsGuarded(Run(s, schedule[..i]), schedule[i].0, Run(s, schedule[..i]).txns[schedule[i].0].op.id)
  }

  /** What holds of a transaction in each phase. `exempt` may be guarded by its
      own target instead of another admin. */
  ghost predicate TxnIsSound(s: System, t: int, exempt: Option<int>) {
    t in s.txns ==>
      var op, phase := s.txns[t].op, s.txns[t].phase;
      && !op.CreateUser?
      && (phase.Locking? || phase.HasRow? || phase.Checked? ==>
            forall row :: row in s.locks && s.locks[row] == t ==> row in ActiveAdmins(s.table.users))
      && (phase.HasRow? ==> op.id in s.table.users)
      && (phase.HasRow? && op.id in s.locks && s.locks[op.id] == t ==> phase.user == s.table.users[op.id])
      && (phase.Checked? || phase.Written? ==> op.id in s.table.users)
      && ((phase.Checked? || phase.Written?) && Weakens(op) ==>
            IsGuarded(s, t, op.id) || (exempt == Some(t) && IsSelfGuarded(s, t, op.id)))
      && (phase.Written? ==> op.id in s.locks && s.locks[op.id] == t)
  }

  ghost predicate OwnersAreLive(s: System) {
    forall row :: row in s.locks ==> s.locks[row] in s.txns && !IsOver(s.txns[s.locks[row]].phase)
  }

  ghost predicate Inv(s: System, exempt: Option<int>) {
    && IsNumbered(s.table) && ActiveAdmins(s.table.users) != {}
    && OwnersAreLive(s)
    && (forall t :: TxnIsSound(s, t, exempt))
  }

  /** Nothing a transaction other than `t` holds or does is affected. */
  ghost predicate IsUndisturbed(s: System, s': System, t: Option<int>) {
    && (forall u :: t != Some(u) ==> (u in s.txns <==> u in s'.txns))
    && (forall u :: t != Some(u) && u in s.txns ==> s'.txns[u] == s.txns[u])
    && (forall row :: row in s.locks && t != Some(s.locks[row]) ==> row in s'.locks && s'.locks[row] == s.locks[row])
    && (forall row :: row in s'.locks && t != Some(s'.locks[row]) ==> row in s.locks && s.locks[row] == s'.locks[row])
    && (forall id :: id in s.table.users ==> id in s'.table.users)
    && (forall row :: row in s.locks && t != Some(s.locks[row]) && row in s.table.users ==>
          s'.table.users[row] == s.table.users[row])
  }

  ghost predicate StaysSelfGuarded(s: System, s': System, u: int) {
    u in s.txns && !s.txns[u].op.CreateUser? && IsSelfGuarded(s, u, s.txns[u].op.id) ==>
      IsSelfGuarded(s', u, s.txns[u].op.id)
  }

  lemma OthersStaySound(s: System, s': System, t: Option<int>, u: int, exempt: Option<int>)
    requires IsUndisturbed(s, s', t) && t != Some(u) && TxnIsSound(s, u, exempt)
    requires exempt == Some(u) ==> StaysSelfGuarded(s, s', u)
    ensures TxnIsSound(s', u, exempt)
  {
    if u in s.txns {
      var id := s.txns[u].op.id;
      if IsGuarded(s, u, id) {
        var row :| row != id && row in s.locks && s.locks[row] == u && row in ActiveAdmins(s.table.users);
        assert row in ActiveAdmins(s'.table.users);
      }
    }
  }

  /** One step of `t` keeps the invariant if it disturbs nobody, leaves `t`
      sound and leaves an admin, another one than the exempt target if that is
      all that guards it. */
  lemma StepKeepsIf(s: System, s': System, t: int, exempt: Option<int>)
    requires Inv(s, exempt) && IsUndisturbed(s, s', Some(t)) && TxnIsSound(s', t, exempt)
    requires IsNumbered(s'.table) && ActiveAdmins(s'.table.users) != {}
    requires forall row :: row in s'.locks && s'.locks[row] == t ==> t in s'.txns && !IsOver(s'.txns[t].phase)
    requires exempt.Some? && exempt.value != t ==> StaysSelfGuarded(s, s', exempt.value)
    ensures Inv(s', exempt)
  {
    forall u ensures TxnIsSound(s', u, exempt) {
      if u != t {
        OthersStaySound(s, s', Some(t), u, exempt);
      }
    }
  }

  lemma SnapshotKeeps(s: System, t: int, op: Operation, exempt: Option<int>)
    requires Inv(s, exempt) && IsEnabled(s, t, Snapshot(op))
    ensures Inv(Next(s, t, Snapshot(op)), exempt)
  {
    StepKeepsIf(s, Next(s, t, Snapshot(op)), t, exempt);
  }

  lemma FinishKeeps(s: System, t: int, phase: Phase, exempt: Option<int>)
    requires Inv(s, exempt) && t in s.txns && IsOver(phase)
    ensures Inv(Finish(s, t, phase), exempt)
  {
    assert TxnIsSound(s, t, exempt);
    StepKeepsIf(s, Finish(s, t, phase), t, exempt);
  }

  lemma LockRowKeeps(s: System, t: int, row: int, exempt: Option<int>)
    requires Inv(s, exempt) && IsEnabled(s, t, LockRow(row))
    ensures Inv(Next(s, t, LockRow(row)), exempt)
  {
    assert TxnIsSound(s, t, exempt);
    StepKeepsIf(s, Next(s, t, LockRow(row)), t, exempt);
  }

  lemma ReadKeeps(s: System, t: int, exempt: Option<int>)
    requires Inv(s, exempt) && IsEnabled(s, t, Read)
    ensures Inv(Next(s, t, Read), exempt)
  {
    assert TxnIsSound(s, t, exempt);
    if s.txns[t].op.id in s.table.users {
      StepKeepsIf(s, Next(s, t, Read), t, exempt);
    } else {
      FinishKeeps(s, t, Ended(Rejected(UserNotFound)), exempt);
    }
  }

  /** A passing count of a weakening operation keeps the invariant if it is
      guarded, or if `t` is the exempt one and guards itself. */
  lemma CheckKeeps(s: System, t: int, before: Option<int>, exempt: Option<int>)
    requires Inv(s, before) && IsEnabled(s, t, Check)
    requires before == exempt || (before == None && exempt == Some(t))
    requires LetsWeaken(s, t) ==>
      IsGuarded(s, t, s.txns[t].op.id) || (exempt == Some(t) && IsSelfGuarded(s, t, s.txns[t].op.id))
    ensures Inv(Next(s, t, Check), exempt)
  {
    assert TxnIsSound(s, t, before);
    var s' := Next(s, t, Check);
    if before != exempt {
      ExemptMore(s, t);
    }
    if Passes(s, t) {
      assert s'.table == s.table && s'.locks == s.locks;
      SameGuards(s, s', t, s.txns[t].op.id);
      StepKeepsIf(s, s', t, exempt);
    } else {
      FinishKeeps(s, t, Ended(LastAdmin), exempt);
    }
  }

  lemma ExemptMore(s: System, t: int)
    requires Inv(s, None)
    ensures Inv(s, Some(t))
  {
    forall u ensures TxnIsSound(s, u, Some(t)) {
      assert TxnIsSound(s, u, None);
    }
  }

  lemma SameGuards(s: System, s': System, t: int, id: int)
    requires s'.table == s.table && s'.locks == s.locks
    ensures IsGuarded(s', t, id) <==> IsGuarded(s, t, id)
    ensures IsSelfGuarded(s', t, id) <==> IsSelfGuarded(s, t, id)
  {
  }

  lemma WriteKeeps(s: System, t: int, exempt: Option<int>)
    requires Inv(s, exempt) && IsEnabled(s, t, Write)
    ensures Inv(Next(s, t, Write), exempt)
  {
    assert TxnIsSound(s, t, exempt);
    var s' := Next(s, t, Write);
    var id := s.txns[t].op.id;
    if IsGuarded(s, t, id) {
      var row :| row != id && row in s.locks && s.locks[row] == t && row in ActiveAdmins(s.table.users);
      assert row in s'.locks && s'.locks[row] == t;
    }
    StepKeepsIf(s, s', t, exempt);
  }

  /** After a weakening commit an admin is left: the one that guarded it, which
      is not the target of a transaction that guards itself. */
  lemma CommitLeaves(s: System, t: int, exempt: Option<int>)
    requires Inv(s, exempt) && IsEnabled(s, t, Commit)
    ensures ActiveAdmins(Next(s, t, Commit).table.users) != {}
    ensures exempt.Some? && exempt.value != t ==> StaysSelfGuarded(s, Next(s, t, Commit), exempt.value)
  {
    assert TxnIsSound(s, t, exempt);
    var s' := Next(s, t, Commit);
    var op := s.txns[t].op;
    DethroningRemoves(s.table, op);
    if IsGuarded(s, t, op.id) {
      var row :| row != op.id && row in s.locks && s.locks[row] == t && row in ActiveAdmins(s.table.users);
      assert row in ActiveAdmins(s'.table.users);
    } else if Weakens(op) {
      var row :| row != op.id && row in ActiveAdmins(s.table.users);
      assert row in ActiveAdmins(s'.table.users);
    } else {
      assert ActiveAdmins(s.table.users) <= ActiveAdmins(s'.table.users);
    }
  }

  lemma CommitKeeps(s: System, t: int, exempt: Option<int>)
    requires Inv(s, exempt) && IsEnabled(s, t, Commit)
    ensures Inv(Next(s, t, Commit), exempt)
  {
    assert TxnIsSound(s, t, exempt);
    CommitLeaves(s, t, exempt);
    StepKeepsIf(s, Next(s, t, Commit), t, exempt);
  }

  lemma InsertDisturbsNobody(s: System, op: Operation)
    requires IsNumbered(s.table) && op.CreateUser?
    ensures IsUndisturbed(s, s.(table := Perform(s.table, op)), None)
    ensures IsNumbered(Perform(s.table, op))
    ensures ActiveAdmins(s.table.users) <= ActiveAdmins(Perform(s.table, op).users)
  {
  }

  lemma InsertKeeps(s: System, t: int, op: Operation, exempt: Option<int>)
    requires Inv(s, exempt) && IsEnabled(s, t, Insert(op))
    ensures Inv(Next(s, t, Insert(op)), exempt)
  {
    var s' := Next(s, t, Insert(op));
    InsertDisturbsNobody(s, op);
    forall u ensures TxnIsSound(s', u, exempt) {
      if u in s.txns && !s.txns[u].op.CreateUser? && IsSelfGuarded(s, u, s.txns[u].op.id) {
        var row :| row != s.txns[u].op.id && row in ActiveAdmins(s.table.users);
        assert row in ActiveAdmins(s'.table.users);
      }
      OthersStaySound(s, s', None, u, exempt);
    }
    var row := Pick(ActiveAdmins(s.table.users));
    assert row in ActiveAdmins(s'.table.users);
  }

  lemma NextKeeps(s: System, t: int, m: Move, exempt: Option<int>)
    requires Inv(s, exempt) && IsEnabled(s, t, m)
    requires m == Check && LetsWeaken(s, t) ==> IsGuarded(s, t, s.txns[t].op.id)
    ensures Inv(Next(s, t, m), exempt)
  {
    match m
    case Snapshot(op) => SnapshotKeeps(s, t, op, exempt);
    case LockRow(row) => LockRowKeeps(s, t, row, exempt);
    case Read => ReadKeeps(s, t, exempt);
    case Check => CheckKeeps(s, t, exempt, exempt);
    case Write => WriteKeeps(s, t, exempt);
    case Commit => CommitKeeps(s, t, exempt);
    case Rollback => FinishKeeps(s, t, RolledBack, exempt);
    case Insert(op) => InsertKeeps(s, t, op, exempt);
  }

  lemma GuardedPrefix(s: System, schedule: seq<(int, Move)>, n: nat)
    requires n <= |schedule| && IsGuardedRun(s, schedule)
    ensures IsGuardedRun(s, schedule[..n])
  {
    forall i | 0 <= i < n ensures schedule[..n][i] == schedule[i] && schedule[..n][..i] == schedule[..i] {
    }
  }

  /** As long as every count that lets a weakening operation go on is guarded,
      there is an active admin. */
  lemma {:induction false} GuardedRunKeeps(s: System, schedule: seq<(int, Move)>, exempt: Option<int>)
    requires Inv(s, exempt) && IsGuardedRun(s, schedule)
    ensures Inv(Run(s, schedule), exempt)
  {
    if schedule != [] {
      var n := |schedule| - 1;
      GuardedPrefix(s, schedule, n);
      GuardedRunKeeps(s, schedule[..n], exempt);
      var (t, m) := schedule[n];
      if IsEnabled(Run(s, schedule[..n]), t, m) {
        NextKeeps(Run(s, schedule[..n]), t, m, exempt);
      }
    }
  }

  /** From a table with an active admin, every schedule whose weakening counts
      are guarded keeps one. */
  lemma GuardedSchedulesKeepAnAdmin(start: Table, schedule: seq<(int, Move)>)
    requires IsNumbered(start) && ActiveAdmins(start.users) != {}
    requires IsGuardedRun(System(start, map[], map[]), schedule)
    ensures Inv(Run(System(start, map[], map[]), schedule), None)
    ensures ActiveAdmins(Run(System(start, map[], map[]), schedule).table.users) != {}
  {
    GuardedRunKeeps(System(start, map[], map[]), schedule, None);
  }

  // ----- the simple case: all admins are held -----

  /** When it counts, the transaction holds every row that is an active admin:
      none was created or activated since its snapshot. */
  predicate Covers(s: System, t: int) {
    forall row :: row in ActiveAdmins(s.table.users) ==> row in s.locks && s.locks[row] == t
  }

  ghost predicate IsCovered(s: System, schedule: seq<(int, Move)>) {
    forall i :: 0 <= i < |schedule| && schedule[i].1 == Check ==> Covers(Run(s, schedule[..i]), schedule[i].0)
  }

  /** A covered count that passes leaves another admin locked. */
  lemma CheckGuards(s: System, t: int)
    requires Inv(s, None) && LetsWeaken(s, t) && Covers(s, t)
    ensures IsGuarded(s, t, s.txns[t].op.id)
  {
    assert TxnIsSound(s, t, None);
    var id := s.txns[t].op.id;
    var admins := ActiveAdmins(s.table.users);
    if id in admins {
      assert s.txns[t].phase.user == s.table.users[id];
      var row := Pick(admins - {id});
      assert row in s.locks && s.locks[row] == t;
    } else {
      var row := Pick(admins);
      assert row in s.locks && s.locks[row] == t;
    }
  }

  /** If every count is made while the transaction holds all active admins, then
      under every schedule there is always an active admin. */
  lemma {:induction false} CoveredSchedulesKeepAnAdmin(start: Table, schedule: seq<(int, Move)>)
    requires IsNumbered(start) && ActiveAdmins(start.users) != {}
    requires IsCovered(System(start, map[], map[]), schedule)
    ensures Inv(Run(System(start, map[], map[]), schedule), None)
  {
    var s := System(start, map[], map[]);
    if schedule != [] {
      var n := |schedule| - 1;
      forall i | 0 <= i < n && schedule[..n][i].1 == Check
        ensures Covers(Run(s, schedule[..n][..i]), schedule[..n][i].0)
      {
        assert schedule[..n][..i] == schedule[..i];
        assert schedule[i].1 == Check;
      }
      CoveredSchedulesKeepAnAdmin(start, schedule[..n]);
      var (t, m) := schedule[n];
      var before := Run(s, schedule[..n]);
      if IsEnabled(before, t, m) {
        if m == Check && LetsWeaken(before, t) {
          CheckGuards(before, t);
        }
        NextKeeps(before, t, m, None);
      }
    }
  }
}
