/** What every schedule under row locks keeps: the users stay well-formed,
    transactions that are over stay over, and a transaction locks only rows that
    it read or writes. */
module RowLockRuns {
  import opened Ordering
  import opened UserAdmin
  import opened UserTheorems
  import opened RowLocks

  // ----- the users -----

  lemma NextKeepsUsers(s: System, t: int, m: Move)
    requires AreWellFormed(s.table) && IsEnabled(s, t, m)
    requires forall u :: u in s.txns ==> IsWellFormedChange(s.txns[u].op)
    ensures AreWellFormed(Next(s, t, m).table)
    ensures forall u :: u in Next(s, t, m).txns ==> IsWellFormedChange(Next(s, t, m).txns[u].op)
  {
    match m
    case Snapshot(op) => if op.UpdateRole? { RolesExactly(op.role); }
    case Commit => PerformKeepsUsers(s.table, s.txns[t].op);
    case Insert(op) =>
      AcceptedIsWellFormed(s.table, op);
      InsertKeepsUsers(s.table, op);
    case _ =>
  }

  lemma {:induction false} RunKeepsUsers(s: System, schedule: seq<(int, Move)>)
    requires AreWellFormed(s.table) && forall u :: u in s.txns ==> IsWellFormedChange(s.txns[u].op)
    ensures AreWellFormed(Run(s, schedule).table)
    ensures forall u :: u in Run(s, schedule).txns ==> IsWellFormedChange(Run(s, schedule).txns[u].op)
  {
    if schedule != [] {
      var n := |schedule| - 1;
      RunKeepsUsers(s, schedule[..n]);
      if IsEnabled(Run(s, schedule[..n]), schedule[n].0, schedule[n].1) {
        NextKeepsUsers(Run(s, schedule[..n]), schedule[n].0, schedule[n].1);
      }
    }
  }

  /** Under every schedule each user has one of the three roles, and no two have
      the same address. */
  lemma SchedulesKeepUsers(start: Table, schedule: seq<(int, Move)>)
    requires AreWellFormed(start)
    ensures AreWellFormed(Run(System(start, map[], map[]), schedule).table)
  {
    RunKeepsUsers(System(start, map[], map[]), schedule);
  }

  // ----- transactions that are over -----

  lemma NextLeavesFinished(s: System, t: int, m: Move, u: int)
    requires IsEnabled(s, t, m) && u in s.txns && IsOver(s.txns[u].phase)
    ensures u in Next(s, t, m).txns && Next(s, t, m).txns[u] == s.txns[u]
  {
  }

  /** A transaction that ended or rolled back takes no further step. */
  lemma {:induction false} FinishedStays(s: System, schedule: seq<(int, Move)>, u: int)
    requires u in s.txns && IsOver(s.txns[u].phase)
    ensures u in Run(s, schedule).txns && Run(s, schedule).txns[u] == s.txns[u]
  {
    if schedule != [] {
      var n := |schedule| - 1;
      FinishedStays(s, schedule[..n], u);
      if IsEnabled(Run(s, schedule[..n]), schedule[n].0, schedule[n].1) {
        NextLeavesFinished(Run(s, schedule[..n]), schedule[n].0, schedule[n].1, u);
      }
    }
  }

  // ----- what is locked -----

  /** The rows the transaction holds or still wants are among `rows`, or are the
      one it writes. */
  ghost predicate StaysWithin(s: System, t: int, rows: set<int>) {
    t in s.txns && !s.txns[t].op.CreateUser?
    && (forall row :: row in s.locks && s.locks[row] == t ==> row in rows || row == s.txns[t].op.id)
    && (s.txns[t].phase.Locking? ==> s.txns[t].phase.wanted <= rows)
  }

  lemma NextStaysWithin(s: System, t: int, m: Move, u: int, rows: set<int>)
    requires IsEnabled(s, t, m) && StaysWithin(s, u, rows)
    ensures StaysWithin(Next(s, t, m), u, rows)
  {
  }

  /** A transaction locks only rows that were active administrators in its own
      snapshot, and the row it writes. */
  lemma {:induction false} LocksItsSnapshot(s: System, t: int, op: Operation, schedule: seq<(int, Move)>)
    requires IsEnabled(s, t, Snapshot(op)) && forall row :: row in s.locks ==> s.locks[row] != t
    ensures StaysWithin(Run(Next(s, t, Snapshot(op)), schedule), t, ActiveAdmins(s.table.users))
  {
    if schedule != [] {
      var n := |schedule| - 1;
      var before := Run(Next(s, t, Snapshot(op)), schedule[..n]);
      LocksItsSnapshot(s, t, op, schedule[..n]);
      if IsEnabled(before, schedule[n].0, schedule[n].1) {
        NextStaysWithin(before, schedule[n].0, schedule[n].1, t, ActiveAdmins(s.table.users));
      }
    }
  }
}
