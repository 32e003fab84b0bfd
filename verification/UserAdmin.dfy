/** `app/services/user_service.py`: the user operations and the
    last-active-admin rule, one operation at a time. */
module UserAdmin {
  import opened Ordering
  import opened Text

  datatype User = User(email: string, displayName: string, role: string, active: bool)

  datatype Table = Table(users: map<int, User>, nextId: int)

  const ROLES := {"read_only", "analyst", "admin"}

  predicate IsActiveAdmin(user: User) {
    user.role == "admin" && user.active
  }

  function ActiveAdmins(users: map<int, User>): set<int> {
    set id | id in users && IsActiveAdmin(users[id])
  }

  /** `active_admin_count`. */
  function ActiveAdminCount(users: map<int, User>, excluding: Option<int>): nat {
    if excluding.Some? then |ActiveAdmins(users) - {excluding.value}| else |ActiveAdmins(users)|
  }

  datatype Operation =
    | UpdateRole(id: int, role: string)
    | SetActive(id: int, active: bool)
    | CreateUser(email: string, displayName: string, newRole: string, password: string)

  datatype Complaint = EmailRequired | NameRequired | InvalidRole | ShortPassword | DuplicateEmail | UserNotFound

  datatype Verdict = Accepted | Rejected(why: Complaint) | LastAdmin

  function CleanEmail(email: string): string {
    Lower(Strip(email))
  }

  /** The input checks of the operation, in order. */
  function ComplaintAbout(t: Table, op: Operation): Option<Complaint> {
    match op
    case UpdateRole(id, role) =>
      if role !in ROLES then Some(InvalidRole)
      else if id !in t.users then Some(UserNotFound)
      else None
    case SetActive(id, _) => if id !in t.users then Some(UserNotFound) else None
    case CreateUser(email, name, role, password) =>
      if CleanEmail(email) == "" then Some(EmailRequired)
      else if Strip(name) == "" then Some(NameRequired)
      else if role !in ROLES then Some(InvalidRole)
      else if |password| < 8 then Some(ShortPassword)
      else if exists id :: id in t.users && t.users[id].email == CleanEmail(email) then Some(DuplicateEmail)
      else None
  }

  /** The operation takes an active admin's powers away. */
  predicate Dethrones(user: User, op: Operation) {
    IsActiveAdmin(user) && ((op.UpdateRole? && op.role != "admin") || (op.SetActive? && !op.active))
  }

  function Decide(t: Table, op: Operation): Verdict {
    if ComplaintAbout(t, op).Some? then Rejected(ComplaintAbout(t, op).value)
    else if !op.CreateUser? && Dethrones(t.users[op.id], op) && ActiveAdminCount(t.users, Some(op.id)) == 0 then LastAdmin
    else Accepted
  }

  /** What the operation writes to the row of its user. */
  function Updated(user: User, op: Operation): User
    requires !op.CreateUser?
  {
    if op.UpdateRole? then user.(role := op.role) else user.(active := op.active)
  }

  function Perform(t: Table, op: Operation): Table {
    match op
    case CreateUser(email, name, role, _) =>
      Table(t.users[t.nextId := User(CleanEmail(email), Strip(name), role, true)], t.nextId + 1)
    case _ => if op.id in t.users then t.(users := t.users[op.id := Updated(t.users[op.id], op)]) else t
  }

  function Execute(t: Table, op: Operation): Table {
    if Decide(t, op) == Accepted then Perform(t, op) else t
  }

  predicate IsNumbered(t: Table) {
    forall id :: id in t.users ==> id < t.nextId
  }

  lemma DethroningRemoves(t: Table, op: Operation)
    requires !op.CreateUser? && op.id in t.users
    ensures Dethrones(t.users[op.id], op) ==> ActiveAdmins(Perform(t, op).users) == ActiveAdmins(t.users) - {op.id}
    ensures !Dethrones(t.users[op.id], op) ==> ActiveAdmins(t.users) <= ActiveAdmins(Perform(t, op).users)
  {
  }

  /** The lockout error is raised exactly when the input is valid, there is an
      active admin, and completing the operation would leave none. */
  lemma LastAdminExactlyWhen(t: Table, op: Operation)
    requires IsNumbered(t)
    ensures Decide(t, op) == LastAdmin <==>
      ComplaintAbout(t, op) == None && ActiveAdmins(t.users) != {} && ActiveAdmins(Perform(t, op).users) == {}
  {
    if op.CreateUser? {
      assert forall id :: id in t.users ==> Perform(t, op).users[id] == t.users[id];
      assert ActiveAdmins(t.users) <= ActiveAdmins(Perform(t, op).users);
    } else if ComplaintAbout(t, op) == None {
      DethroningRemoves(t, op);
      var rest := ActiveAdmins(t.users) - {op.id};
      if Dethrones(t.users[op.id], op) {
        assert op.id in ActiveAdmins(t.users);
        assert |rest| == 0 <==> rest == {};
      }
    }
  }

  /** No accepted operation removes the last active admin. */
  lemma ExecuteKeepsAnAdmin(t: Table, op: Operation)
    requires IsNumbered(t) && ActiveAdmins(t.users) != {}
    ensures IsNumbered(Execute(t, op)) && ActiveAdmins(Execute(t, op).users) != {}
  {
  }

  // ----- the table, updated in place -----

  datatype AuditRow = AuditRow(action: string, target: int)

  class UserTable {
    var users: map<int, User>
    var nextId: int
    var audit: seq<AuditRow>

    constructor (users: map<int, User>, nextId: int)
      ensures State() == Table(users, nextId) && audit == []
    {
      this.users, this.nextId, audit := users, nextId, [];
    }

    ghost function State(): Table
      reads this
    {
      Table(users, nextId)
    }

    method UpdateUserRole(id: int, role: string) returns (verdict: Verdict)
      modifies this
      ensures verdict == Decide(old(State()), UpdateRole(id, role))
      ensures State() == Execute(old(State()), UpdateRole(id, role))
      ensures audit == old(audit) + if verdict.Accepted? then [AuditRow("user_role_changed", id)] else []
    {
      if role !in ROLES {
        return Rejected(InvalidRole);
      }
      if id !in users {
        return Rejected(UserNotFound);
      }
      if users[id].role == "admin" && users[id].active && role != "admin" && ActiveAdminCount(users, Some(id)) == 0 {
        return LastAdmin;
      }
      users := users[id := users[id].(role := role)];
      audit := audit + [AuditRow("user_role_changed", id)];
      verdict := Accepted;
    }

    method SetUserActive(id: int, active: bool) returns (verdict: Verdict)
      modifies this
      ensures verdict == Decide(old(State()), SetActive(id, active))
      ensures State() == Execute(old(State()), SetActive(id, active))
      ensures audit == old(audit) + if verdict.Accepted?
        then [AuditRow(if active then "user_activated" else "user_deactivated", id)] else []
    {
      if id !in users {
        return Rejected(UserNotFound);
      }
      if !active && users[id].role == "admin" && users[id].active && ActiveAdminCount(users, Some(id)) == 0 {
        return LastAdmin;
      }
      users := users[id := users[id].(active := active)];
      audit := audit + [AuditRow(if active then "user_activated" else "user_deactivated", id)];
      verdict := Accepted;
    }

    method AddUser(email: string, displayName: string, role: string, password: string) returns (verdict: Verdict)
      modifies this
      ensures verdict == Decide(old(State()), CreateUser(email, displayName, role, password))
      ensures State() == Execute(old(State()), CreateUser(email, displayName, role, password))
      ensures audit == old(audit) + if verdict.Accepted? then [AuditRow("user_created", old(nextId))] else []
    {
      var cleaned, name := CleanEmail(email), Strip(displayName);
      if cleaned == "" {
        return Rejected(EmailRequired);
      }
      if name == "" {
        return Rejected(NameRequired);
      }
      if role !in ROLES {
        return Rejected(InvalidRole);
      }
      if |password| < 8 {
        return Rejected(ShortPassword);
      }
      if exists id :: id in users && users[id].email == cleaned {
        return Rejected(DuplicateEmail);
      }
      audit := audit + [AuditRow("user_created", nextId)];
      users := users[nextId := User(cleaned, name, role, true)];
      nextId := nextId + 1;
      verdict := Accepted;
    }
  }
}

/** The operations as interleaved transactions under SQLite's database-wide
    write lock (`BEGIN IMMEDIATE`). */
module AdminProtocol {
  import opened Ordering
  import opened UserAdmin

  /** Where a transaction is. `Locked` to `Written` hold the write lock. */
  datatype Phase =
    | Waiting
    | Locked
    | HasRow(user: User)
    | Checked(found: User)
    | Written(pending: Table)
    | Ended(verdict: Verdict)
    | RolledBack

  datatype Txn = Txn(op: Operation, phase: Phase)

  /** `log` lists the committed operations in order of commit. */
  datatype System = System(committed: Table, lock: Option<int>, txns: map<int, Txn>, log: seq<Operation>)

  predicate HoldsLock(phase: Phase) {
    phase.Locked? || phase.HasRow? || phase.Checked? || phase.Written?
  }

  function MoveTo(s: System, t: int, phase: Phase): map<int, Txn>
    requires t in s.txns
  {
    s.txns[t := s.txns[t].(phase := phase)]
  }

  /** A new request arrives. */
  predicate Begin(s: System, s': System, t: int, op: Operation) {
    t !in s.txns && s' == s.(txns := s.txns[t := Txn(op, Waiting)])
  }

  /** `update_role` rejects an unknown role before it takes the lock. */
  predicate RejectEarly(s: System, s': System, t: int) {
    && t in s.txns && s.txns[t].phase.Waiting?
    && s.txns[t].op.UpdateRole? && s.txns[t].op.role !in ROLES
    && s' == s.(txns := MoveTo(s, t, Ended(Rejected(InvalidRole))))
  }

  predicate Acquire(s: System, s': System, t: int) {
    && t in s.txns && s.txns[t].phase.Waiting? && !s.txns[t].op.CreateUser?
    && (s.txns[t].op.UpdateRole? ==> s.txns[t].op.role in ROLES)
    && s.lock == None
    && s' == s.(txns := MoveTo(s, t, Locked), lock := Some(t))
  }

  predicate Read(s: System, s': System, t: int) {
    && t in s.txns && s.txns[t].phase.Locked? && !s.txns[t].op.CreateUser?
    && var id := s.txns[t].op.id;
       if id in s.committed.users then s' == s.(txns := MoveTo(s, t, HasRow(s.committed.users[id])))
       else s' == s.(txns := MoveTo(s, t, Ended(Rejected(UserNotFound))), lock := None)
  }

  /** The count is a query of its own, after the row was read. */
  predicate Check(s: System, s': System, t: int) {
    && t in s.txns && s.txns[t].phase.HasRow? && !s.txns[t].op.CreateUser?
    && var user := s.txns[t].phase.user;
       if Dethrones(user, s.txns[t].op) && ActiveAdminCount(s.committed.users, Some(s.txns[t].op.id)) == 0 then
         s' == s.(txns := MoveTo(s, t, Ended(LastAdmin)), lock := None)
       else s' == s.(txns := MoveTo(s, t, Checked(user)))
  }

  predicate Write(s: System, s': System, t: int) {
    && t in s.txns && s.txns[t].phase.Checked? && !s.txns[t].op.CreateUser?
    && var op := s.txns[t].op;
       s' == s.(txns := MoveTo(s, t,
         Written(s.committed.(users := s.committed.users[op.id := Updated(s.txns[t].phase.found, op)]))))
  }

  /** `create_user` takes no lock of its own: its insert takes the write lock. */
  predicate Insert(s: System, s': System, t: int) {
    && t in s.txns && s.txns[t].phase.Waiting? && s.txns[t].op.CreateUser? && s.lock == None
    && if ComplaintAbout(s.committed, s.txns[t].op).Some? then
         s' == s.(txns := MoveTo(s, t, Ended(Rejected(ComplaintAbout(s.committed, s.txns[t].op).value))))
       else s' == s.(txns := MoveTo(s, t, Written(Perform(s.committed, s.txns[t].op))), lock := Some(t))
  }

  predicate Commit(s: System, s': System, t: int) {
    && t in s.txns && s.txns[t].phase.Written?
    && s' == System(s.txns[t].phase.pending, None, MoveTo(s, t, Ended(Accepted)), s.log + [s.txns[t].op])
  }

  /** A failure anywhere rolls the transaction back. */
  predicate Rollback(s: System, s': System, t: int) {
    && t in s.txns && !s.txns[t].phase.Ended? && !s.txns[t].phase.RolledBack?
    && s' == s.(txns := MoveTo(s, t, RolledBack), lock := if s.lock == Some(t) then None else s.lock)
  }

  ghost predicate StepOf(s: System, s': System, t: int) {
    || (exists op :: Begin(s, s', t, op))
    || RejectEarly(s, s', t) || Acquire(s, s', t) || Read(s, s', t) || Check(s, s', t)
    || Write(s, s', t) || Insert(s, s', t) || Commit(s, s', t) || Rollback(s, s', t)
  }

  ghost predicate Step(s: System, s': System) {
    exists t :: StepOf(s, s', t)
  }

  predicate IsInitial(s: System) {
    && IsNumbered(s.committed) && ActiveAdmins(s.committed.users) != {}
    && s.lock == None && s.txns == map[] && s.log == []
  }

  /** The committed operations, executed one after the other. */
  function Replay(t: Table, log: seq<Operation>): Table {
    if log == [] then t else Execute(Replay(t, log[..|log| - 1]), log[|log| - 1])
  }

  /** What a transaction in each phase knows about the committed table. */
  predicate IsSound(s: System, txn: Txn) {
    match txn.phase
    case Waiting => true
    case Locked => !txn.op.CreateUser? && (txn.op.UpdateRole? ==> txn.op.role in ROLES)
    case HasRow(user) =>
      !txn.op.CreateUser? && ComplaintAbout(s.committed, txn.op) == None && user == s.committed.users[txn.op.id]
    case Checked(user) =>
      !txn.op.CreateUser? && Decide(s.committed, txn.op) == Accepted && user == s.committed.users[txn.op.id]
    case Written(pending) =>
      Decide(s.committed, txn.op) == Accepted && pending == Perform(s.committed, txn.op)
    case Ended(_) => true
    case RolledBack => true
  }

  ghost predicate Inv(s: System, start: Table) {
    && IsNumbered(s.committed) && ActiveAdmins(s.committed.users) != {}
    && s.committed == Replay(start, s.log)
    && (forall t :: t in s.txns ==> (HoldsLock(s.txns[t].phase) <==> s.lock == Some(t)))
    && (s.lock.Some? ==> s.lock.value in s.txns)
    && (forall t :: t in s.txns ==> IsSound(s, s.txns[t]))
  }

  lemma CommitKeeps(s: System, s': System, t: int, start: Table)
    requires Inv(s, start) && Commit(s, s', t)
    ensures Inv(s', start)
    ensures s'.committed == Execute(s.committed, s.txns[t].op)
  {
    var op := s.txns[t].op;
    assert IsSound(s, s.txns[t]);
    assert s'.committed == Execute(s.committed, op);
    ExecuteKeepsAnAdmin(s.committed, op);
    assert s'.log[..|s'.log| - 1] == s.log;
    forall u | u in s'.txns ensures IsSound(s', s'.txns[u]) {
      if u != t {
        assert !HoldsLock(s.txns[u].phase);
      }
    }
  }

  /** A transaction moves on without committing. */
  lemma MoveKeeps(s: System, t: int, phase: Phase, lock: Option<int>, start: Table)
    requires Inv(s, start) && t in s.txns
    requires IsSound(s, Txn(s.txns[t].op, phase))
    requires HoldsLock(phase) <==> lock == Some(t)
    requires lock == s.lock || (s.lock == None && lock == Some(t)) || (s.lock == Some(t) && lock == None)
    ensures Inv(s.(txns := MoveTo(s, t, phase), lock := lock), start)
  {
  }

  lemma BeginKeeps(s: System, s': System, t: int, op: Operation, start: Table)
    requires Inv(s, start) && Begin(s, s', t, op)
    ensures Inv(s', start)
  {
  }

  lemma CheckKeeps(s: System, s': System, t: int, start: Table)
    requires Inv(s, start) && Check(s, s', t)
    ensures Inv(s', start)
  {
    assert IsSound(s, s.txns[t]);
    MoveKeeps(s, t, s'.txns[t].phase, s'.lock, start);
  }

  lemma ReadKeeps(s: System, s': System, t: int, start: Table)
    requires Inv(s, start) && Read(s, s', t)
    ensures Inv(s', start)
  {
  }

  lemma WriteKeeps(s: System, s': System, t: int, start: Table)
    requires Inv(s, start) && Write(s, s', t)
    ensures Inv(s', start)
  {
  }

  lemma InsertKeeps(s: System, s': System, t: int, start: Table)
    requires Inv(s, start) && Insert(s, s', t)
    ensures Inv(s', start)
  {
    assert HoldsLock(s.txns[t].phase) <==> s.lock == Some(t);
    MoveKeeps(s, t, s'.txns[t].phase, s'.lock, start);
  }

  /** Every step keeps the invariant. */
  lemma StepKeeps(s: System, s': System, t: int, start: Table)
    requires Inv(s, start) && StepOf(s, s', t)
    ensures Inv(s', start)
  {
    if op :| Begin(s, s', t, op) {
      BeginKeeps(s, s', t, op, start);
    } else if Commit(s, s', t) {
      CommitKeeps(s, s', t, start);
    } else if Check(s, s', t) {
      CheckKeeps(s, s', t, start);
    } else if Read(s, s', t) {
      ReadKeeps(s, s', t, start);
    } else if Write(s, s', t) {
      WriteKeeps(s, s', t, start);
    } else if Insert(s, s', t) {
      InsertKeeps(s, s', t, start);
    } else {
      assert HoldsLock(s.txns[t].phase) <==> s.lock == Some(t);
      MoveKeeps(s, t, s'.txns[t].phase, s'.lock, start);
    }
  }

  ghost predicate IsBehavior(run: seq<System>) {
    && run != [] && IsInitial(run[0])
    && forall i :: 0 <= i < |run| - 1 ==> StepAt(run, i)
  }

  ghost predicate StepAt(run: seq<System>, i: nat)
    requires i < |run| - 1
  {
    Step(run[i], run[i + 1])
  }

  lemma Earlier(run: seq<System>, n: nat)
    requires IsBehavior(run) && 0 < n <= |run|
    ensures IsBehavior(run[..n])
  {
    forall i | 0 <= i < n - 1 ensures StepAt(run[..n], i) {
      assert StepAt(run, i);
    }
  }

  lemma {:induction false} BehaviorKeeps(run: seq<System>)
    requires IsBehavior(run)
    ensures Inv(run[|run| - 1], run[0].committed)
  {
    var n := |run| - 1;
    if n > 0 {
      Earlier(run, n);
      BehaviorKeeps(run[..n]);
      assert StepAt(run, n - 1);
      var t :| StepOf(run[n - 1], run[n], t);
      StepKeeps(run[n - 1], run[n], t, run[0].committed);
    }
  }

  /** In every committed state of every interleaving there is an active admin,
      and the table is what the committed operations give one after the other. */
  lemma AlwaysAnActiveAdmin(run: seq<System>, i: nat)
    requires IsBehavior(run) && i < |run|
    ensures ActiveAdmins(run[i].committed.users) != {}
    ensures run[i].committed == Replay(run[0].committed, run[i].log)
  {
    Earlier(run, i + 1);
    BehaviorKeeps(run[..i + 1]);
  }

  /** A transaction ends in the lockout error only if completing it at that
      moment would leave no active admin. */
  lemma LockoutOnlyWhenNeeded(run: seq<System>, i: nat, t: int)
    requires IsBehavior(run) && i + 1 < |run|
    requires t in run[i].txns && run[i].txns[t].phase != Ended(LastAdmin)
    requires t in run[i + 1].txns && run[i + 1].txns[t].phase == Ended(LastAdmin)
    ensures ActiveAdmins(Perform(run[i].committed, run[i].txns[t].op).users) == {}
    ensures run[i + 1].committed == run[i].committed
  {
    var s, s' := run[i], run[i + 1];
    Earlier(run, i + 1);
    BehaviorKeeps(run[..i + 1]);
    assert StepAt(run, i);
    var u :| StepOf(s, s', u);
    OnlyCheckLocksOut(s, s', u, t);
    CheckedInTime(s, s', t, run[0].committed);
  }

  lemma CheckedInTime(s: System, s': System, t: int, start: Table)
    requires Inv(s, start) && t in s.txns && Check(s, s', t) && s'.txns[t].phase == Ended(LastAdmin)
    ensures ActiveAdmins(Perform(s.committed, s.txns[t].op).users) == {}
  {
    assert IsSound(s, s.txns[t]);
    LastAdminExactlyWhen(s.committed, s.txns[t].op);
  }

  lemma OnlyCheckLocksOut(s: System, s': System, u: int, t: int)
    requires StepOf(s, s', u)
    requires t in s.txns && s.txns[t].phase != Ended(LastAdmin)
    requires t in s'.txns && s'.txns[t].phase == Ended(LastAdmin)
    ensures u == t && Check(s, s', t) && s'.committed == s.committed
  {
  }

  // ----- verdicts -----

  predicate IsOver(phase: Phase) {
    phase.Ended? || phase.RolledBack?
  }

  lemma StepLeavesFinished(s: System, s': System, u: int, t: int)
    requires StepOf(s, s', u) && t in s.txns && IsOver(s.txns[t].phase)
    ensures t in s'.txns && s'.txns[t] == s.txns[t]
  {
  }

  /** A transaction that is over takes no further step. */
  lemma {:induction false} FinishedStays(run: seq<System>, i: nat, j: nat, t: int)
    requires IsBehavior(run) && i <= j < |run| && t in run[i].txns && IsOver(run[i].txns[t].phase)
    ensures t in run[j].txns && run[j].txns[t] == run[i].txns[t]
  {
    if i < j {
      FinishedStays(run, i, j - 1, t);
      assert StepAt(run, j - 1);
      var u :| StepOf(run[j - 1], run[j], u);
      StepLeavesFinished(run[j - 1], run[j], u, t);
    }
  }

  lemma StepDecides(s: System, s': System, u: int, t: int, start: Table)
    requires Inv(s, start) && StepOf(s, s', u)
    requires t in s.txns && t in s'.txns && s'.txns[t].phase != s.txns[t].phase && s'.txns[t].phase.Ended?
    ensures s'.txns[t].op == s.txns[t].op && s'.txns[t].phase.verdict == Decide(s.committed, s.txns[t].op)
    ensures s'.committed == Execute(s.committed, s.txns[t].op)
  {
    assert u == t;
    assert IsSound(s, s.txns[t]);
  }

  /** A transaction ends with the verdict its operation gets when executed alone
      at that moment, and with the same effect on the table. */
  lemma VerdictsAreSerial(run: seq<System>, i: nat, t: int)
    requires IsBehavior(run) && i + 1 < |run| && t in run[i].txns && t in run[i + 1].txns
    requires run[i + 1].txns[t].phase.Ended? && run[i + 1].txns[t].phase != run[i].txns[t].phase
    ensures run[i + 1].txns[t].phase.verdict == Decide(run[i].committed, run[i].txns[t].op)
    ensures run[i + 1].committed == Execute(run[i].committed, run[i].txns[t].op)
  {
    Earlier(run, i + 1);
    BehaviorKeeps(run[..i + 1]);
    assert StepAt(run, i);
    var u :| StepOf(run[i], run[i + 1], u);
    StepDecides(run[i], run[i + 1], u, t, run[0].committed);
  }
}
