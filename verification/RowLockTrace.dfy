/** How a transaction comes to count while it holds no row: its snapshot is out
    of date. From there the last admin can be lost. */
module RowLockTrace {
  import opened Ordering
  import opened Text
  import opened UserAdmin
  import opened RowLocks
  import opened RowLockLoss

  ghost predicate IsReachable(start: System, s: System) {
    exists schedule :: Run(start, schedule) == s
  }

  lemma Extend(start: System, s: System, t: int, m: Move)
    requires IsReachable(start, s) && IsEnabled(s, t, m)
    ensures IsReachable(start, Next(s, t, m))
  {
    var schedule :| Run(start, schedule) == s;
    assert (schedule + [(t, m)])[..|schedule|] == schedule;
    assert Run(start, schedule + [(t, m)]) == Next(s, t, m);
  }

  function Demote(id: int): Operation {
    UpdateRole(id, "analyst")
  }

  /** The operation is accepted and adds the active admin `user`. */
  predicate MakesAdmin(t: Table, op: Operation, user: User) {
    && op.CreateUser? && ComplaintAbout(t, op) == None
    && Perform(t, op) == Table(t.users[t.nextId := user], t.nextId + 1)
    && IsActiveAdmin(user)
  }

  // ----- the steps of one demotion, from any state -----

  lemma BeginDemotion(start: System, s: System, t: int, id: int)
    requires IsReachable(start, s) && t !in s.txns
    ensures IsReachable(start, s.(txns := s.txns[t := Txn(Demote(id), Locking(ActiveAdmins(s.table.users)))]))
  {
    Extend(start, s, t, Snapshot(Demote(id)));
  }

  lemma TakeRow(start: System, s: System, t: int, op: Operation, row: int, wanted: set<int>)
    requires IsReachable(start, s) && t in s.txns && s.txns[t] == Txn(op, Locking(wanted))
    requires row in wanted && row !in s.locks
    ensures row in ActiveAdmins(s.table.users) ==>
      IsReachable(start, s.(locks := s.locks[row := t], txns := s.txns[t := Txn(op, Locking(wanted - {row}))]))
    ensures row !in ActiveAdmins(s.table.users) ==>
      IsReachable(start, s.(txns := s.txns[t := Txn(op, Locking(wanted - {row}))]))
  {
    Extend(start, s, t, LockRow(row));
  }

  lemma ReadAndCheck(start: System, s: System, t: int, id: int)
    requires IsReachable(start, s) && t in s.txns && s.txns[t] == Txn(Demote(id), Locking({}))
    requires id in s.table.users && ActiveAdmins(s.table.users) - {id} != {}
    ensures IsReachable(start, s.(txns := s.txns[t := Txn(Demote(id), Checked)]))
  {
    Extend(start, s, t, Read);
    var read := Next(s, t, Read);
    assert |ActiveAdmins(s.table.users) - {id}| != 0;
    Extend(start, read, t, Check);
    assert read.txns[t := Txn(Demote(id), Checked)] == s.txns[t := Txn(Demote(id), Checked)];
  }

  lemma WriteAndCommit(start: System, s: System, t: int, id: int)
    requires IsReachable(start, s) && t in s.txns && s.txns[t] == Txn(Demote(id), Checked)
    requires id in s.table.users
    requires forall row :: row in s.locks ==> s.locks[row] == t
    ensures IsReachable(start, System(Perform(s.table, Demote(id)), map[], s.txns[t := Txn(Demote(id), Ended(Accepted))]))
  {
    Extend(start, s, t, Write);
    var written := Next(s, t, Write);
    Extend(start, written, t, Commit);
    assert forall row :: row !in Release(written.locks, t);
    assert Release(written.locks, t) == map[];
    assert written.txns[t := Txn(Demote(id), Ended(Accepted))] == s.txns[t := Txn(Demote(id), Ended(Accepted))];
  }

  lemma CreateAdmin(start: System, s: System, op: Operation, user: User)
    requires IsReachable(start, s) && MakesAdmin(s.table, op, user)
    ensures IsReachable(start, s.(table := Table(s.table.users[s.table.nextId := user], s.table.nextId + 1)))
  {
    Extend(start, s, 0, Insert(op));
  }

  // ----- the schedule -----

  function Demoted(user: User): User {
    user.(role := "analyst")
  }

  /** Three active admins; the second and third are created on the way. */
  datatype Cast = Cast(a: User, b: User, c: User)

  function OnlyA(k: Cast): Table {
    Table(map[1 := k.a], 2)
  }

  function WithB(k: Cast): Table {
    Table(map[1 := k.a, 2 := k.b], 3)
  }

  function WithoutA(k: Cast): Table {
    Table(map[1 := Demoted(k.a), 2 := k.b], 3)
  }

  function WithC(k: Cast): Table {
    Table(map[1 := Demoted(k.a), 2 := k.b, 3 := k.c], 4)
  }

  predicate IsCast(k: Cast) {
    IsActiveAdmin(k.a) && IsActiveAdmin(k.b) && IsActiveAdmin(k.c)
  }

  function Start(k: Cast): System {
    System(OnlyA(k), map[], map[])
  }

  /** Demoting user 1 (transaction 10) and user 3 (transaction 30) begin while
      user 1 is the only admin. */
  function AfterBegin(k: Cast, t: Table): System {
    System(t, map[1 := 10], map[10 := Txn(Demote(1), Locking({})), 30 := Txn(Demote(3), Locking({1}))])
  }

  lemma FirstBegins(k: Cast)
    requires IsCast(k)
    ensures IsReachable(Start(k), AfterBegin(k, OnlyA(k)))
  {
    var s := Start(k);
    assert Run(s, []) == s;
    assert ActiveAdmins(s.table.users) == {1};
    BeginDemotion(Start(k), s, 10, 1);
    s := s.(txns := map[10 := Txn(Demote(1), Locking({1}))]);
    BeginDemotion(Start(k), s, 30, 3);
    s := s.(txns := map[10 := Txn(Demote(1), Locking({1})), 30 := Txn(Demote(3), Locking({1}))]);
    TakeRow(Start(k), s, 10, Demote(1), 1, {1});
    assert {1} - {1} == {};
    assert s.txns[10 := Txn(Demote(1), Locking({}))] == AfterBegin(k, OnlyA(k)).txns;
  }

  /** User 2 has been created; the first demotion commits, and the second drops
      the only row it waited for. */
  function AfterFirst(k: Cast, t: Table): System {
    System(t, map[], map[10 := Txn(Demote(1), Ended(Accepted)), 30 := Txn(Demote(3), Locking({}))])
  }

  lemma FirstDemotion(k: Cast)
    requires IsCast(k) && IsReachable(Start(k), AfterBegin(k, WithB(k)))
    ensures IsReachable(Start(k), AfterFirst(k, WithoutA(k)))
  {
    var s := AfterBegin(k, WithB(k));
    assert 2 in ActiveAdmins(s.table.users) - {1};
    ReadAndCheck(Start(k), s, 10, 1);
    WriteAndCommit(Start(k), s.(txns := s.txns[10 := Txn(Demote(1), Checked)]), 10, 1);
    var txns := map[10 := Txn(Demote(1), Ended(Accepted)), 30 := Txn(Demote(3), Locking({1}))];
    assert s.txns[10 := Txn(Demote(1), Checked)][10 := Txn(Demote(1), Ended(Accepted))] == txns;
    assert Perform(s.table, Demote(1)) == WithoutA(k);
    var committed := System(WithoutA(k), map[], txns);
    assert 1 !in ActiveAdmins(committed.table.users) && {1} - {1} == {};
    TakeRow(Start(k), committed, 30, Demote(3), 1, {1});
    assert txns[30 := Txn(Demote(3), Locking({}))] == AfterFirst(k, WithoutA(k)).txns;
  }

  /** User 3 has been created as an admin, and the count finds user 2. */
  function AfterStaleCheck(k: Cast): System {
    System(WithC(k), map[], map[10 := Txn(Demote(1), Ended(Accepted)), 30 := Txn(Demote(3), Checked)])
  }

  lemma StaleCheck(k: Cast)
    requires IsCast(k) && IsReachable(Start(k), AfterFirst(k, WithC(k)))
    ensures IsReachable(Start(k), AfterStaleCheck(k))
  {
    var s := AfterFirst(k, WithC(k));
    assert 2 in ActiveAdmins(s.table.users) - {3};
    ReadAndCheck(Start(k), s, 30, 3);
    assert s.txns[30 := Txn(Demote(3), Checked)] == AfterStaleCheck(k).txns;
  }

  lemma Inserted(start: System, s: System, after: Table, op: Operation, user: User)
    requires IsReachable(start, s) && MakesAdmin(s.table, op, user)
    requires after == Table(s.table.users[s.table.nextId := user], s.table.nextId + 1)
    ensures IsReachable(start, s.(table := after))
  {
    CreateAdmin(start, s, op, user);
  }

  /** From one active admin, a schedule reaches a state with none: the second
      demotion holds no row when it counts. */
  lemma StaleCountLosesTheLastAdmin(k: Cast, makeB: Operation, makeC: Operation)
    requires IsActiveAdmin(k.a)
    requires MakesAdmin(OnlyA(k), makeB, k.b) && MakesAdmin(WithoutA(k), makeC, k.c)
    ensures ActiveAdmins(Start(k).table.users) == {1} && IsNumbered(Start(k).table)
    ensures exists schedule :: ActiveAdmins(Run(Start(k), schedule).table.users) == {}
  {
    FirstBegins(k);
    Inserted(Start(k), AfterBegin(k, OnlyA(k)), WithB(k), makeB, k.b);
    FirstDemotion(k);
    Inserted(Start(k), AfterFirst(k, WithoutA(k)), WithC(k), makeC, k.c);
    StaleCheck(k);
    var counted := AfterStaleCheck(k);
    UnheldCountLosesAdmins(counted, 30);
    var before :| Run(Start(k), before) == counted;
    var after :| ActiveAdmins(Run(counted, after).table.users) == {};
    RunConcat(Start(k), before, after);
  }

  lemma Cleaned(s: string)
    requires |s| == 1 && 'a' <= s[0] <= 'z'
    ensures |Strip(s)| == 1
    ensures |CleanEmail(s)| == 1 && CleanEmail(s)[0] == s[0]
  {
  }

  lemma MakesUser(t: Table, s: string, role: string, password: string)
    requires Strip(s) != "" && CleanEmail(s) != "" && role in ROLES && role == "admin" && |password| >= 8
    requires forall id :: id in t.users ==> t.users[id].email != CleanEmail(s)
    ensures MakesAdmin(t, CreateUser(s, s, role, password), User(CleanEmail(s), Strip(s), role, true))
  {
  }

  /** Such users and operations exist. */
  lemma CastExists() returns (k: Cast, makeB: Operation, makeC: Operation)
    ensures IsActiveAdmin(k.a)
    ensures MakesAdmin(OnlyA(k), makeB, k.b) && MakesAdmin(WithoutA(k), makeC, k.c)
  {
    var b, c := "b", "c";
    Cleaned(b);
    Cleaned(c);
    makeB, makeC := CreateUser(b, b, "admin", "password"), CreateUser(c, c, "admin", "password");
    k := Cast(User("", "", "admin", true),
              User(CleanEmail(b), Strip(b), "admin", true), User(CleanEmail(c), Strip(c), "admin", true));
    assert CleanEmail(b)[0] != CleanEmail(c)[0];
    MakesUser(OnlyA(k), b, "admin", "password");
    MakesUser(WithoutA(k), c, "admin", "password");
  }
}
