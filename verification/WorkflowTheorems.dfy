/** What holds of the finding tables after every sequence of service calls. */
module WorkflowTheorems {
  import opened Ordering
  import opened Findings
  import opened IsoDates
  import opened Workflow

  // ----- runs of the system -----

  /** One service call. A scan is created, and later finishes or fails once. */
  datatype Request =
    | Act(gid: int, action: Action)
    | ActOnMany(gids: seq<int>, action: Action)
    | Revoke(gid: int, actor: Option<int>, note: string)
    | ExpireAt(today: CalendarDate)
    | StartScan(account: int)
    | FinishScan(run: int, analysis: Analysis)
    | AbortScan(run: int, detected: seq<Facts>)

  predicate IsPending(db: Db, run: int) {
    run in db.runs && db.runs[run].stage == Pending
  }

  function Serve(db: Db, req: Request): Db {
    match req
    case Act(gid, action) => ApplyTo(db, gid, action).db
    case ActOnMany(gids, action) => Bulk(db, gids, action).db
    case Revoke(gid, actor, note) => if gid in db.groups then RevokeException(db, gid, actor, note).db else db
    case ExpireAt(today) => Expire(db, today).db
    case StartScan(account) => CreateRun(db, account)
    case FinishScan(run, analysis) => if IsPending(db, run) then CompleteScan(db, run, analysis) else db
    case AbortScan(run, detected) => if IsPending(db, run) then FailScan(db, run, detected) else db
  }

  function Play(db: Db, reqs: seq<Request>): Db {
    if reqs == [] then db else Serve(Play(db, reqs[..|reqs| - 1]), reqs[|reqs| - 1])
  }

  function EmptyDb(): Db {
    Db(map[], map[], 1, [], [], [], map[], 1)
  }

  // ----- the audit trail -----

  function Trail(history: seq<HistoryRow>, gid: int): seq<HistoryRow> {
    if history == [] then []
    else
      var n := |history| - 1;
      Trail(history[..n], gid) + if history[n].group == gid then [history[n]] else []
  }

  /** The trail starts with (None to open), each row starts where the previous
      one ended, each later hop is allowed, and it ends in `status`. */
  ghost predicate IsChain(trail: seq<HistoryRow>, status: Status) {
    && trail != []
    && trail[0].from == None && trail[0].to == Open
    && (forall i :: 1 <= i < |trail| ==> trail[i].from == Some(trail[i - 1].to) && trail[i].to in Allowed(trail[i - 1].to))
    && trail[|trail| - 1].to == status
  }

  lemma TrailAppend(history: seq<HistoryRow>, row: HistoryRow, gid: int)
    ensures Trail(history + [row], gid) == Trail(history, gid) + if row.group == gid then [row] else []
  {
  }

  lemma {:induction false} TrailOfStranger(history: seq<HistoryRow>, gid: int)
    requires forall i :: 0 <= i < |history| ==> history[i].group != gid
    ensures Trail(history, gid) == []
  {
    if history != [] {
      TrailOfStranger(history[..|history| - 1], gid);
    }
  }

  // ----- the invariants -----

  /** The unique index and the groups are each other's inverse. */
  ghost predicate IsIndexed(db: Db) {
    && (forall k :: k in db.index ==>
          && db.index[k] in db.groups
          && db.groups[db.index[k]].account == k.0 && db.groups[db.index[k]].fingerprint == k.1)
    && (forall gid :: gid in db.groups ==>
          && gid < db.nextGroup
          && (db.groups[gid].account, db.groups[gid].fingerprint) in db.index
          && db.index[(db.groups[gid].account, db.groups[gid].fingerprint)] == gid)
  }

  predicate SameKey(a: Group, b: Group) {
    a.account == b.account && a.fingerprint == b.fingerprint
  }

  /** A finding hangs on the group of its own fingerprint and account. */
  ghost predicate RowIsGrouped(db: Db, row: FindingRow) {
    && row.group in db.groups && row.run in db.runs
    && db.groups[row.group].fingerprint == Fingerprint(row.facts)
    && db.groups[row.group].account == db.runs[row.run].account
  }

  /** The snapshot a group was last seen in shows the status of the group. */
  ghost predicate RowIsCurrent(db: Db, row: FindingRow) {
    row.group in db.groups && db.groups[row.group].lastSeen == Some(row.run) ==> row.status == db.groups[row.group].status
  }

  ghost predicate AreGrouped(db: Db) {
    forall i :: 0 <= i < |db.findings| ==> RowIsGrouped(db, db.findings[i])
  }

  ghost predicate AreCurrent(db: Db) {
    forall i :: 0 <= i < |db.findings| ==> RowIsCurrent(db, db.findings[i])
  }

  ghost predicate IsAudited(groups: map<int, Group>, history: seq<HistoryRow>) {
    && (forall i :: 0 <= i < |history| ==> history[i].group in groups)
    && (forall gid :: gid in groups ==> IsChain(Trail(history, gid), groups[gid].status))
  }

  /** A run that has not reached its persist phase has left no trace. */
  ghost predicate IsUntouched(db: Db, run: int) {
    && (forall i :: 0 <= i < |db.findings| ==> db.findings[i].run != run)
    && (forall gid :: gid in db.groups ==> db.groups[gid].lastSeen != Some(run))
  }

  ghost predicate ScansAreAtomic(db: Db, busy: set<int>) {
    && (forall run :: run in db.runs ==> run < db.nextRun)
    && (forall gid :: gid in db.groups && db.groups[gid].lastSeen.Some? ==> db.groups[gid].lastSeen.value in db.runs)
    && (forall run :: IsPending(db, run) && run !in busy ==> IsUntouched(db, run))
  }

  ghost predicate Inv(db: Db, busy: set<int>) {
    && IsIndexed(db)
    && AreGrouped(db)
    && AreCurrent(db)
    && IsAudited(db.groups, db.history)
    && ScansAreAtomic(db, busy)
  }

  /** The main invariant: it holds after every sequence of service calls. */
  ghost predicate IsConsistent(db: Db) {
    Inv(db, {})
  }

  // ----- preserved by status changes -----

  lemma ChainHop(trail: seq<HistoryRow>, status: Status, row: HistoryRow)
    requires IsChain(trail, status) && row.from == Some(status) && row.to in Allowed(status)
    ensures IsChain(trail + [row], row.to)
  {
  }

  /** Recording an allowed hop of one group keeps every trail a chain. */
  lemma HopAudited(groups: map<int, Group>, history: seq<HistoryRow>, row: HistoryRow, g: Group)
    requires IsAudited(groups, history) && row.group in groups
    requires row.from == Some(groups[row.group].status) && row.to in Allowed(groups[row.group].status)
    requires g.status == row.to
    ensures IsAudited(groups[row.group := g], history + [row])
  {
    var after := groups[row.group := g];
    forall h | h in after ensures IsChain(Trail(history + [row], h), after[h].status) {
      TrailAppend(history, row, h);
      if h == row.group {
        ChainHop(Trail(history, h), groups[h].status, row);
      }
    }
  }

  /** Changing a group without its key keeps the index. */
  lemma ChangedIndexed(db: Db, after: Db, gid: int, g: Group)
    requires IsIndexed(db) && gid in db.groups && SameKey(g, db.groups[gid])
    requires after.groups == db.groups[gid := g] && after.index == db.index && after.nextGroup == db.nextGroup
    ensures IsIndexed(after)
  {
  }

  /** The rows after one group moved and its current snapshots with it. */
  lemma StampedRowsKeep(db: Db, after: Db, gid: int, g: Group)
    requires AreGrouped(db) && AreCurrent(db) && gid in db.groups
    requires SameKey(g, db.groups[gid]) && g.lastSeen == db.groups[gid].lastSeen
    requires after.groups == db.groups[gid := g] && after.runs == db.runs
    requires after.findings == Stamp(db.findings, gid, g.lastSeen, g.status)
    ensures AreGrouped(after) && AreCurrent(after)
  {
    forall i | 0 <= i < |after.findings| ensures RowIsGrouped(after, after.findings[i]) && RowIsCurrent(after, after.findings[i]) {
      assert RowIsGrouped(db, db.findings[i]) && RowIsCurrent(db, db.findings[i]);
    }
  }

  lemma StampedScansKeep(db: Db, after: Db, gid: int, g: Group, busy: set<int>)
    requires ScansAreAtomic(db, busy) && gid in db.groups && g.lastSeen == db.groups[gid].lastSeen
    requires after.groups == db.groups[gid := g] && after.runs == db.runs && after.nextRun == db.nextRun
    requires after.findings == Stamp(db.findings, gid, g.lastSeen, g.status)
    ensures ScansAreAtomic(after, busy)
  {
    forall run | IsPending(after, run) && run !in busy ensures IsUntouched(after, run) {
      assert IsPending(db, run) && IsUntouched(db, run);
    }
  }

  lemma SetStatusKeeps(db: Db, gid: int, to: Status, actor: Option<int>, note: Option<string>, busy: set<int>)
    requires Inv(db, busy) && gid in db.groups && to in Allowed(db.groups[gid].status)
    ensures Inv(SetStatus(db, gid, to, actor, note), busy)
  {
    var after := SetStatus(db, gid, to, actor, note);
    var g := db.groups[gid].(status := to);
    HopAudited(db.groups, db.history, HistoryRow(gid, Some(db.groups[gid].status), to, actor, CleanNote(note)), g);
    ChangedIndexed(db, after, gid, g);
    StampedRowsKeep(db, after, gid, g);
    StampedScansKeep(db, after, gid, g, busy);
  }

  /** The exception table takes no part in the invariant. */
  lemma ExceptionsAreFree(db: Db, exceptions: seq<ExceptionRow>, busy: set<int>)
    requires Inv(db, busy)
    ensures Inv(db.(exceptions := exceptions), busy)
  {
  }

  lemma TransitionKeeps(db: Db, gid: int, to: Status, actor: Option<int>, note: Option<string>)
    requires IsConsistent(db) && gid in db.groups
    ensures IsConsistent(Transition(db, gid, to, actor, note).db)
  {
    if to in Allowed(db.groups[gid].status) {
      SetStatusKeeps(db, gid, to, actor, note, {});
    }
  }

  lemma CreateExceptionKeeps(db: Db, gid: int, form: ExceptionForm)
    requires IsConsistent(db) && gid in db.groups
    ensures IsConsistent(CreateException(db, gid, form).db)
  {
    CreateExceptionExactly(db, gid, form);
    if CreateException(db, gid, form).outcome.Done? {
      var note := Some(Text.Strip(form.reason));
      var moved := SetStatus(db, gid, form.kind, Some(form.actor), note);
      SetStatusKeeps(db, gid, form.kind, Some(form.actor), note, {});
      ExceptionsAreFree(moved, db.exceptions + [NewException(gid, form)], {});
    }
  }

  lemma ApplyToKeeps(db: Db, gid: int, action: Action)
    requires IsConsistent(db)
    ensures IsConsistent(ApplyTo(db, gid, action).db)
  {
    if gid in db.groups {
      match action
      case MoveTo(to, actor, note) => TransitionKeeps(db, gid, to, actor, note);
      case Except(form) => CreateExceptionKeeps(db, gid, form);
    }
  }

  lemma {:induction false} BulkKeeps(db: Db, gids: seq<int>, action: Action)
    requires IsConsistent(db)
    ensures IsConsistent(Bulk(db, gids, action).db)
  {
    if gids != [] {
      BulkKeeps(db, gids[..|gids| - 1], action);
      ApplyToKeeps(Bulk(db, gids[..|gids| - 1], action).db, gids[|gids| - 1], action);
    }
  }

  lemma RevokeKeeps(db: Db, gid: int, actor: Option<int>, note: string)
    requires IsConsistent(db) && gid in db.groups
    ensures IsConsistent(RevokeException(db, gid, actor, note).db)
  {
    ExceptionsAreFree(db, CloseActive(db, gid).exceptions, {});
    TransitionKeeps(CloseActive(db, gid), gid, Open, actor, Some(note));
  }

  lemma {:induction false} ExpireRowsKeep(db: Db, due: seq<nat>)
    requires IsConsistent(db) && forall i :: i in due ==> i < |db.exceptions|
    ensures IsConsistent(ExpireRows(db, due).db)
  {
    if due != [] {
      var last := |due| - 1;
      assert forall i :: i in due[..last] ==> i in due;
      assert due[last] in due;
      ExpireRowsKeep(db, due[..last]);
      var s := ExpireRows(db, due[..last]).db;
      var closed := s.(exceptions := CloseRow(s.exceptions, due[last]));
      ExceptionsAreFree(s, closed.exceptions, {});
      var gid := s.exceptions[due[last]].group;
      if gid in closed.groups && IsException(closed.groups[gid].status) {
        SetStatusKeeps(closed, gid, Open, None, Some(EXPIRED_NOTE), {});
      }
    }
  }

  // ----- preserved by scans -----

  /** The findings of the running scan hang on groups it has seen, and the
      groups it has seen are not resolved: seeing them reopened them. */
  ghost predicate ScanIsUnderWay(db: Db, run: int) {
    && (forall i :: 0 <= i < |db.findings| && db.findings[i].run == run ==>
          db.findings[i].group in db.groups && db.groups[db.findings[i].group].lastSeen == Some(run))
    && (forall gid :: gid in db.groups && db.groups[gid].lastSeen == Some(run) ==> db.groups[gid].status != Resolved)
  }

  lemma FirstRowAudited(groups: map<int, Group>, history: seq<HistoryRow>, row: HistoryRow, g: Group)
    requires IsAudited(groups, history) && row.group !in groups
    requires row.from == None && row.to == Open && g.status == Open
    ensures IsAudited(groups[row.group := g], history + [row])
  {
    var after := groups[row.group := g];
    forall h | h in after ensures IsChain(Trail(history + [row], h), after[h].status) {
      TrailAppend(history, row, h);
      if h == row.group {
        TrailOfStranger(history, h);
      }
    }
  }

  lemma SameStatusAudited(groups: map<int, Group>, history: seq<HistoryRow>, gid: int, g: Group)
    requires IsAudited(groups, history) && gid in groups && g.status == groups[gid].status
    ensures IsAudited(groups[gid := g], history)
  {
  }

  /** What seeing a fingerprint does to the groups. */
  ghost predicate Sees(before: map<int, Group>, after: map<int, Group>, gid: int, account: int, run: int, fp: string) {
    && after.Keys == before.Keys + {gid}
    && (forall g :: g in before && g != gid ==> after[g] == before[g])
    && after[gid].account == account && after[gid].fingerprint == fp
    && after[gid].lastSeen == Some(run)
    && after[gid].status == (if gid in before && before[gid].status != Resolved then before[gid].status else Open)
    && (gid in before ==> before[gid].account == account && before[gid].fingerprint == fp)
  }

  lemma NewSees(db: Db, after: Db, g: Group, run: int)
    requires IsIndexed(db) && (g.account, g.fingerprint) !in db.index && g.lastSeen == Some(run) && g.status == Open
    requires after.groups == db.groups[db.nextGroup := g]
    requires after.index == db.index[(g.account, g.fingerprint) := db.nextGroup] && after.nextGroup == db.nextGroup + 1
    ensures Sees(db.groups, after.groups, db.nextGroup, g.account, run, g.fingerprint) && IsIndexed(after)
  {
  }

  lemma GetOrCreateSees(db: Db, account: int, run: int, f: Facts)
    requires IsIndexed(db)
    ensures var found := GetOrCreateGroup(db, account, run, f);
      && Sees(db.groups, found.db.groups, found.group, account, run, Fingerprint(f))
      && IsIndexed(found.db)
      && found.db.findings == db.findings && found.db.runs == db.runs && found.db.nextRun == db.nextRun
      && found.db.exceptions == db.exceptions
  {
    var found := GetOrCreateGroup(db, account, run, f);
    if LookUp(db, account, Fingerprint(f)).None? {
      NewSees(db, found.db, found.db.groups[found.group], run);
    } else {
      ChangedIndexed(db, found.db, found.group, found.db.groups[found.group]);
    }
  }

  lemma SeenRowsKeep(db: Db, after: Db, gid: int, account: int, run: int, fp: string)
    requires AreGrouped(db) && AreCurrent(db) && ScanIsUnderWay(db, run)
    requires Sees(db.groups, after.groups, gid, account, run, fp)
    requires after.findings == db.findings && after.runs == db.runs
    ensures AreGrouped(after) && AreCurrent(after) && ScanIsUnderWay(after, run)
  {
  }

  lemma SeenScansKeep(db: Db, after: Db, gid: int, account: int, run: int, fp: string)
    requires ScansAreAtomic(db, {run}) && run in db.runs
    requires Sees(db.groups, after.groups, gid, account, run, fp)
    requires after.findings == db.findings && after.runs == db.runs && after.nextRun == db.nextRun
    ensures ScansAreAtomic(after, {run})
  {
  }

  lemma GetOrCreateAudited(db: Db, account: int, run: int, f: Facts)
    requires IsAudited(db.groups, db.history) && IsIndexed(db)
    ensures var found := GetOrCreateGroup(db, account, run, f); IsAudited(found.db.groups, found.db.history)
  {
    var found := GetOrCreateGroup(db, account, run, f);
    var g := found.db.groups[found.group];
    if LookUp(db, account, Fingerprint(f)).None? {
      FirstRowAudited(db.groups, db.history, found.db.history[|db.history|], g);
    } else if db.groups[found.group].status == Resolved {
      HopAudited(db.groups, db.history, found.db.history[|db.history|], g);
    } else {
      SameStatusAudited(db.groups, db.history, found.group, g);
    }
  }

  lemma AppendRowKeeps(db: Db, row: FindingRow)
    requires Inv(db, {row.run}) && ScanIsUnderWay(db, row.run) && RowIsGrouped(db, row)
    requires row.status == db.groups[row.group].status && db.groups[row.group].lastSeen == Some(row.run)
    ensures Inv(db.(findings := db.findings + [row]), {row.run})
    ensures ScanIsUnderWay(db.(findings := db.findings + [row]), row.run)
  {
    var after := db.(findings := db.findings + [row]);
    forall i | 0 <= i < |after.findings| ensures RowIsGrouped(after, after.findings[i]) && RowIsCurrent(after, after.findings[i]) {
      if i < |db.findings| {
        assert RowIsGrouped(db, db.findings[i]) && RowIsCurrent(db, db.findings[i]);
      }
    }
    forall other | IsPending(after, other) && other !in {row.run} ensures IsUntouched(after, other) {
      assert IsPending(db, other) && IsUntouched(db, other);
    }
  }

  lemma PersistFindingKeeps(db: Db, account: int, run: int, f: Facts)
    requires Inv(db, {run}) && ScanIsUnderWay(db, run)
    requires IsPending(db, run) && db.runs[run].account == account
    ensures Inv(PersistFinding(db, account, run, f), {run})
    ensures ScanIsUnderWay(PersistFinding(db, account, run, f), run)
    ensures PersistFinding(db, account, run, f).runs == db.runs
  {
    var found := GetOrCreateGroup(db, account, run, f);
    var after := found.db;
    GetOrCreateSees(db, account, run, f);
    GetOrCreateAudited(db, account, run, f);
    SeenRowsKeep(db, after, found.group, account, run, Fingerprint(f));
    SeenScansKeep(db, after, found.group, account, run, Fingerprint(f));
    AppendRowKeeps(after, FindingRow(run, found.group, f, after.groups[found.group].status));
  }

  lemma {:induction false} PersistFindingsKeep(db: Db, account: int, run: int, detected: seq<Facts>)
    requires IsConsistent(db) && IsPending(db, run) && db.runs[run].account == account
    ensures Inv(PersistFindings(db, account, run, detected), {run})
    ensures ScanIsUnderWay(PersistFindings(db, account, run, detected), run)
    ensures PersistFindings(db, account, run, detected).runs == db.runs
  {
    if detected == [] {
      assert IsUntouched(db, run);
    } else {
      PersistFindingsKeep(db, account, run, detected[..|detected| - 1]);
      PersistFindingKeeps(PersistFindings(db, account, run, detected[..|detected| - 1]), account, run, detected[|detected| - 1]);
    }
  }

  lemma EndScanKeeps(db: Db, run: int, row: RunRow)
    requires Inv(db, {run}) && run in db.runs && row.account == db.runs[run].account && row.stage != Pending
    ensures IsConsistent(db.(runs := db.runs[run := row]))
  {
    var after := db.(runs := db.runs[run := row]);
    forall i | 0 <= i < |after.findings| ensures RowIsGrouped(after, after.findings[i]) && RowIsCurrent(after, after.findings[i]) {
      assert RowIsGrouped(db, db.findings[i]) && RowIsCurrent(db, db.findings[i]);
    }
    forall other | IsPending(after, other) ensures IsUntouched(after, other) {
      assert IsPending(db, other) && IsUntouched(db, other);
    }
  }

  lemma CreateRunKeeps(db: Db, account: int)
    requires IsConsistent(db)
    ensures IsConsistent(CreateRun(db, account))
  {
    var after := CreateRun(db, account);
    assert db.nextRun !in db.runs;
    forall i | 0 <= i < |after.findings| ensures RowIsGrouped(after, after.findings[i]) && RowIsCurrent(after, after.findings[i]) {
      assert RowIsGrouped(db, db.findings[i]) && RowIsCurrent(db, db.findings[i]);
    }
    forall run | IsPending(after, run) ensures IsUntouched(after, run) {
      if run != db.nextRun {
        assert IsPending(db, run) && IsUntouched(db, run);
      } else {
        assert forall i :: 0 <= i < |db.findings| ==> RowIsGrouped(db, db.findings[i]);
      }
    }
  }

  lemma ExpireKeeps(db: Db, today: CalendarDate)
    requires IsConsistent(db)
    ensures IsConsistent(Expire(db, today).db)
  {
    DueRowsExactly(db.exceptions, Iso(today));
    ExpireRowsKeep(db, DueRows(db.exceptions, Iso(today)));
  }

  lemma CompleteScanKeeps(db: Db, run: int, analysis: Analysis)
    requires IsConsistent(db) && IsPending(db, run)
    ensures IsConsistent(CompleteScan(db, run, analysis))
  {
    PersistFindingsKeep(db, db.runs[run].account, run, analysis.findings);
    var persisted := PersistFindings(db, db.runs[run].account, run, analysis.findings);
    EndScanKeeps(persisted, run, CompleteScan(db, run, analysis).runs[run]);
  }

  lemma FailScanKeeps(db: Db, run: int, detected: seq<Facts>)
    requires IsConsistent(db) && IsPending(db, run)
    ensures IsConsistent(FailScan(db, run, detected))
  {
    PersistFindingsKeep(db, db.runs[run].account, run, detected);
    EndScanKeeps(PersistFindings(db, db.runs[run].account, run, detected), run, db.runs[run].(stage := Failed));
  }

  lemma ServeKeeps(db: Db, req: Request)
    requires IsConsistent(db)
    ensures IsConsistent(Serve(db, req))
  {
    match req
    case Act(gid, action) => ApplyToKeeps(db, gid, action);
    case ActOnMany(gids, action) => BulkKeeps(db, gids, action);
    case Revoke(gid, actor, note) => if gid in db.groups { RevokeKeeps(db, gid, actor, note); }
    case ExpireAt(today) => ExpireKeeps(db, today);
    case StartScan(account) => CreateRunKeeps(db, account);
    case FinishScan(run, analysis) => if IsPending(db, run) { CompleteScanKeeps(db, run, analysis); }
    case AbortScan(run, detected) => if IsPending(db, run) { FailScanKeeps(db, run, detected); }
  }

  lemma {:induction false} PlayKeeps(db: Db, reqs: seq<Request>)
    requires IsConsistent(db)
    ensures IsConsistent(Play(db, reqs))
  {
    if reqs != [] {
      PlayKeeps(db, reqs[..|reqs| - 1]);
      ServeKeeps(Play(db, reqs[..|reqs| - 1]), reqs[|reqs| - 1]);
    }
  }

  /** Over every sequence of service calls on an empty database: the history of
      every group is a chain of allowed hops from (None to open) to its status,
      every finding of the run a group was last seen in carries that status,
      and every finding belongs to the group of its own fingerprint, of which
      an account has one. */
  lemma EveryRunIsConsistent(reqs: seq<Request>)
    ensures var db := Play(EmptyDb(), reqs);
      && (forall gid :: gid in db.groups ==> IsChain(Trail(db.history, gid), db.groups[gid].status))
      && (forall i :: 0 <= i < |db.findings| ==> RowIsGrouped(db, db.findings[i]) && RowIsCurrent(db, db.findings[i]))
      && (forall g, h :: g in db.groups && h in db.groups && SameKey(db.groups[g], db.groups[h]) ==> g == h)
  {
    assert IsConsistent(EmptyDb());
    PlayKeeps(EmptyDb(), reqs);
  }

  /** The statuses in use are the five of the table. */
  lemma OnlyKnownStatuses(db: Db, gid: int)
    requires IsAudited(db.groups, db.history) && gid in db.groups
    ensures !db.groups[gid].status.OtherStatus?
  {
    var trail := Trail(db.history, gid);
    assert IsChain(trail, db.groups[gid].status);
    if |trail| > 1 {
      assert trail[|trail| - 1].to in Allowed(trail[|trail| - 2].to);
    }
  }
}
