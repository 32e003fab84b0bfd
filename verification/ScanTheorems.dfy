/** What a completed scan leaves behind for good: its findings, the counts in
    its summary, and its posture score. */
module ScanTheorems {
  import opened Ordering
  import opened Findings
  import opened IsoDates
  import opened Posture
  import opened Workflow
  import opened WorkflowTheorems
  import opened RunDiff
  import opened DiffTheorems
  import opened Dashboard

  // ----- the findings of a finished run are never touched again -----

  /** Later rows belong to other runs; earlier ones differ in status at most. */
  ghost predicate KeepsRows(before: seq<FindingRow>, after: seq<FindingRow>, run: int) {
    && |before| <= |after|
    && (forall i :: 0 <= i < |before| ==>
          && after[i].run == before[i].run && after[i].group == before[i].group && after[i].facts == before[i].facts)
    && (forall i :: |before| <= i < |after| ==> after[i].run != run)
  }

  ghost predicate KeepsRun(db: Db, after: Db, run: int) {
    && KeepsRows(db.findings, after.findings, run)
    && (run in db.runs ==> run in after.runs && after.runs[run] == db.runs[run])
  }

  lemma KeepsRunTransitive(a: Db, b: Db, c: Db, run: int)
    requires KeepsRun(a, b, run) && KeepsRun(b, c, run)
    ensures KeepsRun(a, c, run)
  {
  }

  lemma ApplyKeepsRun(db: Db, gid: int, action: Action, run: int)
    ensures KeepsRun(db, ApplyTo(db, gid, action).db, run)
  {
    if gid in db.groups && action.Except? {
      CreateExceptionExactly(db, gid, action.form);
    }
  }

  lemma {:induction false} BulkKeepsRun(db: Db, gids: seq<int>, action: Action, run: int)
    ensures KeepsRun(db, Bulk(db, gids, action).db, run)
  {
    if gids != [] {
      var before := Bulk(db, gids[..|gids| - 1], action).db;
      BulkKeepsRun(db, gids[..|gids| - 1], action, run);
      ApplyKeepsRun(before, gids[|gids| - 1], action, run);
      KeepsRunTransitive(db, before, Bulk(db, gids, action).db, run);
    }
  }

  lemma {:induction false} ExpireKeepsRun(db: Db, due: seq<nat>, run: int)
    requires forall i :: i in due ==> i < |db.exceptions|
    ensures KeepsRun(db, ExpireRows(db, due).db, run)
  {
    if due != [] {
      var n := |due| - 1;
      assert due[n] in due && forall i :: i in due[..n] ==> i in due;
      ExpireKeepsRun(db, due[..n], run);
      KeepsRunTransitive(db, ExpireRows(db, due[..n]).db, ExpireRows(db, due).db, run);
    }
  }

  lemma {:induction false} PersistKeepsRuns(db: Db, account: int, run: int, detected: seq<Facts>)
    ensures PersistFindings(db, account, run, detected).runs == db.runs
  {
    if detected != [] {
      PersistKeepsRuns(db, account, run, detected[..|detected| - 1]);
    }
  }

  lemma {:induction false} PersistKeepsRun(db: Db, account: int, other: int, detected: seq<Facts>, run: int)
    requires run != other
    ensures KeepsRun(db, PersistFindings(db, account, other, detected), run)
  {
    if detected != [] {
      var before := PersistFindings(db, account, other, detected[..|detected| - 1]);
      PersistKeepsRun(db, account, other, detected[..|detected| - 1], run);
      KeepsRunTransitive(db, before, PersistFindings(db, account, other, detected), run);
    }
  }

  lemma RevokeKeepsRun(db: Db, gid: int, actor: Option<int>, note: string, run: int)
    requires gid in db.groups
    ensures KeepsRun(db, RevokeException(db, gid, actor, note).db, run)
  {
  }

  lemma ExpireAtKeepsRun(db: Db, today: CalendarDate, run: int)
    ensures KeepsRun(db, Expire(db, today).db, run)
  {
    DueRowsExactly(db.exceptions, Iso(today));
    ExpireKeepsRun(db, DueRows(db.exceptions, Iso(today)), run);
  }

  lemma ServeKeepsRun(db: Db, req: Request, run: int)
    requires run in db.runs && !IsPending(db, run) && run < db.nextRun
    ensures KeepsRun(db, Serve(db, req), run)
  {
    match req
    case Act(gid, action) => ApplyKeepsRun(db, gid, action, run);
    case ActOnMany(gids, action) => BulkKeepsRun(db, gids, action, run);
    case Revoke(gid, actor, note) => if gid in db.groups { RevokeKeepsRun(db, gid, actor, note, run); }
    case ExpireAt(today) => ExpireAtKeepsRun(db, today, run);
    case StartScan(account) =>
    case FinishScan(other, analysis) =>
      if IsPending(db, other) {
        PersistKeepsRun(db, db.runs[other].account, other, analysis.findings, run);
      }
    case AbortScan(other, detected) =>
      if IsPending(db, other) {
        PersistKeepsRun(db, db.runs[other].account, other, detected, run);
      }
  }

  /** Whatever is done later, the findings and the row of a finished run stay
      as they are, statuses apart. */
  lemma {:induction false} PlayKeepsRun(db: Db, reqs: seq<Request>, run: int)
    requires IsConsistent(db) && run in db.runs && !IsPending(db, run)
    ensures KeepsRun(db, Play(db, reqs), run)
  {
    if reqs != [] {
      var before := Play(db, reqs[..|reqs| - 1]);
      PlayKeepsRun(db, reqs[..|reqs| - 1], run);
      PlayKeeps(db, reqs[..|reqs| - 1]);
      KnownRunIsOld(before, run);
      ServeKeepsRun(before, reqs[|reqs| - 1], run);
      KeepsRunTransitive(db, before, Play(db, reqs), run);
    }
  }

  // ----- the counts of the summary -----

  lemma FingerprintsKept(before: seq<FindingRow>, after: seq<FindingRow>, run: int)
    requires KeepsRows(before, after, run)
    ensures RunFingerprints(after, run) == RunFingerprints(before, run)
  {
  }

  /** The fingerprints the diff reads off the groups are those the summary
      computes from the findings. */
  lemma {:induction false} KeysAreFingerprints(groups: map<int, Group>, findings: seq<FindingRow>, run: int)
    requires forall i :: 0 <= i < |findings| ==>
      findings[i].group in groups && groups[findings[i].group].fingerprint == Fingerprint(findings[i].facts)
    ensures ByFingerprint(groups, findings, run).Keys == RunFingerprints(findings, run)
  {
    if findings == [] {
      assert RunFingerprints([], run) == {};
    } else {
      var n := |findings| - 1;
      KeysAreFingerprints(groups, findings[..n], run);
      LastFingerprint(findings, run);
    }
  }

  lemma LastFingerprint(findings: seq<FindingRow>, run: int)
    requires findings != []
    ensures var n := |findings| - 1;
      RunFingerprints(findings, run)
      == RunFingerprints(findings[..n], run) + if findings[n].run == run then {Fingerprint(findings[n].facts)} else {}
  {
  }

  lemma KeysOfRun(db: Db, run: int)
    requires IsConsistent(db)
    ensures RowsOf(db, run).Keys == RunFingerprints(db.findings, run)
  {
    assert forall i :: 0 <= i < |db.findings| ==> RowIsGrouped(db, db.findings[i]);
    KeysAreFingerprints(db.groups, db.findings, run);
  }

  lemma KnownRunIsOld(db: Db, run: int)
    requires IsConsistent(db) && run in db.runs
    ensures run < db.nextRun
  {
  }

  /** What the diff reads of a finished run does not change any more. */
  lemma LaterKeys(db: Db, reqs: seq<Request>, run: int)
    requires IsConsistent(db) && run in db.runs && !IsPending(db, run)
    ensures var later := Play(db, reqs);
      && run in later.runs && later.runs[run] == db.runs[run]
      && RowsOf(later, run).Keys == RunFingerprints(db.findings, run)
  {
    PlayKeepsRun(db, reqs, run);
    PlayKeeps(db, reqs);
    FingerprintsKept(db.findings, Play(db, reqs).findings, run);
    KeysOfRun(Play(db, reqs), run);
  }

  /** The counts as they are stored. */
  lemma CountsAreStored(db: Db, run: int, analysis: Analysis, p: int)
    requires IsPending(db, run) && PreviousRun(db.runs, db.runs[run].account, run) == Some(p)
    ensures var done := CompleteScan(db, run, analysis);
      && run in done.runs && done.runs[run].stage == Completed
      && p in done.runs && p != run && !IsPending(done, p)
      && done.runs[run].newCount == Some(|RunFingerprints(done.findings, run) - RunFingerprints(done.findings, p)|)
      && done.runs[run].resolvedCount == Some(|RunFingerprints(done.findings, p) - RunFingerprints(done.findings, run)|)
  {
    PersistKeepsRuns(db, db.runs[run].account, run, analysis.findings);
  }

  /** The stored counts, however much later, in terms of what the diff reads. */
  lemma StoredCounts(db: Db, run: int, analysis: Analysis, reqs: seq<Request>, p: int)
    requires IsConsistent(db) && IsPending(db, run)
    requires PreviousRun(db.runs, db.runs[run].account, run) == Some(p)
    ensures var later := Play(CompleteScan(db, run, analysis), reqs);
      && run in later.runs
      && later.runs[run].newCount == Some(|RowsOf(later, run).Keys - RowsOf(later, p).Keys|)
      && later.runs[run].resolvedCount == Some(|RowsOf(later, p).Keys - RowsOf(later, run).Keys|)
  {
    var done := CompleteScan(db, run, analysis);
    CompleteScanKeeps(db, run, analysis);
    CountsAreStored(db, run, analysis, p);
    LaterKeys(done, reqs, run);
    LaterKeys(done, reqs, p);
  }

  // ----- the posture score -----

  /** The analysis carries the score `run_analysis` computes for it. */
  ghost predicate IsFromEngine(decay: real -> real, analysis: Analysis) {
    analysis.composite == PostureScore(decay, Factors(analysis.findings, analysis.principals))
  }

  ghost predicate AreFromEngine(decay: real -> real, reqs: seq<Request>) {
    forall i :: 0 <= i < |reqs| && reqs[i].FinishScan? ==> IsFromEngine(decay, reqs[i].analysis)
  }

  /** The stored score of a completed run is the score of its findings. */
  ghost predicate RunIsScored(decay: real -> real, db: Db, run: int) {
    run in db.runs && db.runs[run].stage == Completed ==>
      db.runs[run].composite == PostureScore(decay, Factors(FactsOf(db.findings, run), db.runs[run].principals))
  }

  lemma {:induction false} FactsKept(before: seq<FindingRow>, after: seq<FindingRow>, run: int)
    requires KeepsRows(before, after, run)
    ensures FactsOf(after, run) == FactsOf(before, run)
    decreases |after|
  {
    if after != [] {
      var n := |after| - 1;
      if |before| == |after| {
        FactsKept(before[..n], after[..n], run);
      } else {
        FactsKept(before, after[..n], run);
      }
    }
  }

  lemma {:induction false} NoFacts(findings: seq<FindingRow>, run: int)
    requires forall i :: 0 <= i < |findings| ==> findings[i].run != run
    ensures FactsOf(findings, run) == []
  {
    if findings != [] {
      NoFacts(findings[..|findings| - 1], run);
    }
  }

  lemma PersistAppends(db: Db, account: int, run: int, f: Facts) returns (row: FindingRow)
    ensures PersistFinding(db, account, run, f).findings == db.findings + [row] && row.run == run && row.facts == f
  {
    var found := GetOrCreateGroup(db, account, run, f);
    row := FindingRow(run, found.group, f, found.db.groups[found.group].status);
  }

  lemma FactsAppend(findings: seq<FindingRow>, row: FindingRow)
    ensures FactsOf(findings + [row], row.run) == FactsOf(findings, row.run) + [row.facts]
  {
  }

  /** The persist phase stores the findings of the analysis, in order. */
  lemma {:induction false} PersistStores(db: Db, account: int, run: int, detected: seq<Facts>)
    ensures FactsOf(PersistFindings(db, account, run, detected).findings, run) == FactsOf(db.findings, run) + detected
  {
    if detected != [] {
      var n := |detected| - 1;
      PersistStores(db, account, run, detected[..n]);
      var before := PersistFindings(db, account, run, detected[..n]);
      var row := PersistAppends(before, account, run, detected[n]);
      FactsAppend(before.findings, row);
      assert detected == detected[..n] + [detected[n]];
    }
  }

  lemma FinishStores(db: Db, run: int, analysis: Analysis)
    requires IsConsistent(db) && IsPending(db, run)
    ensures FactsOf(CompleteScan(db, run, analysis).findings, run) == analysis.findings
  {
    assert IsUntouched(db, run);
    NoFacts(db.findings, run);
    PersistStores(db, db.runs[run].account, run, analysis.findings);
    assert [] + analysis.findings == analysis.findings;
  }

  // ----- the counts of the summary against the diff -----

  function Fingerprints(findings: seq<Facts>): set<string> {
    set f | f in findings :: Fingerprint(f)
  }

  lemma {:induction false} FingerprintsOfFacts(findings: seq<FindingRow>, run: int)
    ensures Fingerprints(FactsOf(findings, run)) == RunFingerprints(findings, run)
  {
    if findings == [] {
      assert RunFingerprints([], run) == {};
    } else {
      var n := |findings| - 1;
      FingerprintsOfFacts(findings[..n], run);
      LastFingerprint(findings, run);
      var earlier := FactsOf(findings[..n], run);
      if findings[n].run == run {
        assert forall f :: f in earlier + [findings[n].facts] <==> f in earlier || f == findings[n].facts;
      }
    }
  }

  lemma SameDifferences(a: set<string>, b: set<string>)
    ensures |a - b| == |b - a| <==> |a| == |b|
  {
    assert a == (a - b) + a * b && b == (b - a) + a * b;
  }

  /** What the two runs of the comparison report, before and after. */
  lemma ComparedKeys(db: Db, run: int, analysis: Analysis, reqs: seq<Request>, p: int)
    requires IsConsistent(db) && IsPending(db, run)
    requires PreviousRun(db.runs, db.runs[run].account, run) == Some(p)
    ensures var later := Play(CompleteScan(db, run, analysis), reqs);
      && RowsOf(later, run).Keys == Fingerprints(analysis.findings)
      && RowsOf(later, p).Keys == RunFingerprints(db.findings, p)
  {
    var done := CompleteScan(db, run, analysis);
    CompleteScanKeeps(db, run, analysis);
    CountsAreStored(db, run, analysis, p);
    LaterKeys(done, reqs, run);
    LaterKeys(done, reqs, p);
    PersistKeepsRun(db, db.runs[run].account, run, analysis.findings, p);
    FingerprintsKept(db.findings, done.findings, p);
    FinishStores(db, run, analysis);
    FingerprintsOfFacts(done.findings, run);
  }

  /** However much later it is asked, the diff of a run with the completed run
      that preceded it has as many new and resolved cards as the run's stored
      summary says, exactly when that run has the smaller id or reported as many
      fingerprints as the new scan detects: the diff orders by id, the summary
      by time of completion. */
  lemma SummaryAgreesExactlyWhen(db: Db, run: int, analysis: Analysis, reqs: seq<Request>, p: int, board: Board)
    requires IsConsistent(db) && IsPending(db, run)
    requires PreviousRun(db.runs, db.runs[run].account, run) == Some(p)
    requires var later := Play(CompleteScan(db, run, analysis), reqs);
      IsBoard(RowsOf(later, if p < run then p else run), RowsOf(later, if p < run then run else p), board)
    ensures var later := Play(CompleteScan(db, run, analysis), reqs);
      && run in later.runs
      && (later.runs[run].newCount == Some(|board.added|) && later.runs[run].resolvedCount == Some(|board.resolved|) <==>
            p < run || |Fingerprints(analysis.findings)| == |RunFingerprints(db.findings, p)|)
  {
    StoredCounts(db, run, analysis, reqs, p);
    ComparedKeys(db, run, analysis, reqs, p);
    SameDifferences(Fingerprints(analysis.findings), RunFingerprints(db.findings, p));
    var later := Play(CompleteScan(db, run, analysis), reqs);
    if p < run {
      BoardCounts(RowsOf(later, p), RowsOf(later, run), board);
    } else {
      BoardCounts(RowsOf(later, run), RowsOf(later, p), board);
    }
  }

  // ----- the stored score -----

  lemma FinishIsScored(decay: real -> real, db: Db, run: int, analysis: Analysis)
    requires IsConsistent(db) && IsPending(db, run) && IsFromEngine(decay, analysis)
    ensures RunIsScored(decay, CompleteScan(db, run, analysis), run)
  {
    FinishStores(db, run, analysis);
  }

  lemma {:induction false} PlayIsScored(decay: real -> real, reqs: seq<Request>, run: int)
    requires AreFromEngine(decay, reqs)
    ensures RunIsScored(decay, Play(EmptyDb(), reqs), run)
  {
    if reqs != [] {
      var n := |reqs| - 1;
      var before := Play(EmptyDb(), reqs[..n]);
      forall i | 0 <= i < n && reqs[..n][i].FinishScan? ensures IsFromEngine(decay, reqs[..n][i].analysis) {
        assert reqs[i].FinishScan?;
      }
      PlayIsScored(decay, reqs[..n], run);
      assert IsConsistent(EmptyDb());
      PlayKeeps(EmptyDb(), reqs[..n]);
      ServeIsScored(decay, before, reqs[n], run);
    }
  }

  lemma ServeIsScored(decay: real -> real, db: Db, req: Request, run: int)
    requires IsConsistent(db) && RunIsScored(decay, db, run)
    requires req.FinishScan? ==> IsFromEngine(decay, req.analysis)
    ensures RunIsScored(decay, Serve(db, req), run)
  {
    if run in db.runs && !IsPending(db, run) {
      KnownRunIsOld(db, run);
      ServeKeepsRun(db, req, run);
      FactsKept(db.findings, Serve(db, req).findings, run);
    } else if req.FinishScan? && req.run == run && IsPending(db, run) {
      FinishIsScored(decay, db, run, req.analysis);
    } else {
      ServeCompletesNone(db, req, run);
    }
  }

  lemma {:induction false} ExpireKeepsRuns(db: Db, due: seq<nat>)
    requires forall i :: i in due ==> i < |db.exceptions|
    ensures ExpireRows(db, due).db.runs == db.runs
  {
    if due != [] {
      var n := |due| - 1;
      assert due[n] in due && forall i :: i in due[..n] ==> i in due;
      ExpireKeepsRuns(db, due[..n]);
    }
  }

  lemma {:induction false} BulkKeepsRuns(db: Db, gids: seq<int>, action: Action)
    ensures Bulk(db, gids, action).db.runs == db.runs
  {
    if gids != [] {
      BulkKeepsRuns(db, gids[..|gids| - 1], action);
    }
  }

  /** Only finishing a scan completes a run. */
  lemma ServeCompletesNone(db: Db, req: Request, run: int)
    requires run in db.runs ==> IsPending(db, run)
    requires !(req.FinishScan? && req.run == run && IsPending(db, run))
    ensures var after := Serve(db, req); run in after.runs ==> after.runs[run].stage != Completed
  {
    match req
    case Act(gid, action) =>
    case ActOnMany(gids, action) => BulkKeepsRuns(db, gids, action);
    case Revoke(gid, actor, note) =>
    case ExpireAt(today) => ExpireAtKeepsRuns(db, today);
    case StartScan(account) =>
    case FinishScan(other, analysis) =>
      if IsPending(db, other) {
        PersistKeepsRuns(db, db.runs[other].account, other, analysis.findings);
      }
    case AbortScan(other, detected) =>
      if IsPending(db, other) {
        PersistKeepsRuns(db, db.runs[other].account, other, detected);
      }
  }

  lemma ExpireAtKeepsRuns(db: Db, today: CalendarDate)
    ensures Expire(db, today).db.runs == db.runs
  {
    DueRowsExactly(db.exceptions, Iso(today));
    ExpireKeepsRuns(db, DueRows(db.exceptions, Iso(today)));
  }

  /** In every reachable state, the live posture of a completed run is at least
      its stored score, and equal to it while every finding of the run is open
      or investigating. */
  lemma LivePostureAtLeastStored(decay: real -> real, reqs: seq<Request>, run: int)
    requires IsDecay(decay) && AreFromEngine(decay, reqs)
    requires var db := Play(EmptyDb(), reqs); run in db.runs && db.runs[run].stage == Completed
    ensures var db := Play(EmptyDb(), reqs);
      && LivePosture(decay, db, run) >= db.runs[run].composite
      && (AllActive(db.findings, run) ==> LivePosture(decay, db, run) == db.runs[run].composite)
  {
    var db := Play(EmptyDb(), reqs);
    PlayIsScored(decay, reqs, run);
    var principals := db.runs[run].principals;
    ActiveIsSome(db.findings, run, principals);
    PostureAntitone(decay, Factors(ActiveFacts(db.findings, run), principals), Factors(FactsOf(db.findings, run), principals));
    if AllActive(db.findings, run) {
      ActiveIsAll(db.findings, run);
    }
  }

  // ----- what a scan finds is open unless it was excepted -----

  ghost predicate WasExcepted(db: Db, account: int, fp: string) {
    exists gid :: gid in db.groups && db.groups[gid].account == account && db.groups[gid].fingerprint == fp
                  && IsException(db.groups[gid].status)
  }

  /** The persist phase neither makes nor ends an exception, and keeps the keys
      of the groups. */
  ghost predicate KeepsExceptions(before: map<int, Group>, after: map<int, Group>) {
    && (forall gid :: gid in before ==>
          && gid in after && SameKey(after[gid], before[gid])
          && (IsException(after[gid].status) <==> IsException(before[gid].status)))
    && (forall gid :: gid in after && gid !in before ==> !IsException(after[gid].status))
  }

  lemma {:induction false} PersistKeepsExceptions(db: Db, account: int, run: int, detected: seq<Facts>)
    requires IsConsistent(db) && IsPending(db, run) && db.runs[run].account == account
    ensures KeepsExceptions(db.groups, PersistFindings(db, account, run, detected).groups)
  {
    if detected != [] {
      var n := |detected| - 1;
      PersistKeepsExceptions(db, account, run, detected[..n]);
      PersistFindingsKeep(db, account, run, detected[..n]);
      var before := PersistFindings(db, account, run, detected[..n]);
      GetOrCreateSees(before, account, run, detected[n]);
      SeesKeepsExceptions(db.groups, before.groups, GetOrCreateGroup(before, account, run, detected[n]).db.groups,
        GetOrCreateGroup(before, account, run, detected[n]).group, account, run, Fingerprint(detected[n]));
    }
  }

  lemma SeesKeepsExceptions(start: map<int, Group>, before: map<int, Group>, after: map<int, Group>,
      gid: int, account: int, run: int, fp: string)
    requires KeepsExceptions(start, before) && Sees(before, after, gid, account, run, fp)
    ensures KeepsExceptions(start, after)
  {
  }

  lemma {:induction false} FactHasRow(findings: seq<FindingRow>, run: int, f: Facts)
    ensures f in FactsOf(findings, run) <==> exists i :: 0 <= i < |findings| && findings[i].run == run && findings[i].facts == f
  {
    if findings != [] {
      var n := |findings| - 1;
      FactHasRow(findings[..n], run, f);
      if i :| 0 <= i < n && findings[..n][i].run == run && findings[..n][i].facts == f {
        assert findings[i].run == run && findings[i].facts == f;
      }
      if i :| 0 <= i < |findings| && findings[i].run == run && findings[i].facts == f {
        assert i == n || (findings[..n][i].run == run && findings[..n][i].facts == f);
      }
    }
  }

  /** Right after a scan every finding of the run is open or investigating, and
      so the two scores agree, exactly when no detected fingerprint belongs to
      a suppressed or accepted group. */
  lemma ScanIsAllActiveExactlyWhen(db: Db, run: int, analysis: Analysis)
    requires IsConsistent(db) && IsPending(db, run)
    ensures AllActive(CompleteScan(db, run, analysis).findings, run) <==>
      forall f :: f in analysis.findings ==> !WasExcepted(db, db.runs[run].account, Fingerprint(f))
  {
    var account := db.runs[run].account;
    var mid := PersistFindings(db, account, run, analysis.findings);
    PersistFindingsKeep(db, account, run, analysis.findings);
    PersistKeepsExceptions(db, account, run, analysis.findings);
    assert IsUntouched(db, run);
    NoFacts(db.findings, run);
    PersistStores(db, account, run, analysis.findings);
    assert [] + analysis.findings == analysis.findings;
    RowsActiveExactly(db, mid, run, analysis.findings);
  }

  lemma RowsActiveExactly(db: Db, mid: Db, run: int, detected: seq<Facts>)
    requires IsIndexed(db) && run in mid.runs
    requires Inv(mid, {run}) && ScanIsUnderWay(mid, run) && KeepsExceptions(db.groups, mid.groups)
    requires FactsOf(mid.findings, run) == detected
    ensures AllActive(mid.findings, run) <==>
      forall f :: f in detected ==> !WasExcepted(db, mid.runs[run].account, Fingerprint(f))
  {
    forall i | 0 <= i < |mid.findings| && mid.findings[i].run == run
      ensures mid.findings[i].facts in detected
      ensures IsActive(mid.findings[i].status) <==>
        !WasExcepted(db, mid.runs[run].account, Fingerprint(mid.findings[i].facts))
    {
      FactHasRow(mid.findings, run, mid.findings[i].facts);
      RowActiveExactly(db, mid, run, i);
    }
    forall f | f in detected && WasExcepted(db, mid.runs[run].account, Fingerprint(f))
      ensures !AllActive(mid.findings, run)
    {
      FactHasRow(mid.findings, run, f);
      var i :| 0 <= i < |mid.findings| && mid.findings[i].run == run && mid.findings[i].facts == f;
      assert !IsActive(mid.findings[i].status);
    }
  }

  lemma RowActiveExactly(db: Db, mid: Db, run: int, i: nat)
    requires IsIndexed(db) && run in mid.runs
    requires Inv(mid, {run}) && ScanIsUnderWay(mid, run) && KeepsExceptions(db.groups, mid.groups)
    requires i < |mid.findings| && mid.findings[i].run == run
    ensures IsActive(mid.findings[i].status) <==>
      !WasExcepted(db, mid.runs[run].account, Fingerprint(mid.findings[i].facts))
  {
    var row := mid.findings[i];
    assert RowIsGrouped(mid, row) && RowIsCurrent(mid, row);
    var gid := row.group;
    OnlyKnownStatuses(mid, gid);
    assert IsActive(row.status) <==> !IsException(mid.groups[gid].status);
    var fp := Fingerprint(row.facts);
    if gid in db.groups && IsException(db.groups[gid].status) {
      assert WasExcepted(db, mid.runs[run].account, fp);
    }
    if WasExcepted(db, mid.runs[run].account, fp) {
      var g :| g in db.groups && db.groups[g].account == mid.runs[run].account && db.groups[g].fingerprint == fp
               && IsException(db.groups[g].status);
      assert SameKey(mid.groups[g], mid.groups[gid]);
      assert g == gid;
    }
  }
}
