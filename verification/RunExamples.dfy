/** Reachable runs on which the stored numbers, the diff and the dashboard do
    not say what their documentation does. */
module RunExamples {
  import opened Ordering
  import opened Text
  import opened Posture
  import opened Rounding
  import opened Findings
  import opened Workflow
  import opened WorkflowTheorems
  import opened RunDiff
  import opened DiffTheorems
  import opened Dashboard
  import opened ScanTheorems

  lemma PlayAppend(reqs: seq<Request>, req: Request)
    ensures Play(EmptyDb(), reqs + [req]) == Serve(Play(EmptyDb(), reqs), req)
  {
    assert (reqs + [req])[..|reqs|] == reqs;
  }

  lemma PlayThree(a: Request, b: Request, c: Request)
    ensures Play(EmptyDb(), [a, b, c]) == Serve(Serve(Serve(EmptyDb(), a), b), c)
  {
    PlayAppend([], a);
    PlayAppend([a], b);
    PlayAppend([a, b], c);
    assert [] + [a] == [a] && [a] + [b] == [a, b] && [a, b] + [c] == [a, b, c];
  }

  lemma PlayFour(a: Request, b: Request, c: Request, d: Request)
    ensures Play(EmptyDb(), [a, b, c, d]) == Serve(Serve(Serve(Serve(EmptyDb(), a), b), c), d)
  {
    PlayThree(a, b, c);
    PlayAppend([a, b, c], d);
    assert [a, b, c] + [d] == [a, b, c, d];
  }

  lemma PlayFive(a: Request, b: Request, c: Request, d: Request, e: Request)
    ensures Play(EmptyDb(), [a, b, c, d, e]) == Serve(Serve(Serve(Serve(Serve(EmptyDb(), a), b), c), d), e)
  {
    PlayFour(a, b, c, d);
    PlayAppend([a, b, c, d], e);
    assert [a, b, c, d] + [e] == [a, b, c, d, e];
  }

  // ----- persisting one finding -----

  lemma PersistOne(db: Db, account: int, run: int, f: Facts)
    ensures PersistFindings(db, account, run, [f]) == PersistFinding(db, account, run, f)
  {
    assert [f][..0] == [];
  }

  function NewGroup(f: Facts, run: int): Group {
    Group(1, Fingerprint(f), f.check, f.principal, Some(run), Some(run), Open)
  }

  /** The first finding of an empty group table. */
  lemma FirstDetection(db: Db, run: int, f: Facts)
    requires db.groups == map[] && db.index == map[] && db.nextGroup == 1
    ensures var after := PersistFinding(db, 1, run, f);
      && after.groups == map[1 := NewGroup(f, run)] && after.index == map[(1, Fingerprint(f)) := 1]
      && after.findings == db.findings + [FindingRow(run, 1, f, Open)]
      && after.runs == db.runs && after.nextRun == db.nextRun && after.exceptions == db.exceptions
  {
  }

  /** A finding of the one group there is, not resolved. */
  lemma LaterDetection(db: Db, run: int, f: Facts)
    requires 1 in db.groups && db.groups[1].status != Resolved && db.index == map[(1, Fingerprint(f)) := 1]
    ensures var after := PersistFinding(db, 1, run, f);
      && after.groups == db.groups[1 := db.groups[1].(lastSeen := Some(run))] && after.index == db.index
      && after.findings == db.findings + [FindingRow(run, 1, f, db.groups[1].status)]
      && after.runs == db.runs && after.nextRun == db.nextRun && after.exceptions == db.exceptions
  {
  }

  // ----- two findings with one fingerprint -----

  function TwoScansBegun(): Db {
    EmptyDb().(runs := map[1 := RunRow(1, Pending, 0, map[], None, None), 2 := RunRow(1, Pending, 0, map[], None, None)],
               nextRun := 3)
  }

  lemma BeginTwoScans()
    ensures Serve(Serve(EmptyDb(), StartScan(1)), StartScan(1)) == TwoScansBegun()
  {
    var one := Serve(EmptyDb(), StartScan(1));
    assert one.runs == map[1 := RunRow(1, Pending, 0, map[], None, None)] && one.nextRun == 2;
    assert Serve(one, StartScan(1)).runs == TwoScansBegun().runs;
  }

  function Nothing(): Analysis {
    Analysis([], 100, map[])
  }

  lemma DetectTwice(db: Db, run: int, f: Facts)
    requires db.groups == map[] && db.index == map[] && db.nextGroup == 1 && db.findings == []
    ensures var after := PersistFindings(db, 1, run, [f, f]);
      && after.findings == [FindingRow(run, 1, f, Open), FindingRow(run, 1, f, Open)]
      && 1 in after.groups && after.groups[1].fingerprint == Fingerprint(f)
      && after.runs == db.runs
  {
    PersistOne(db, 1, run, f);
    FirstDetection(db, run, f);
    var one := PersistFinding(db, 1, run, f);
    LaterDetection(one, run, f);
    assert [f, f][..1] == [f];
    assert PersistFindings(db, 1, run, [f, f]) == PersistFinding(one, 1, run, f);
  }

  lemma SumsOfAppend(groups: map<int, Group>, rows: seq<FindingRow>, row: FindingRow, run: int)
    ensures var isRow := row.run == run && row.group in groups;
      && SumRows(groups, rows + [row], run, RiskOf) == SumRows(groups, rows, run, RiskOf) + (if isRow then row.facts.risk else 0)
      && ByFingerprint(groups, rows + [row], run)
         == (if isRow then ByFingerprint(groups, rows, run)[groups[row.group].fingerprint := row] else ByFingerprint(groups, rows, run))
      && Dropped(groups, rows + [row], run, RiskOf) == Dropped(groups, rows, run, RiskOf)
           + (if isRow && groups[row.group].fingerprint in ByFingerprint(groups, rows, run)
              then ByFingerprint(groups, rows, run)[groups[row.group].fingerprint].facts.risk else 0)
  {
    assert (rows + [row])[..|rows|] == rows;
  }

  lemma SumsOfPair(groups: map<int, Group>, row: FindingRow, run: int)
    requires row.group in groups
    ensures Dropped(groups, [row, row], run, RiskOf) == if run == row.run then row.facts.risk else 0
    ensures SumRows(groups, [row, row], run, RiskOf) == if run == row.run then 2 * row.facts.risk else 0
  {
    SumsOfAppend(groups, [], row, run);
    SumsOfAppend(groups, [row], row, run);
    assert [] + [row] == [row] && [row] + [row] == [row, row];
  }

  lemma PairIsShadowed(groups: map<int, Group>, row: FindingRow)
    requires row.group in groups
    ensures IsShadowed(groups, [row, row], row.run, 0)
  {
    assert IsRowOf(groups, [row, row], row.run, 1);
  }

  /** A run that finds nothing, then one that reports a finding twice. */
  function DuplicateRun(f: Facts): seq<Request> {
    [StartScan(1), StartScan(1), FinishScan(1, Nothing()), FinishScan(2, Analysis([f, f], 0, map[]))]
  }

  ghost predicate IsFoundTwice(db: Db, f: Facts) {
    db.findings == [FindingRow(2, 1, f, Open), FindingRow(2, 1, f, Open)] && 1 in db.groups
  }

  lemma PlayDuplicate(f: Facts)
    ensures IsFoundTwice(Play(EmptyDb(), DuplicateRun(f)), f)
  {
    PlayFour(StartScan(1), StartScan(1), FinishScan(1, Nothing()), FinishScan(2, Analysis([f, f], 0, map[])));
    BeginTwoScans();
    var before := Serve(TwoScansBegun(), FinishScan(1, Nothing()));
    assert IsPending(before, 2) && before.runs[2].account == 1;
    DetectTwice(before, 2, f);
  }

  lemma HalfTheMovement(db: Db, f: Facts, board: Board)
    requires f.risk > 0 && IsFoundTwice(db, f) && IsBoard(RowsOf(db, 1), RowsOf(db, 2), board)
    ensures IsShadowed(db.groups, db.findings, 2, 0)
    ensures board.NetRisk() != RunRisk(db, 2) - RunRisk(db, 1) == 2 * f.risk
  {
    var row := FindingRow(2, 1, f, Open);
    SumsOfPair(db.groups, row, 1);
    SumsOfPair(db.groups, row, 2);
    PairIsShadowed(db.groups, row);
    NetRiskSpansEveryFindingExactlyWhen(db, 1, 2, board);
  }

  /** The first of the two findings is shadowed with its risk, and the board
      does not show the movement of the net risk. */
  lemma DuplicateExample(f: Facts, board: Board)
    requires f.risk > 0
    requires var db := Play(EmptyDb(), DuplicateRun(f)); IsBoard(RowsOf(db, 1), RowsOf(db, 2), board)
    ensures var db := Play(EmptyDb(), DuplicateRun(f));
      && IsShadowed(db.groups, db.findings, 2, 0) && db.findings[0].facts.risk > 0
      && board.NetRisk() != RunRisk(db, 2) - RunRisk(db, 1) == 2 * f.risk
  {
    PlayDuplicate(f);
    HalfTheMovement(Play(EmptyDb(), DuplicateRun(f)), f, board);
  }

  // ----- two overlapping scans -----

  /** Scan 1 is still pending, scan 2 has completed without findings. */
  ghost predicate IsOverlap(db: Db) {
    && IsConsistent(db) && IsPending(db, 1) && db.runs[1].account == 1
    && PreviousRun(db.runs, 1, 1) == Some(2) && db.findings == []
  }

  function OverlapBegun(): seq<Request> {
    [StartScan(1), StartScan(1), FinishScan(2, Nothing())]
  }

  lemma EveryPlayIsConsistent(reqs: seq<Request>)
    ensures IsConsistent(Play(EmptyDb(), reqs))
  {
    assert IsConsistent(EmptyDb());
    PlayKeeps(EmptyDb(), reqs);
  }

  lemma SecondFinished()
    ensures var db := Serve(TwoScansBegun(), FinishScan(2, Nothing()));
      && IsPending(db, 1) && db.runs[1].account == 1
      && PreviousRun(db.runs, 1, 1) == Some(2) && db.findings == []
  {
    var db := Serve(TwoScansBegun(), FinishScan(2, Nothing()));
    assert OtherCompleted(db.runs, 1, 1) == {2};
  }

  lemma SecondFinishesFirst()
    ensures IsOverlap(Play(EmptyDb(), OverlapBegun()))
  {
    PlayThree(StartScan(1), StartScan(1), FinishScan(2, Nothing()));
    BeginTwoScans();
    SecondFinished();
    EveryPlayIsConsistent(OverlapBegun());
  }

  lemma FirstFinishesLast(db: Db, f: Facts, board: Board)
    requires IsOverlap(db)
    requires var after := CompleteScan(db, 1, Analysis([f], 0, map[])); IsBoard(RowsOf(after, 1), RowsOf(after, 2), board)
    ensures var after := CompleteScan(db, 1, Analysis([f], 0, map[]));
      && 1 in after.runs && after.runs[1].newCount == Some(1) && after.runs[1].resolvedCount == Some(0)
      && |board.added| == 0 && |board.resolved| == 1
  {
    var once := Analysis([f], 0, map[]);
    var after := CompleteScan(db, 1, once);
    assert Play(after, []) == after;
    StoredCounts(db, 1, once, [], 2);
    ComparedKeys(db, 1, once, [], 2);
    OneFingerprint(f);
    assert RunFingerprints(db.findings, 2) == {};
    OneAgainstNone(RowsOf(after, 1), RowsOf(after, 2), Fingerprint(f), board);
  }

  lemma OneAgainstNone(one: map<string, FindingRow>, none: map<string, FindingRow>, fp: string, board: Board)
    requires one.Keys == {fp} && none.Keys == {} && IsBoard(one, none, board)
    ensures |one.Keys - none.Keys| == 1 && |none.Keys - one.Keys| == 0
    ensures |board.added| == 0 && |board.resolved| == 1
  {
    assert one.Keys - none.Keys == {fp} && none.Keys - one.Keys == {};
    BoardCounts(one, none, board);
  }

  lemma OneFingerprint(f: Facts)
    ensures Fingerprints([f]) == {Fingerprint(f)}
  {
    assert f in [f];
  }

  /** The later scan finishes first and finds nothing; the earlier one then finds
      something. */
  function OverlappingRun(f: Facts): seq<Request> {
    OverlapBegun() + [FinishScan(1, Analysis([f], 0, map[]))]
  }

  lemma PlayOverlapping(f: Facts)
    ensures var begun := Play(EmptyDb(), OverlapBegun());
      IsPending(begun, 1) ==> Play(EmptyDb(), OverlappingRun(f)) == CompleteScan(begun, 1, Analysis([f], 0, map[]))
  {
    PlayAppend(OverlapBegun(), FinishScan(1, Analysis([f], 0, map[])));
  }

  /** The summary of the earlier scan says one new finding, the diff says one
      resolved. */
  lemma OverlapExample(f: Facts, board: Board)
    requires var db := Play(EmptyDb(), OverlappingRun(f)); IsBoard(RowsOf(db, 1), RowsOf(db, 2), board)
    ensures var db := Play(EmptyDb(), OverlappingRun(f));
      && 1 in db.runs && db.runs[1].newCount == Some(1) && db.runs[1].resolvedCount == Some(0)
      && |board.added| == 0 && |board.resolved| == 1
  {
    SecondFinishesFirst();
    PlayOverlapping(f);
    FirstFinishesLast(Play(EmptyDb(), OverlapBegun()), f, board);
  }

  // ----- a suppressed finding that is detected again -----

  lemma DecayBelow(decay: real -> real, x: real)
    requires IsDecay(decay) && x >= 0.0
    ensures decay(x) * (1.0 + x) <= 1.0
  {
    assert AddLaw(decay, x, -x) && x + -x == 0.0;
    assert AboveTangent(decay, -x);
    DecayAtZero(decay);
    DecayPositive(decay, x);
    assert decay(x) * (decay(-x) - (1.0 + x)) >= 0.0;
  }

  lemma CountOne(p: PostureFactor, test: PostureFactor -> bool)
    ensures Count([p], test) == if test(p) then 1 else 0
  {
    assert Count([], test) == 0 && [p][1..] == [];
  }

  lemma OneIsUndamped()
    ensures Diminishing(1) == 1.0
  {
  }

  lemma CriticalLoad(p: PostureFactor)
    requires p.severity == Critical && p.blastRadius == 0
    ensures Load([p]) >= 18.0
  {
    assert [p][1..] == [];
    DiminishingBounded(Count([p], HasSeverity(Low)));
    DiminishingBounded(Count([p], HasSeverity(Medium)));
    DiminishingBounded(Count([p], HasSeverity(High)));
    DiminishingBounded(Count([p], Escalating()));
    CountOne(p, HasSeverity(Critical));
    OneIsUndamped();
  }

  /** An account with a critical finding does not score 100. */
  lemma CriticalScoresLess(decay: real -> real, p: PostureFactor)
    requires IsDecay(decay) && p.severity == Critical && p.blastRadius == 0
    ensures PostureScore(decay, [p]) < 100
  {
    CriticalLoad(p);
    var x := Load([p]) / 80.0;
    DecayAntitone(decay, 0.225, x);
    DecayBelow(decay, 0.225);
    DecayPositive(decay, x);
    assert 100.0 * decay(x) < 99.0;
    RoundBounds(100.0 * decay(x), 0, 99);
  }

  const REASON := "noise"

  function Suppression(): ExceptionForm {
    ExceptionForm(Suppressed, REASON, 1, None, false, NoExpiry)
  }

  lemma SuppressionIsValid()
    ensures Refusal(Suppression()) == None
  {
    StripIdentity(REASON);
  }

  /** What matters of the state after the first scan and after the suppression. */
  ghost predicate IsAfterFirst(db: Db, f: Facts, status: Status) {
    && db.groups == map[1 := NewGroup(f, 1).(status := status)] && db.index == map[(1, Fingerprint(f)) := 1]
    && db.findings == [FindingRow(1, 1, f, status)] && db.nextRun == 2
  }

  lemma FirstScan(f: Facts, analysis: Analysis)
    requires analysis.findings == [f]
    ensures IsAfterFirst(Serve(Serve(EmptyDb(), StartScan(1)), FinishScan(1, analysis)), f, Open)
  {
    var begun := Serve(EmptyDb(), StartScan(1));
    assert IsPending(begun, 1) && begun.runs[1].account == 1;
    PersistOne(begun, 1, 1, f);
    FirstDetection(begun, 1, f);
  }

  lemma Suppress(db: Db, f: Facts)
    requires IsAfterFirst(db, f, Open)
    ensures IsAfterFirst(Serve(db, Act(1, Except(Suppression()))), f, Suppressed)
  {
    SuppressionIsValid();
    CreateExceptionExactly(db, 1, Suppression());
  }

  lemma SecondScan(db: Db, f: Facts, analysis: Analysis)
    requires IsAfterFirst(db, f, Suppressed) && analysis.findings == [f]
    ensures var after := Serve(Serve(db, StartScan(1)), FinishScan(2, analysis));
      && after.findings == [FindingRow(1, 1, f, Suppressed), FindingRow(2, 1, f, Suppressed)]
      && 2 in after.runs && after.runs[2].composite == analysis.composite && after.runs[2].stage == Completed
  {
    var begun := Serve(db, StartScan(1));
    assert IsPending(begun, 2) && begun.runs[2].account == 1;
    PersistOne(begun, 1, 2, f);
    LaterDetection(begun, 2, f);
  }

  lemma SuppressedShowsNothing(decay: real -> real, db: Db, f: Facts)
    requires db.findings == [FindingRow(1, 1, f, Suppressed), FindingRow(2, 1, f, Suppressed)] && 2 in db.runs
    ensures LivePosture(decay, db, 2) == 100
  {
    var a, b := FindingRow(1, 1, f, Suppressed), FindingRow(2, 1, f, Suppressed);
    assert [a, b][..1] == [a] && [a][..0] == [];
    assert ActiveFacts([a], 2) == [];
    assert ActiveFacts([a, b], 2) == [];
  }

  lemma StoredIsLess(decay: real -> real, f: Facts, analysis: Analysis)
    requires IsDecay(decay) && f.severity == Critical
    requires analysis.findings == [f] && analysis.principals == map[] && IsFromEngine(decay, analysis)
    ensures analysis.composite < 100
  {
    assert [f][..0] == [];
    assert Factors([f], map[]) == [FactorOf(f, map[])];
    CriticalScoresLess(decay, FactorOf(f, map[]));
  }

  /** A critical finding is detected, suppressed and detected again. */
  function RedetectingRun(analysis: Analysis): seq<Request> {
    [StartScan(1), FinishScan(1, analysis), Act(1, Except(Suppression())), StartScan(1), FinishScan(2, analysis)]
  }

  /** The dashboard shows 100 for the second run, its stored score is lower. */
  lemma RedetectedExample(decay: real -> real, f: Facts, analysis: Analysis)
    requires IsDecay(decay) && f.severity == Critical
    requires analysis.findings == [f] && analysis.principals == map[] && IsFromEngine(decay, analysis)
    ensures var db := Play(EmptyDb(), RedetectingRun(analysis));
      && 2 in db.runs && db.runs[2].stage == Completed
      && LivePosture(decay, db, 2) == 100 && db.runs[2].composite < 100
  {
    PlayFive(StartScan(1), FinishScan(1, analysis), Act(1, Except(Suppression())), StartScan(1), FinishScan(2, analysis));
    var first := Serve(Serve(EmptyDb(), StartScan(1)), FinishScan(1, analysis));
    var suppressed := Serve(first, Act(1, Except(Suppression())));
    FirstScan(f, analysis);
    Suppress(first, f);
    SecondScan(suppressed, f, analysis);
    StoredIsLess(decay, f, analysis);
    SuppressedShowsNothing(decay, Play(EmptyDb(), RedetectingRun(analysis)), f);
  }
}
