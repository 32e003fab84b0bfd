/** The tables of the finding workflow and what each service call does to them:
    `workflow_service`, `exception_service`, `bulk_service` and the persist
    phase of `scan_service`. */
module Workflow {
  import opened Ordering
  import opened Text
  import opened Findings
  import opened IsoDates

  datatype Status = Open | Investigating | Resolved | Suppressed | AcceptedRisk | OtherStatus(text: string)

  /** `ALLOWED_TRANSITIONS`. */
  function Allowed(from: Status): set<Status> {
    match from
    case Open => {Investigating, Suppressed, AcceptedRisk}
    case Investigating => {Resolved, Open}
    case Resolved => {Open}
    case AcceptedRisk => {Open}
    case Suppressed => {Open}
    case OtherStatus(_) => {}
  }

  /** `EXCEPTION_STATUSES`. */
  predicate IsException(status: Status) {
    status == Suppressed || status == AcceptedRisk
  }

  // ----- the tables -----

  datatype Group = Group(
    account: int,
    fingerprint: string,
    check: string,
    principal: Option<string>,
    firstSeen: Option<int>,
    lastSeen: Option<int>,
    status: Status)

  datatype FindingRow = FindingRow(run: int, group: int, facts: Facts, status: Status)

  datatype HistoryRow = HistoryRow(
    group: int, from: Option<Status>, to: Status, actor: Option<int>, note: Option<string>)

  datatype ExceptionRow = ExceptionRow(
    group: int, kind: Status, reason: string, createdBy: int, expiresAt: Option<string>, revoked: bool)

  /** `Pending` covers queued, ingesting and analyzing. */
  datatype Stage = Pending | Completed | Failed

  datatype RunRow = RunRow(
    account: int,
    stage: Stage,
    composite: int,
    principals: map<string, int>,
    newCount: Option<nat>,
    resolvedCount: Option<nat>)

  /** `index` is the unique index on (account, fingerprint). */
  datatype Db = Db(
    groups: map<int, Group>,
    index: map<(int, string), int>,
    nextGroup: int,
    findings: seq<FindingRow>,
    history: seq<HistoryRow>,
    exceptions: seq<ExceptionRow>,
    runs: map<int, RunRow>,
    nextRun: int)

  datatype Outcome =
    | Done
    | NotFound
    | InvalidTransition(from: Status, to: Status)
    | ExceptionError
    | PermissionDenied

  datatype Effect = Effect(outcome: Outcome, db: Db)

  // ----- transition -----

  /** `(note or "").strip() or None`. */
  function CleanNote(note: Option<string>): Option<string> {
    if note.None? || Strip(note.value) == "" then None else Some(Strip(note.value))
  }

  /** `UPDATE finding SET status = to WHERE group_id = gid AND run_id = run`. */
  function Stamp(findings: seq<FindingRow>, gid: int, run: Option<int>, to: Status): (r: seq<FindingRow>)
    ensures |r| == |findings|
    ensures forall i :: 0 <= i < |r| ==>
      r[i] == if findings[i].group == gid && run == Some(findings[i].run) then findings[i].(status := to) else findings[i]
  {
    seq(|findings|, i requires 0 <= i < |findings| =>
      if findings[i].group == gid && run == Some(findings[i].run) then findings[i].(status := to) else findings[i])
  }

  function SetStatus(db: Db, gid: int, to: Status, actor: Option<int>, note: Option<string>): Db
    requires gid in db.groups
  {
    var g := db.groups[gid];
    db.(groups := db.groups[gid := g.(status := to)],
        history := db.history + [HistoryRow(gid, Some(g.status), to, actor, CleanNote(note))],
        findings := Stamp(db.findings, gid, g.lastSeen, to))
  }

  function Transition(db: Db, gid: int, to: Status, actor: Option<int>, note: Option<string>): Effect
    requires gid in db.groups
  {
    var from := db.groups[gid].status;
    if to in Allowed(from) then Effect(Done, SetStatus(db, gid, to, actor, note))
    else Effect(InvalidTransition(from, to), db)
  }

  // ----- exceptions -----

  /** `rbac.at_least(role, "admin")`. */
  predicate AtLeastAdmin(role: string, publicMode: bool) {
    !publicMode && role == "admin"
  }

  type CalendarDate = d: Date | InRange(d) witness Date(2000, 1, 1)

  /** The `expires_at` argument: absent or empty, not an ISO date, or a date. */
  datatype Expiry = NoExpiry | Unparseable | Parsed(date: CalendarDate)

  datatype ExceptionForm = ExceptionForm(
    kind: Status, reason: string, actor: int, role: Option<string>, publicMode: bool, expiry: Expiry)

  /** The checks `create_exception` makes before it touches the state machine. */
  function Refusal(form: ExceptionForm): Option<Outcome> {
    if !IsException(form.kind) then Some(ExceptionError)
    else if form.kind == AcceptedRisk && form.role.Some? && !AtLeastAdmin(form.role.value, form.publicMode) then
      Some(PermissionDenied)
    else if Strip(form.reason) == "" then Some(ExceptionError)
    else if form.expiry.Unparseable? then Some(ExceptionError)
    else None
  }

  /** `_validate_expiry`. */
  function CleanExpiry(expiry: Expiry): Option<string> {
    if expiry.Parsed? then Some(Iso(expiry.date)) else None
  }

  function NewException(gid: int, form: ExceptionForm): ExceptionRow {
    ExceptionRow(gid, form.kind, Strip(form.reason), form.actor, CleanExpiry(form.expiry), false)
  }

  function CreateException(db: Db, gid: int, form: ExceptionForm): Effect
    requires gid in db.groups
  {
    if Refusal(form).Some? then Effect(Refusal(form).value, db)
    else
      var moved := Transition(db, gid, form.kind, Some(form.actor), Some(Strip(form.reason)));
      if !moved.outcome.Done? then moved
      else Effect(Done, moved.db.(exceptions := moved.db.exceptions + [NewException(gid, form)]))
  }

  /** An exception is created exactly when the form is valid and the group is in
      a status that allows it; otherwise nothing changes. */
  lemma CreateExceptionExactly(db: Db, gid: int, form: ExceptionForm)
    requires gid in db.groups
    ensures var e := CreateException(db, gid, form);
      && (e.outcome == Done <==> Refusal(form) == None && db.groups[gid].status == Open)
      && (e.outcome != Done ==> e.db == db)
      && (e.outcome == Done ==>
            e.db == SetStatus(db, gid, form.kind, Some(form.actor), Some(Strip(form.reason)))
                    .(exceptions := db.exceptions + [NewException(gid, form)]))
  {
  }

  /** `active_exception`: the first unrevoked row of a group, by position. */
  function ActiveException(exceptions: seq<ExceptionRow>, gid: int): (r: Option<nat>)
    ensures r.Some? ==> r.value < |exceptions| && exceptions[r.value].group == gid && !exceptions[r.value].revoked
    ensures r.None? ==> forall i :: 0 <= i < |exceptions| && exceptions[i].group == gid ==> exceptions[i].revoked
  {
    if exceptions == [] then None
    else
      var n := |exceptions| - 1;
      var earlier := ActiveException(exceptions[..n], gid);
      if earlier.Some? then earlier
      else if exceptions[n].group == gid && !exceptions[n].revoked then Some(n)
      else None
  }

  function CloseRow(exceptions: seq<ExceptionRow>, i: nat): seq<ExceptionRow>
    requires i < |exceptions|
  {
    exceptions[i := exceptions[i].(revoked := true)]
  }

  function CloseActive(db: Db, gid: int): Db {
    var active := ActiveException(db.exceptions, gid);
    if active.Some? then db.(exceptions := CloseRow(db.exceptions, active.value)) else db
  }

  function RevokeException(db: Db, gid: int, actor: Option<int>, note: string): Effect
    requires gid in db.groups
  {
    Transition(CloseActive(db, gid), gid, Open, actor, Some(note))
  }

  // ----- expiry -----

  const EXPIRED_NOTE := "Exception expired, auto-reopened"

  predicate IsDue(row: ExceptionRow, cutoff: string) {
    !row.revoked && row.expiresAt.Some? && StrLeq(row.expiresAt.value, cutoff)
  }

  /** The candidate rows, by position. */
  function DueRows(exceptions: seq<ExceptionRow>, cutoff: string): seq<nat> {
    if exceptions == [] then []
    else
      var n := |exceptions| - 1;
      DueRows(exceptions[..n], cutoff) + if IsDue(exceptions[n], cutoff) then [n] else []
  }

  datatype Reopening = Reopening(db: Db, reopened: seq<int>)

  /** One turn of the loop in `expire_exceptions`. */
  function ExpireRow(s: Reopening, i: nat): Reopening
    requires i < |s.db.exceptions|
  {
    var gid := s.db.exceptions[i].group;
    var closed := s.db.(exceptions := CloseRow(s.db.exceptions, i));
    if gid in closed.groups && IsException(closed.groups[gid].status) then
      Reopening(SetStatus(closed, gid, Open, None, Some(EXPIRED_NOTE)), s.reopened + [gid])
    else Reopening(closed, s.reopened)
  }

  function ExpireRows(db: Db, due: seq<nat>): (r: Reopening)
    requires forall i :: i in due ==> i < |db.exceptions|
    ensures |r.db.exceptions| == |db.exceptions|
  {
    if due == [] then Reopening(db, [])
    else
      var last := |due| - 1;
      assert forall i :: i in due[..last] ==> i in due;
      assert due[last] in due;
      ExpireRow(ExpireRows(db, due[..last]), due[last])
  }

  lemma {:induction false} DueRowsExactly(exceptions: seq<ExceptionRow>, cutoff: string)
    ensures forall i :: i in DueRows(exceptions, cutoff) <==> 0 <= i < |exceptions| && IsDue(exceptions[i], cutoff)
    ensures forall a, b :: 0 <= a < b < |DueRows(exceptions, cutoff)| ==>
      DueRows(exceptions, cutoff)[a] < DueRows(exceptions, cutoff)[b]
  {
    if exceptions != [] {
      var n := |exceptions| - 1;
      DueRowsExactly(exceptions[..n], cutoff);
      var earlier := DueRows(exceptions[..n], cutoff);
      assert forall a :: 0 <= a < |earlier| ==> earlier[a] in earlier;
    }
  }

  /** `expire_exceptions`, for the date `today`. */
  function Expire(db: Db, today: CalendarDate): Reopening {
    DueRowsExactly(db.exceptions, Iso(today));
    ExpireRows(db, DueRows(db.exceptions, Iso(today)))
  }

  // ----- bulk actions -----

  /** What a bulk action applies to each selected group. */
  datatype Action =
    | MoveTo(to: Status, actor: Option<int>, note: Option<string>)
    | Except(form: ExceptionForm)

  function ApplyTo(db: Db, gid: int, action: Action): Effect {
    if gid !in db.groups then Effect(NotFound, db)
    else match action
      case MoveTo(to, actor, note) => Transition(db, gid, to, actor, note)
      case Except(form) => CreateException(db, gid, form)
  }

  datatype BulkResult = BulkResult(db: Db, succeeded: seq<int>, failed: seq<(int, Outcome)>)

  function BulkOne(r: BulkResult, gid: int, action: Action): BulkResult {
    var e := ApplyTo(r.db, gid, action);
    if e.outcome.Done? then BulkResult(e.db, r.succeeded + [gid], r.failed)
    else BulkResult(e.db, r.succeeded, r.failed + [(gid, e.outcome)])
  }

  function Bulk(db: Db, gids: seq<int>, action: Action): BulkResult {
    if gids == [] then BulkResult(db, [], [])
    else BulkOne(Bulk(db, gids[..|gids| - 1], action), gids[|gids| - 1], action)
  }

  // ----- scans -----

  /** What the analysis of a run hands to the persist phase. */
  datatype Analysis = Analysis(findings: seq<Facts>, composite: int, principals: map<string, int>)

  function LookUp(db: Db, account: int, fp: string): (r: Option<int>)
    ensures r.Some? ==> r.value in db.groups
  {
    var key := (account, fp);
    if key in db.index && db.index[key] in db.groups then Some(db.index[key]) else None
  }

  datatype Found = Found(db: Db, group: int)

  /** `_get_or_create_group`. */
  function GetOrCreateGroup(db: Db, account: int, run: int, f: Facts): (r: Found)
    ensures r.group in r.db.groups
  {
    var fp := Fingerprint(f);
    var known := LookUp(db, account, fp);
    if known.None? then
      var gid := db.nextGroup;
      Found(db.(groups := db.groups[gid := Group(account, fp, f.check, f.principal, Some(run), Some(run), Open)],
                index := db.index[(account, fp) := gid],
                nextGroup := gid + 1,
                history := db.history + [HistoryRow(gid, None, Open, None, Some("Detected"))]), gid)
    else
      var gid := known.value;
      var g := db.groups[gid].(lastSeen := Some(run));
      if g.status == Resolved then
        Found(db.(groups := db.groups[gid := g.(status := Open)],
                  history := db.history + [HistoryRow(gid, Some(Resolved), Open, None, Some("Re-detected on new scan"))]), gid)
      else Found(db.(groups := db.groups[gid := g]), gid)
  }

  /** One turn of the loop in `_persist_findings`. */
  function PersistFinding(db: Db, account: int, run: int, f: Facts): Db {
    var found := GetOrCreateGroup(db, account, run, f);
    var row := FindingRow(run, found.group, f, found.db.groups[found.group].status);
    found.db.(findings := found.db.findings + [row])
  }

  function PersistFindings(db: Db, account: int, run: int, findings: seq<Facts>): Db {
    if findings == [] then db
    else PersistFinding(PersistFindings(db, account, run, findings[..|findings| - 1]), account, run, findings[|findings| - 1])
  }

  /** `_run_fingerprints`. */
  function RunFingerprints(findings: seq<FindingRow>, run: int): set<string> {
    set i | 0 <= i < |findings| && findings[i].run == run :: Fingerprint(findings[i].facts)
  }

  function OtherCompleted(runs: map<int, RunRow>, account: int, run: int): set<int> {
    set r | r in runs && r != run && runs[r].account == account && runs[r].stage == Completed
  }

  predicate IntGeq(x: int, y: int) {
    x >= y
  }

  /** The newest other completed run of the account, by id. */
  function PreviousRun(runs: map<int, RunRow>, account: int, run: int): (r: Option<int>)
    ensures r.Some? ==> r.value in OtherCompleted(runs, account, run)
    ensures r.Some? ==> forall y :: y in OtherCompleted(runs, account, run) ==> IntGeq(r.value, y)
    ensures r.None? ==> OtherCompleted(runs, account, run) == {}
  {
    var others := OtherCompleted(runs, account, run);
    if others == {} then None
    else
      Some(Min(others, IntGeq))
  }

  function NewCount(db: Db, account: int, run: int): Option<nat> {
    var previous := PreviousRun(db.runs, account, run);
    if previous.None? then None
    else Some(|RunFingerprints(db.findings, run) - RunFingerprints(db.findings, previous.value)|)
  }

  function ResolvedCount(db: Db, account: int, run: int): Option<nat> {
    var previous := PreviousRun(db.runs, account, run);
    if previous.None? then None
    else Some(|RunFingerprints(db.findings, previous.value) - RunFingerprints(db.findings, run)|)
  }

  function CreateRun(db: Db, account: int): Db {
    db.(runs := db.runs[db.nextRun := RunRow(account, Pending, 0, map[], None, None)], nextRun := db.nextRun + 1)
  }

  /** The persist phase of a scan that succeeds. */
  function CompleteScan(db: Db, run: int, analysis: Analysis): Db
    requires run in db.runs
  {
    var account := db.runs[run].account;
    var persisted := PersistFindings(db, account, run, analysis.findings);
    persisted.(runs := persisted.runs[run := RunRow(account, Completed, analysis.composite, analysis.principals,
      NewCount(persisted, account, run), ResolvedCount(persisted, account, run))])
  }

  /** A scan that fails after it has persisted `findings`. */
  function FailScan(db: Db, run: int, findings: seq<Facts>): Db
    requires run in db.runs
  {
    var account := db.runs[run].account;
    var persisted := PersistFindings(db, account, run, findings);
    persisted.(runs := persisted.runs[run := db.runs[run].(stage := Failed)])
  }
}
