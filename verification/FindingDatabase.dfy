/** The finding tables as mutable state, and the service calls that update them
    in place. Each is proved against its function in `Workflow`. */
module FindingDatabase {
  import opened Ordering
  import opened Text
  import opened Findings
  import opened IsoDates
  import opened Workflow

  class Database {
    var groups: map<int, Group>
    var index: map<(int, string), int>
    var nextGroup: int
    var findings: seq<FindingRow>
    var history: seq<HistoryRow>
    var exceptions: seq<ExceptionRow>
    var runs: map<int, RunRow>
    var nextRun: int

    constructor ()
      ensures State() == Db(map[], map[], 1, [], [], [], map[], 1)
    {
      groups, index, nextGroup := map[], map[], 1;
      findings, history, exceptions := [], [], [];
      runs, nextRun := map[], 1;
    }

    ghost function State(): Db
      reads this
    {
      Db(groups, index, nextGroup, findings, history, exceptions, runs, nextRun)
    }

    method MakeTransition(gid: int, to: Status, actor: Option<int>, note: Option<string>) returns (outcome: Outcome)
      requires gid in groups
      modifies this
      ensures Effect(outcome, State()) == Transition(old(State()), gid, to, actor, note)
    {
      var from := groups[gid].status;
      if to !in Allowed(from) {
        return InvalidTransition(from, to);
      }
      var lastSeen := groups[gid].lastSeen;
      history := history + [HistoryRow(gid, Some(from), to, actor, CleanNote(note))];
      groups := groups[gid := groups[gid].(status := to)];
      if lastSeen.Some? {
        findings := Stamp(findings, gid, lastSeen, to);
      } else {
        assert findings == Stamp(findings, gid, lastSeen, to);
      }
      outcome := Done;
    }

    method AddException(gid: int, form: ExceptionForm) returns (outcome: Outcome)
      requires gid in groups
      modifies this
      ensures Effect(outcome, State()) == CreateException(old(State()), gid, form)
    {
      if !IsException(form.kind) {
        return ExceptionError;
      }
      if form.kind == AcceptedRisk && form.role.Some? && !AtLeastAdmin(form.role.value, form.publicMode) {
        return PermissionDenied;
      }
      var reason := Strip(form.reason);
      if reason == "" || form.expiry.Unparseable? {
        return ExceptionError;
      }
      outcome := MakeTransition(gid, form.kind, Some(form.actor), Some(reason));
      if outcome.Done? {
        exceptions := exceptions + [NewException(gid, form)];
      }
    }

    method Revoke(gid: int, actor: Option<int>, note: string) returns (outcome: Outcome)
      requires gid in groups
      modifies this
      ensures Effect(outcome, State()) == RevokeException(old(State()), gid, actor, note)
    {
      var active := ActiveException(exceptions, gid);
      if active.Some? {
        exceptions := CloseRow(exceptions, active.value);
      }
      outcome := MakeTransition(gid, Open, actor, Some(note));
    }

    /** One turn of the loop below; its call of the state machine cannot fail. */
    method ExpireOne(i: nat, before: seq<int>) returns (reopened: seq<int>)
      requires i < |exceptions|
      modifies this
      ensures Reopening(State(), reopened) == ExpireRow(Reopening(old(State()), before), i)
    {
      exceptions := CloseRow(exceptions, i);
      var gid := exceptions[i].group;
      reopened := before;
      if gid in groups && IsException(groups[gid].status) {
        var outcome := MakeTransition(gid, Open, None, Some(EXPIRED_NOTE));
        assert outcome.Done?;
        reopened := before + [gid];
      }
    }

    /** `expire_exceptions`. */
    method ExpireExceptions(today: CalendarDate) returns (reopened: seq<int>)
      modifies this
      ensures Reopening(State(), reopened) == Expire(old(State()), today)
    {
      var candidates := DueRows(exceptions, Iso(today));
      DueRowsExactly(exceptions, Iso(today));
      reopened := [];
      for c := 0 to |candidates|
        invariant |exceptions| == |old(exceptions)|
        invariant forall i :: i in candidates ==> i < |exceptions|
        invariant forall i :: i in candidates[..c] ==> i < |old(exceptions)|
        invariant Reopening(State(), reopened) == ExpireRows(old(State()), candidates[..c])
      {
        assert candidates[..c + 1][..c] == candidates[..c];
        assert candidates[c] in candidates;
        reopened := ExpireOne(candidates[c], reopened);
      }
      assert candidates[..|candidates|] == candidates;
    }

    method ApplyAction(gid: int, action: Action) returns (outcome: Outcome)
      modifies this
      ensures Effect(outcome, State()) == ApplyTo(old(State()), gid, action)
    {
      if gid !in groups {
        return NotFound;
      }
      match action
      case MoveTo(to, actor, note) => outcome := MakeTransition(gid, to, actor, note);
      case Except(form) => outcome := AddException(gid, form);
    }

    /** `bulk_transition` and `bulk_exception`. */
    method BulkApply(gids: seq<int>, action: Action) returns (succeeded: seq<int>, failed: seq<(int, Outcome)>)
      modifies this
      ensures BulkResult(State(), succeeded, failed) == Bulk(old(State()), gids, action)
    {
      succeeded, failed := [], [];
      for i := 0 to |gids|
        invariant BulkResult(State(), succeeded, failed) == Bulk(old(State()), gids[..i], action)
      {
        assert gids[..i + 1][..i] == gids[..i];
        var outcome := ApplyAction(gids[i], action);
        if outcome.Done? {
          succeeded := succeeded + [gids[i]];
        } else {
          failed := failed + [(gids[i], outcome)];
        }
      }
      assert gids[..|gids|] == gids;
    }

    method GetOrCreate(account: int, run: int, f: Facts) returns (gid: int)
      modifies this
      ensures Found(State(), gid) == GetOrCreateGroup(old(State()), account, run, f)
    {
      var fp := Fingerprint(f);
      if (account, fp) in index && index[(account, fp)] in groups {
        gid := index[(account, fp)];
        groups := groups[gid := groups[gid].(lastSeen := Some(run))];
        if groups[gid].status == Resolved {
          history := history + [HistoryRow(gid, Some(Resolved), Open, None, Some("Re-detected on new scan"))];
          groups := groups[gid := groups[gid].(status := Open)];
        }
      } else {
        gid := nextGroup;
        groups := groups[gid := Group(account, fp, f.check, f.principal, Some(run), Some(run), Open)];
        index := index[(account, fp) := gid];
        nextGroup := nextGroup + 1;
        history := history + [HistoryRow(gid, None, Open, None, Some("Detected"))];
      }
    }

    method PersistAll(account: int, run: int, detected: seq<Facts>)
      modifies this
      ensures State() == PersistFindings(old(State()), account, run, detected)
    {
      for i := 0 to |detected|
        invariant State() == PersistFindings(old(State()), account, run, detected[..i])
      {
        assert detected[..i + 1][..i] == detected[..i];
        var gid := GetOrCreate(account, run, detected[i]);
        findings := findings + [FindingRow(run, gid, detected[i], groups[gid].status)];
      }
      assert detected[..|detected|] == detected;
    }

    method AddRun(account: int) returns (run: int)
      modifies this
      ensures run == old(nextRun) && State() == CreateRun(old(State()), account)
    {
      run := nextRun;
      runs := runs[run := RunRow(account, Pending, 0, map[], None, None)];
      nextRun := nextRun + 1;
    }

    method FinishScan(run: int, analysis: Analysis)
      requires run in runs
      modifies this
      ensures State() == CompleteScan(old(State()), run, analysis)
    {
      var account := runs[run].account;
      PersistAll(account, run, analysis.findings);
      PersistKeepsRuns(old(State()), account, run, analysis.findings);
      var previous := PreviousRun(runs, account, run);
      var newCount, resolvedCount: Option<nat> := None, None;
      if previous.Some? {
        var before := RunFingerprints(findings, previous.value);
        var now := RunFingerprints(findings, run);
        newCount := Some(|now - before|);
        resolvedCount := Some(|before - now|);
      }
      runs := runs[run := RunRow(account, Completed, analysis.composite, analysis.principals, newCount, resolvedCount)];
    }

    method AbortScan(run: int, detected: seq<Facts>)
      requires run in runs
      modifies this
      ensures State() == FailScan(old(State()), run, detected)
    {
      var account := runs[run].account;
      PersistAll(account, run, detected);
      PersistKeepsRuns(old(State()), account, run, detected);
      runs := runs[run := runs[run].(stage := Failed)];
    }
  }

  lemma {:induction false} PersistKeepsRuns(db: Db, account: int, run: int, detected: seq<Facts>)
    ensures PersistFindings(db, account, run, detected).runs == db.runs
  {
    if detected != [] {
      PersistKeepsRuns(db, account, run, detected[..|detected| - 1]);
    }
  }
}
