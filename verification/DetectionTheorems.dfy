/** What a scan writes for each finding and for its run, field by field. */
module DetectionTheorems {
  import opened Ordering
  import opened Findings
  import opened Workflow
  import opened WorkflowTheorems
  import opened ScanTheorems

  /** A group of the account with the fingerprint of the finding. */
  predicate IsGroupOf(db: Db, gid: int, account: int, f: Facts) {
    gid in db.groups && db.groups[gid].account == account && db.groups[gid].fingerprint == Fingerprint(f)
  }

  lemma LookUpExactly(db: Db, account: int, f: Facts)
    requires IsIndexed(db)
    ensures forall gid :: IsGroupOf(db, gid, account, f) <==> LookUp(db, account, Fingerprint(f)) == Some(gid)
  {
  }

  /** What seeing the finding leaves of the groups and the history. */
  ghost predicate IsSeen(db: Db, after: Db, gid: int, account: int, run: int, f: Facts) {
    if IsGroupOf(db, gid, account, f) then
      var g := db.groups[gid];
      && after.groups == db.groups[gid := g.(lastSeen := Some(run), status := if g.status == Resolved then Open else g.status)]
      && after.index == db.index && after.nextGroup == db.nextGroup
      && after.history == if g.status != Resolved then db.history
                          else db.history + [HistoryRow(gid, Some(Resolved), Open, None, Some("Re-detected on new scan"))]
    else
      && gid == db.nextGroup && gid !in db.groups && after.nextGroup == gid + 1
      && after.groups == db.groups[gid := Group(account, Fingerprint(f), f.check, f.principal, Some(run), Some(run), Open)]
      && after.history == db.history + [HistoryRow(gid, None, Open, None, Some("Detected"))]
  }

  /** A detected finding is filed under the group of its fingerprint in the
      account: a known one is marked as seen, and reopened with a history row if
      it was resolved; an unknown one starts open with its first history row. The
      finding is stored last, with the status of its group. */
  lemma DetectionWrites(db: Db, account: int, run: int, f: Facts)
    requires IsIndexed(db)
    ensures var after := PersistFinding(db, account, run, f);
      exists gid ::
        && IsSeen(db, after, gid, account, run, f)
        && ((exists known :: IsGroupOf(db, known, account, f)) ==> IsGroupOf(db, gid, account, f))
        && gid in after.groups
        && after.findings == db.findings + [FindingRow(run, gid, f, after.groups[gid].status)]
        && after.exceptions == db.exceptions && after.runs == db.runs && after.nextRun == db.nextRun
  {
    LookUpExactly(db, account, f);
    var found := GetOrCreateGroup(db, account, run, f);
    if LookUp(db, account, Fingerprint(f)).None? {
      assert !IsGroupOf(db, found.group, account, f);
    } else {
      assert IsGroupOf(db, found.group, account, f);
    }
    assert IsSeen(db, PersistFinding(db, account, run, f), found.group, account, run, f);
  }

  // ----- runs -----

  /** Another completed run of the account. */
  predicate IsRival(runs: map<int, RunRow>, r: int, account: int, run: int) {
    r in runs && r != run && runs[r].account == account && runs[r].stage == Completed
  }

  /** The compared run is the other completed run of the account with the
      largest id; there is none exactly when there is no such run. */
  lemma PreviousExactly(runs: map<int, RunRow>, account: int, run: int, p: int)
    ensures PreviousRun(runs, account, run) == Some(p) <==>
      IsRival(runs, p, account, run) && forall r :: IsRival(runs, r, account, run) ==> r <= p
    ensures PreviousRun(runs, account, run) == None <==> forall r :: !IsRival(runs, r, account, run)
  {
    forall r ensures r in OtherCompleted(runs, account, run) <==> IsRival(runs, r, account, run) {
    }
    var previous := PreviousRun(runs, account, run);
    if previous.Some? {
      forall r | IsRival(runs, r, account, run) ensures r <= previous.value {
        assert IntGeq(previous.value, r);
      }
    }
  }

  /** A new run is pending, without a score, under an id not used before. */
  lemma NewRunWrites(db: Db, account: int)
    requires IsConsistent(db)
    ensures var after := CreateRun(db, account);
      && db.nextRun !in db.runs && after.nextRun == db.nextRun + 1
      && after.runs == db.runs[db.nextRun := RunRow(account, Pending, 0, map[], None, None)]
      && after.groups == db.groups && after.findings == db.findings && after.history == db.history
  {
  }

  /** A scan that succeeds completes its run with the score and the blast radii
      of the analysis; the counts are there exactly when there is a run to
      compare with. One that fails keeps the row and marks it failed. */
  lemma ScanWrites(db: Db, run: int, analysis: Analysis, detected: seq<Facts>)
    requires IsPending(db, run)
    ensures var after, account := CompleteScan(db, run, analysis), db.runs[run].account;
      && run in after.runs && after.runs[run].account == account && after.runs[run].stage == Completed
      && after.runs[run].composite == analysis.composite && after.runs[run].principals == analysis.principals
      && (after.runs[run].newCount.Some? <==> exists r :: IsRival(db.runs, r, account, run))
      && (after.runs[run].resolvedCount.Some? <==> exists r :: IsRival(db.runs, r, account, run))
      && (forall other :: other != run ==> (other in after.runs <==> other in db.runs))
      && (forall other :: other != run && other in db.runs ==> after.runs[other] == db.runs[other])
    ensures FailScan(db, run, detected).runs == db.runs[run := db.runs[run].(stage := Failed)]
  {
    PersistKeepsRuns(db, db.runs[run].account, run, analysis.findings);
    PersistKeepsRuns(db, db.runs[run].account, run, detected);
    PreviousExactly(db.runs, db.runs[run].account, run, 0);
  }
}
