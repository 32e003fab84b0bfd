/** Exceptions, their expiry, and bulk actions, over every run of the system. */
module ExceptionTheorems {
  import opened Ordering
  import opened Findings
  import opened IsoDates
  import opened Workflow
  import opened WorkflowTheorems

  // ----- one unrevoked row per excepted group -----

  ghost predicate HasNone(exceptions: seq<ExceptionRow>, gid: int) {
    forall j :: 0 <= j < |exceptions| && exceptions[j].group == gid ==> exceptions[j].revoked
  }

  ghost predicate HasOnly(exceptions: seq<ExceptionRow>, gid: int, i: int) {
    && 0 <= i < |exceptions| && exceptions[i].group == gid && !exceptions[i].revoked
    && (forall j :: 0 <= j < |exceptions| && exceptions[j].group == gid && j != i ==> exceptions[j].revoked)
  }

  /** In an exception status: exactly one unrevoked row, of that kind.
      Otherwise: none. */
  ghost predicate Backs(exceptions: seq<ExceptionRow>, gid: int, status: Option<Status>) {
    if status.Some? && IsException(status.value) then
      exists i :: HasOnly(exceptions, gid, i) && exceptions[i].kind == status.value
    else HasNone(exceptions, gid)
  }

  function StatusOf(groups: map<int, Group>, gid: int): Option<Status> {
    if gid in groups then Some(groups[gid].status) else None
  }

  ghost predicate IsBacked(db: Db, gid: int) {
    Backs(db.exceptions, gid, StatusOf(db.groups, gid))
  }

  ghost predicate IsDisciplined(db: Db) {
    forall gid :: IsBacked(db, gid)
  }

  lemma AppendBacks(exceptions: seq<ExceptionRow>, row: ExceptionRow, gid: int, status: Option<Status>)
    requires Backs(exceptions, gid, status) && !row.revoked
    ensures row.group != gid ==> Backs(exceptions + [row], gid, status)
    ensures row.group == gid && IsException(row.kind) && !(status.Some? && IsException(status.value)) ==>
      Backs(exceptions + [row], gid, Some(row.kind))
  {
    var after := exceptions + [row];
    if row.group == gid {
      if !(status.Some? && IsException(status.value)) {
        assert HasOnly(after, gid, |exceptions|);
      }
    } else if status.Some? && IsException(status.value) {
      var i :| HasOnly(exceptions, gid, i) && exceptions[i].kind == status.value;
      assert HasOnly(after, gid, i);
    }
  }

  lemma CloseBacks(exceptions: seq<ExceptionRow>, i: nat, gid: int, status: Option<Status>)
    requires Backs(exceptions, gid, status) && i < |exceptions| && !exceptions[i].revoked
    ensures exceptions[i].group != gid ==> Backs(CloseRow(exceptions, i), gid, status)
    ensures exceptions[i].group == gid ==>
      status.Some? && IsException(status.value) && HasNone(CloseRow(exceptions, i), gid)
  {
    if exceptions[i].group != gid && status.Some? && IsException(status.value) {
      var k :| HasOnly(exceptions, gid, k) && exceptions[k].kind == status.value;
      assert HasOnly(CloseRow(exceptions, i), gid, k);
    }
  }

  /** A status change that leaves the exception rows alone keeps the discipline
      exactly when it neither leaves nor enters an exception status. */
  lemma PlainTransitionDiscipline(db: Db, gid: int, to: Status, actor: Option<int>, note: Option<string>)
    requires IsDisciplined(db) && gid in db.groups && to in Allowed(db.groups[gid].status)
    ensures IsDisciplined(SetStatus(db, gid, to, actor, note)) <==> !IsException(db.groups[gid].status) && !IsException(to)
  {
    var after := SetStatus(db, gid, to, actor, note);
    assert IsBacked(db, gid);
    if !IsException(db.groups[gid].status) && !IsException(to) {
      forall g ensures IsBacked(after, g) {
        assert IsBacked(db, g);
      }
    } else if IsException(to) {
      assert HasNone(db.exceptions, gid);
      assert !IsBacked(after, gid) by {
        assert forall i :: !HasOnly(db.exceptions, gid, i);
      }
    } else {
      var i :| HasOnly(db.exceptions, gid, i);
      assert !HasNone(db.exceptions, gid);
      assert !IsBacked(after, gid);
    }
  }

  lemma CreateExceptionDisciplined(db: Db, gid: int, form: ExceptionForm)
    requires IsDisciplined(db) && gid in db.groups
    ensures IsDisciplined(CreateException(db, gid, form).db)
  {
    CreateExceptionExactly(db, gid, form);
    var after := CreateException(db, gid, form).db;
    if CreateException(db, gid, form).outcome.Done? {
      var row := NewException(gid, form);
      forall g ensures IsBacked(after, g) {
        assert IsBacked(db, g);
        AppendBacks(db.exceptions, row, g, StatusOf(db.groups, g));
      }
    }
  }

  /** Closing the one active row of a group and reopening the group. */
  lemma ReopenDisciplined(db: Db, gid: int, i: nat, actor: Option<int>, note: Option<string>)
    requires IsDisciplined(db) && i < |db.exceptions|
    requires db.exceptions[i].group == gid && !db.exceptions[i].revoked
    ensures gid in db.groups && IsException(db.groups[gid].status)
    ensures IsDisciplined(SetStatus(db.(exceptions := CloseRow(db.exceptions, i)), gid, Open, actor, note))
  {
    assert IsBacked(db, gid);
    CloseBacks(db.exceptions, i, gid, StatusOf(db.groups, gid));
    var after := SetStatus(db.(exceptions := CloseRow(db.exceptions, i)), gid, Open, actor, note);
    forall g ensures IsBacked(after, g) {
      assert IsBacked(db, g);
      CloseBacks(db.exceptions, i, g, StatusOf(db.groups, g));
    }
  }

  lemma RevokeDisciplined(db: Db, gid: int, actor: Option<int>, note: string)
    requires IsDisciplined(db) && gid in db.groups
    ensures IsDisciplined(RevokeException(db, gid, actor, note).db)
  {
    assert IsBacked(db, gid);
    var active := ActiveException(db.exceptions, gid);
    if active.Some? {
      ReopenDisciplined(db, gid, active.value, actor, Some(note));
    } else {
      assert forall i :: !HasOnly(db.exceptions, gid, i);
      if Open in Allowed(db.groups[gid].status) {
        PlainTransitionDiscipline(db, gid, Open, actor, Some(note));
      }
    }
  }

  lemma OnlyActive(exceptions: seq<ExceptionRow>, row: ExceptionRow)
    requires HasNone(exceptions, row.group) && !row.revoked
    ensures ActiveException(exceptions + [row], row.group) == Some(|exceptions|)
  {
  }

  lemma ThereAndBack(db: Db, gid: int, via: Status, exceptions: seq<ExceptionRow>,
      out: (Option<int>, Option<string>), back: (Option<int>, Option<string>))
    requires AreCurrent(db) && gid in db.groups && db.groups[gid].status == Open
    ensures var away := SetStatus(db, gid, via, out.0, out.1).(exceptions := exceptions);
      var home := SetStatus(away, gid, Open, back.0, back.1);
      && home.groups == db.groups && home.findings == db.findings && home.runs == db.runs
      && home.exceptions == exceptions
      && |home.history| == |db.history| + 2 && home.history[..|db.history|] == db.history
  {
  }

  /** Revoking an exception undoes creating it: groups and findings are as they
      were, and of the exception a closed row and two history rows remain. */
  lemma RevokeUndoesCreate(db: Db, gid: int, form: ExceptionForm, actor: Option<int>, note: string)
    requires IsConsistent(db) && IsDisciplined(db) && gid in db.groups
    requires CreateException(db, gid, form).outcome.Done?
    ensures var e := RevokeException(CreateException(db, gid, form).db, gid, actor, note);
      && e.outcome == Done
      && e.db.groups == db.groups && e.db.findings == db.findings && e.db.runs == db.runs
      && e.db.exceptions == db.exceptions + [NewException(gid, form).(revoked := true)]
      && |e.db.history| == |db.history| + 2 && e.db.history[..|db.history|] == db.history
  {
    CreateExceptionExactly(db, gid, form);
    assert IsBacked(db, gid);
    var row := NewException(gid, form);
    OnlyActive(db.exceptions, row);
    var closed := db.exceptions + [row.(revoked := true)];
    assert CloseRow(db.exceptions + [row], |db.exceptions|) == closed;
    var reason := Some(Text.Strip(form.reason));
    var away := SetStatus(db, gid, form.kind, Some(form.actor), reason).(exceptions := closed);
    assert CloseActive(CreateException(db, gid, form).db, gid) == away;
    assert away.groups[gid].status == form.kind && Open in Allowed(form.kind);
    ThereAndBack(db, gid, form.kind, closed, (Some(form.actor), reason), (actor, Some(note)));
  }

  // ----- discipline over whole runs -----

  /** A plain transition that applies moves between ordinary statuses. */
  predicate IsCarefulMove(db: Db, gid: int, action: Action) {
    action.MoveTo? && gid in db.groups && action.to in Allowed(db.groups[gid].status) ==>
      !IsException(db.groups[gid].status) && !IsException(action.to)
  }

  ghost predicate IsCareful(db: Db, req: Request) {
    match req
    case Act(gid, action) => IsCarefulMove(db, gid, action)
    case ActOnMany(gids, action) => forall gid :: gid in gids ==> IsCarefulMove(db, gid, action)
    case _ => true
  }

  ghost predicate IsCarefulPlay(db: Db, reqs: seq<Request>) {
    forall i :: 0 <= i < |reqs| ==> IsCareful(Play(db, reqs[..i]), reqs[i])
  }

  lemma ApplyDisciplined(db: Db, gid: int, action: Action)
    requires IsDisciplined(db) && IsCarefulMove(db, gid, action)
    ensures IsDisciplined(ApplyTo(db, gid, action).db)
  {
    if gid in db.groups {
      match action
      case MoveTo(to, actor, note) =>
        if to in Allowed(db.groups[gid].status) {
          PlainTransitionDiscipline(db, gid, to, actor, note);
        }
      case Except(form) => CreateExceptionDisciplined(db, gid, form);
    }
  }

  lemma CarefulAfter(db: Db, gid: int, done: int, action: Action)
    requires IsCarefulMove(db, gid, action)
    ensures IsCarefulMove(ApplyTo(db, done, action).db, gid, action)
  {
  }

  lemma {:induction false} BulkDisciplined(db: Db, gids: seq<int>, action: Action, later: set<int>)
    requires IsDisciplined(db)
    requires forall gid :: gid in gids || gid in later ==> IsCarefulMove(db, gid, action)
    ensures IsDisciplined(Bulk(db, gids, action).db)
    ensures forall gid :: gid in later ==> IsCarefulMove(Bulk(db, gids, action).db, gid, action)
  {
    if gids != [] {
      var n := |gids| - 1;
      BulkDisciplined(db, gids[..n], action, later + {gids[n]});
      var before := Bulk(db, gids[..n], action).db;
      ApplyDisciplined(before, gids[n], action);
      forall gid | gid in later ensures IsCarefulMove(Bulk(db, gids, action).db, gid, action) {
        CarefulAfter(before, gid, gids[n], action);
      }
    }
  }

  lemma {:induction false} ExpireDisciplined(db: Db, due: seq<nat>)
    requires IsDisciplined(db)
    requires forall a :: 0 <= a < |due| ==> due[a] < |db.exceptions| && !db.exceptions[due[a]].revoked
    requires forall a, b :: 0 <= a < b < |due| ==> due[a] < due[b]
    ensures var r := ExpireRows(db, due);
      && IsDisciplined(r.db)
      && (forall i :: 0 <= i < |db.exceptions| && i !in due ==> r.db.exceptions[i] == db.exceptions[i])
  {
    if due != [] {
      var n := |due| - 1;
      ExpireDisciplined(db, due[..n]);
      var s := ExpireRows(db, due[..n]);
      var i := due[n];
      assert i !in due[..n];
      assert s.db.exceptions[i] == db.exceptions[i];
      var gid := s.db.exceptions[i].group;
      assert IsBacked(s.db, gid);
      ReopenDisciplined(s.db, gid, i, None, Some(EXPIRED_NOTE));
      assert forall j :: j in due <==> j in due[..n] || j == i;
    }
  }

  lemma SeeingDisciplined(db: Db, after: Db, gid: int, account: int, run: int, fp: string)
    requires IsDisciplined(db)
    requires Sees(db.groups, after.groups, gid, account, run, fp) && after.exceptions == db.exceptions
    ensures IsDisciplined(after)
  {
    forall g ensures IsBacked(after, g) {
      assert IsBacked(db, g);
    }
  }

  lemma {:induction false} PersistDisciplined(db: Db, account: int, run: int, detected: seq<Facts>)
    requires IsConsistent(db) && IsPending(db, run) && db.runs[run].account == account && IsDisciplined(db)
    ensures IsDisciplined(PersistFindings(db, account, run, detected))
  {
    if detected != [] {
      var n := |detected| - 1;
      PersistDisciplined(db, account, run, detected[..n]);
      PersistFindingsKeep(db, account, run, detected[..n]);
      var before := PersistFindings(db, account, run, detected[..n]);
      GetOrCreateSees(before, account, run, detected[n]);
      var found := GetOrCreateGroup(before, account, run, detected[n]);
      SeeingDisciplined(before, found.db, found.group, account, run, Fingerprint(detected[n]));
      SameBacking(found.db, PersistFindings(db, account, run, detected));
    }
  }

  lemma ServeDisciplined(db: Db, req: Request)
    requires IsConsistent(db) && IsDisciplined(db) && IsCareful(db, req)
    ensures IsDisciplined(Serve(db, req))
  {
    match req
    case Act(gid, action) => ApplyDisciplined(db, gid, action);
    case ActOnMany(gids, action) => BulkDisciplined(db, gids, action, {});
    case Revoke(gid, actor, note) =>
      if gid in db.groups {
        RevokeDisciplined(db, gid, actor, note);
      }
    case ExpireAt(today) =>
      DueRowsExactly(db.exceptions, Iso(today));
      var due := DueRows(db.exceptions, Iso(today));
      assert forall a :: 0 <= a < |due| ==> due[a] in due;
      ExpireDisciplined(db, due);
    case StartScan(account) => SameBacking(db, Serve(db, req));
    case FinishScan(run, analysis) =>
      if IsPending(db, run) {
        PersistDisciplined(db, db.runs[run].account, run, analysis.findings);
        SameBacking(PersistFindings(db, db.runs[run].account, run, analysis.findings), Serve(db, req));
      }
    case AbortScan(run, detected) =>
      if IsPending(db, run) {
        PersistDisciplined(db, db.runs[run].account, run, detected);
        SameBacking(PersistFindings(db, db.runs[run].account, run, detected), Serve(db, req));
      }
  }

  lemma SameBacking(db: Db, after: Db)
    requires IsDisciplined(db) && after.groups == db.groups && after.exceptions == db.exceptions
    ensures IsDisciplined(after)
  {
    forall gid ensures IsBacked(after, gid) {
      assert IsBacked(db, gid);
    }
  }

  lemma {:induction false} PlayDisciplined(reqs: seq<Request>)
    requires IsCarefulPlay(EmptyDb(), reqs)
    ensures IsDisciplined(Play(EmptyDb(), reqs))
  {
    if reqs != [] {
      var n := |reqs| - 1;
      forall i | 0 <= i < n ensures IsCareful(Play(EmptyDb(), reqs[..n][..i]), reqs[..n][i]) {
        assert reqs[..n][..i] == reqs[..i];
        assert IsCareful(Play(EmptyDb(), reqs[..i]), reqs[i]);
      }
      PlayDisciplined(reqs[..n]);
      assert IsConsistent(EmptyDb());
      PlayKeeps(EmptyDb(), reqs[..n]);
      assert IsCareful(Play(EmptyDb(), reqs[..n]), reqs[n]);
      ServeDisciplined(Play(EmptyDb(), reqs[..n]), reqs[n]);
    }
  }

  /** If no plain transition enters or leaves an exception status, then after
      every run, re-scans included, a group in an exception status has exactly
      one unrevoked row, of its kind, and every other group has none. */
  lemma ExceptionsBackStatuses(reqs: seq<Request>, gid: int)
    requires IsCarefulPlay(EmptyDb(), reqs)
    ensures var db := Play(EmptyDb(), reqs);
      if gid in db.groups && IsException(db.groups[gid].status)
      then exists i :: HasOnly(db.exceptions, gid, i) && db.exceptions[i].kind == db.groups[gid].status
      else HasNone(db.exceptions, gid)
  {
    PlayDisciplined(reqs);
    assert IsBacked(Play(EmptyDb(), reqs), gid);
  }

  // ----- expiry -----

  /** The group is excepted and has a due row. */
  ghost predicate Reopens(db: Db, due: seq<nat>, gid: int) {
    && gid in db.groups && IsException(db.groups[gid].status)
    && exists i :: i in due && i < |db.exceptions| && db.exceptions[i].group == gid
  }

  ghost predicate AreClosed(before: seq<ExceptionRow>, due: seq<nat>, after: seq<ExceptionRow>) {
    && |after| == |before|
    && forall i :: 0 <= i < |before| ==> after[i] == if i in due then before[i].(revoked := true) else before[i]
  }

  ghost predicate AreReopened(before: map<int, Group>, reopened: seq<int>, after: map<int, Group>) {
    && after.Keys == before.Keys
    && (forall gid :: gid in before ==>
          after[gid] == if gid in reopened then before[gid].(status := Open) else before[gid])
    && (forall a, b :: 0 <= a < b < |reopened| ==> reopened[a] != reopened[b])
  }

  /** One history row per reopened group, in order. */
  ghost predicate AreLogged(groups: map<int, Group>, before: seq<HistoryRow>, reopened: seq<int>, after: seq<HistoryRow>) {
    && |after| == |before| + |reopened|
    && after[..|before|] == before
    && forall a :: 0 <= a < |reopened| ==>
         && reopened[a] in groups
         && after[|before| + a]
            == HistoryRow(reopened[a], Some(groups[reopened[a]].status), Open, None, CleanNote(Some(EXPIRED_NOTE)))
  }

  /** What expiring the rows `due` comes to, stated without the loop. */
  ghost predicate HasExpired(db: Db, due: seq<nat>, r: Reopening) {
    && AreClosed(db.exceptions, due, r.db.exceptions)
    && (forall gid :: gid in r.reopened <==> Reopens(db, due, gid))
    && AreReopened(db.groups, r.reopened, r.db.groups)
    && AreLogged(db.groups, db.history, r.reopened, r.db.history)
    && r.db.runs == db.runs && r.db.index == db.index
  }

  lemma {:induction false} ExpireRowsEffect(db: Db, due: seq<nat>)
    requires forall i :: i in due ==> i < |db.exceptions|
    ensures HasExpired(db, due, ExpireRows(db, due))
  {
    if due != [] {
      var n := |due| - 1;
      var i := due[n];
      assert i in due;
      assert forall j :: j in due <==> j in due[..n] || j == i;
      ExpireRowsEffect(db, due[..n]);
      var s := ExpireRows(db, due[..n]);
      assert ExpireRows(db, due) == ExpireRow(s, i);
      CloseStep(db.exceptions, due[..n], due, s.db.exceptions, i);
      ReopensStep(db, due[..n], due, s.reopened, i);
      var gid := db.exceptions[i].group;
      if gid in s.db.groups && IsException(s.db.groups[gid].status) {
        LogStep(db.groups, db.history, s.reopened, s.db.history, gid);
        ReopenStep(db.groups, s.reopened, s.db.groups, gid);
      }
    }
  }

  lemma CloseStep(before: seq<ExceptionRow>, earlier: seq<nat>, due: seq<nat>, after: seq<ExceptionRow>, i: nat)
    requires AreClosed(before, earlier, after) && i < |before|
    requires forall j :: j in due <==> j in earlier || j == i
    ensures after[i].group == before[i].group && AreClosed(before, due, CloseRow(after, i))
  {
  }

  lemma ReopensStep(db: Db, earlier: seq<nat>, due: seq<nat>, reopened: seq<int>, i: nat)
    requires i < |db.exceptions| && forall gid :: gid in reopened <==> Reopens(db, earlier, gid)
    requires forall j :: j in due <==> j in earlier || j == i
    ensures var gid := db.exceptions[i].group; forall h :: Reopens(db, due, h) <==>
      h in reopened || (h == gid && gid in db.groups && IsException(db.groups[gid].status))
  {
    forall h ensures Reopens(db, due, h) <==>
      Reopens(db, earlier, h) || (h == db.exceptions[i].group && h in db.groups && IsException(db.groups[h].status))
    {
      assert i in due && forall j :: j in earlier ==> j in due;
    }
  }

  lemma LogStep(groups: map<int, Group>, before: seq<HistoryRow>, reopened: seq<int>, after: seq<HistoryRow>, gid: int)
    requires AreLogged(groups, before, reopened, after) && gid in groups
    ensures AreLogged(groups, before, reopened + [gid],
      after + [HistoryRow(gid, Some(groups[gid].status), Open, None, CleanNote(Some(EXPIRED_NOTE)))])
  {
  }

  lemma ReopenStep(before: map<int, Group>, reopened: seq<int>, after: map<int, Group>, gid: int)
    requires AreReopened(before, reopened, after) && gid in after && gid !in reopened
    ensures AreReopened(before, reopened + [gid], after[gid := after[gid].(status := Open)])
  {
  }

  lemma {:induction false} NoneDue(exceptions: seq<ExceptionRow>, cutoff: string)
    requires forall i :: 0 <= i < |exceptions| ==> !IsDue(exceptions[i], cutoff)
    ensures DueRows(exceptions, cutoff) == []
  {
    if exceptions != [] {
      NoneDue(exceptions[..|exceptions| - 1], cutoff);
    }
  }

  /** `expire_exceptions` closes exactly the due rows and reopens exactly the
      excepted groups that have one, each once and with one history row; all
      other groups are unchanged, no due row is left, and a second call on the
      same day changes nothing. This holds with stale or several rows per
      group. */
  lemma ExpireEffect(db: Db, today: CalendarDate)
    ensures var due, r := DueRows(db.exceptions, Iso(today)), Expire(db, today);
      && (forall i :: i in due <==> 0 <= i < |db.exceptions| && IsDue(db.exceptions[i], Iso(today)))
      && HasExpired(db, due, r)
      && (forall i :: 0 <= i < |r.db.exceptions| ==> !IsDue(r.db.exceptions[i], Iso(today)))
      && (forall gid :: gid in r.reopened ==> r.db.groups[gid].status == Open)
      && Expire(r.db, today) == Reopening(r.db, [])
  {
    var due, r := DueRows(db.exceptions, Iso(today)), Expire(db, today);
    DueRowsExactly(db.exceptions, Iso(today));
    ExpireRowsEffect(db, due);
    NoneDue(r.db.exceptions, Iso(today));
  }

  /** What the history says of an expiry. */
  lemma ExpiryNote()
    ensures CleanNote(Some(EXPIRED_NOTE)) == Some("Exception expired, auto-reopened")
  {
    Text.StripIdentity(EXPIRED_NOTE);
  }

  // ----- stored expiries are dates -----

  ghost predicate IsDated(exceptions: seq<ExceptionRow>) {
    forall i :: 0 <= i < |exceptions| && exceptions[i].expiresAt.Some? ==>
      exists d: CalendarDate :: exceptions[i].expiresAt.value == Iso(d)
  }

  lemma ApplyDated(db: Db, gid: int, action: Action)
    requires IsDated(db.exceptions)
    ensures IsDated(ApplyTo(db, gid, action).db.exceptions)
  {
  }

  lemma {:induction false} BulkDated(db: Db, gids: seq<int>, action: Action)
    requires IsDated(db.exceptions)
    ensures IsDated(Bulk(db, gids, action).db.exceptions)
  {
    if gids != [] {
      BulkDated(db, gids[..|gids| - 1], action);
      ApplyDated(Bulk(db, gids[..|gids| - 1], action).db, gids[|gids| - 1], action);
    }
  }

  lemma {:induction false} PersistKeepsExceptions(db: Db, account: int, run: int, detected: seq<Facts>)
    ensures PersistFindings(db, account, run, detected).exceptions == db.exceptions
  {
    if detected != [] {
      PersistKeepsExceptions(db, account, run, detected[..|detected| - 1]);
    }
  }

  lemma CompletingKeepsExceptions(db: Db, run: int, analysis: Analysis)
    requires run in db.runs
    ensures CompleteScan(db, run, analysis).exceptions == db.exceptions
  {
    PersistKeepsExceptions(db, db.runs[run].account, run, analysis.findings);
  }

  lemma FailingKeepsExceptions(db: Db, run: int, detected: seq<Facts>)
    requires run in db.runs
    ensures FailScan(db, run, detected).exceptions == db.exceptions
  {
    PersistKeepsExceptions(db, db.runs[run].account, run, detected);
  }

  lemma RevokeDated(db: Db, gid: int, actor: Option<int>, note: string)
    requires IsDated(db.exceptions) && gid in db.groups
    ensures IsDated(RevokeException(db, gid, actor, note).db.exceptions)
  {
  }

  lemma ExpireDated(db: Db, today: CalendarDate)
    requires IsDated(db.exceptions)
    ensures IsDated(Expire(db, today).db.exceptions)
  {
    ExpireEffect(db, today);
  }

  lemma ServeDated(db: Db, req: Request)
    requires IsDated(db.exceptions)
    ensures IsDated(Serve(db, req).exceptions)
  {
    match req
    case Act(gid, action) => ApplyDated(db, gid, action);
    case ActOnMany(gids, action) => BulkDated(db, gids, action);
    case Revoke(gid, actor, note) => if gid in db.groups { RevokeDated(db, gid, actor, note); }
    case ExpireAt(today) => ExpireDated(db, today);
    case StartScan(account) =>
    case FinishScan(run, analysis) => if run in db.runs { CompletingKeepsExceptions(db, run, analysis); }
    case AbortScan(run, detected) => if run in db.runs { FailingKeepsExceptions(db, run, detected); }
  }

  lemma {:induction false} PlayDated(reqs: seq<Request>)
    ensures IsDated(Play(EmptyDb(), reqs).exceptions)
  {
    if reqs != [] {
      PlayDated(reqs[..|reqs| - 1]);
      ServeDated(Play(EmptyDb(), reqs[..|reqs| - 1]), reqs[|reqs| - 1]);
    }
  }

  /** In every reachable state a row is due today exactly when it is unrevoked
      and carries the ISO form of a date that is not after today. */
  lemma DueByDate(reqs: seq<Request>, i: nat, today: CalendarDate)
    requires i < |Play(EmptyDb(), reqs).exceptions|
    ensures var row := Play(EmptyDb(), reqs).exceptions[i];
      IsDue(row, Iso(today)) <==>
        !row.revoked && exists d: CalendarDate :: row.expiresAt == Some(Iso(d)) && DateLeq(d, today)
  {
    PlayDated(reqs);
    var row := Play(EmptyDb(), reqs).exceptions[i];
    if row.expiresAt.Some? {
      forall d: CalendarDate ensures StrLeq(Iso(d), Iso(today)) <==> DateLeq(d, today) {
        IsoOrder(d, today);
      }
    }
  }

  lemma NewRowDue(form: ExceptionForm, gid: int, today: CalendarDate)
    ensures IsDue(NewException(gid, form), Iso(today)) <==> form.expiry.Parsed? && DateLeq(form.expiry.date, today)
  {
    if form.expiry.Parsed? {
      IsoOrder(form.expiry.date, today);
    }
  }

  /** A new exception lapses on its expiry date and not before, and one without
      a date never does. */
  lemma LapsesOnItsDate(db: Db, gid: int, form: ExceptionForm, today: CalendarDate)
    requires IsDisciplined(db) && gid in db.groups && CreateException(db, gid, form).outcome.Done?
    ensures var after := CreateException(db, gid, form).db;
      gid in Expire(after, today).reopened <==> form.expiry.Parsed? && DateLeq(form.expiry.date, today)
  {
    CreateExceptionExactly(db, gid, form);
    NewRowDue(form, gid, today);
    var after := CreateException(db, gid, form).db;
    assert after.groups[gid].status == form.kind && IsException(form.kind);
    OnlyRowOfGroup(db, gid, form);
    ReopenedByOnlyRow(after, gid, |db.exceptions|, today);
  }

  lemma OnlyRowOfGroup(db: Db, gid: int, form: ExceptionForm)
    requires IsDisciplined(db) && gid in db.groups && CreateException(db, gid, form).outcome.Done?
    ensures var after := CreateException(db, gid, form).db;
      && after.exceptions == db.exceptions + [NewException(gid, form)]
      && forall i :: 0 <= i < |db.exceptions| && after.exceptions[i].group == gid ==> after.exceptions[i].revoked
  {
    CreateExceptionExactly(db, gid, form);
    assert IsBacked(db, gid);
  }

  /** An excepted group with one unrevoked row is reopened exactly when that row is due. */
  lemma ReopenedByOnlyRow(db: Db, gid: int, n: nat, today: CalendarDate)
    requires gid in db.groups && IsException(db.groups[gid].status)
    requires n < |db.exceptions| && db.exceptions[n].group == gid
    requires forall i :: 0 <= i < |db.exceptions| && db.exceptions[i].group == gid && i != n ==> db.exceptions[i].revoked
    ensures gid in Expire(db, today).reopened <==> IsDue(db.exceptions[n], Iso(today))
  {
    var due := DueRows(db.exceptions, Iso(today));
    ExpireEffect(db, today);
    assert Reopens(db, due, gid) <==> n in due;
  }

  // ----- bulk actions -----

  function Target(action: Action): Status {
    match action
    case MoveTo(to, _, _) => to
    case Except(form) => form.kind
  }

  /** Whether the action would succeed on the group alone. */
  predicate IsEligible(db: Db, gid: int, action: Action) {
    && gid in db.groups
    && Target(action) in Allowed(db.groups[gid].status)
    && (action.Except? ==> Refusal(action.form).None?)
  }

  function FailedIds(failed: seq<(int, Outcome)>): seq<int> {
    if failed == [] then [] else FailedIds(failed[..|failed| - 1]) + [failed[|failed| - 1].0]
  }

  ghost predicate IsPartition(gids: seq<int>, succeeded: seq<int>, failed: seq<(int, Outcome)>) {
    multiset(succeeded) + multiset(FailedIds(failed)) == multiset(gids)
  }

  ghost predicate AreMoved(before: map<int, Group>, succeeded: seq<int>, to: Status, after: map<int, Group>) {
    && after.Keys == before.Keys
    && (forall gid :: gid in before ==>
          after[gid] == if gid in succeeded then before[gid].(status := to) else before[gid])
    && (forall a, b :: 0 <= a < b < |succeeded| ==> succeeded[a] != succeeded[b])
  }

  /** What a bulk action comes to, stated without the loop. */
  ghost predicate IsBulkResult(db: Db, gids: seq<int>, action: Action, r: BulkResult) {
    && (forall gid :: gid in r.succeeded <==> gid in gids && IsEligible(db, gid, action))
    && IsPartition(gids, r.succeeded, r.failed)
    && AreMoved(db.groups, r.succeeded, Target(action), r.db.groups)
    && |r.db.history| == |db.history| + |r.succeeded|
    && |r.db.exceptions| == |db.exceptions| + (if action.Except? then |r.succeeded| else 0)
  }

  lemma ApplyEffect(db: Db, gid: int, action: Action)
    ensures var e := ApplyTo(db, gid, action);
      && (e.outcome == Done <==> IsEligible(db, gid, action))
      && (e.outcome != Done ==> e.db == db)
      && (e.outcome == Done ==>
            && e.db.groups == db.groups[gid := db.groups[gid].(status := Target(action))]
            && |e.db.history| == |db.history| + 1
            && |e.db.exceptions| == |db.exceptions| + (if action.Except? then 1 else 0))
  {
  }

  lemma MoveStep(before: map<int, Group>, succeeded: seq<int>, to: Status, after: map<int, Group>, gid: int)
    requires AreMoved(before, succeeded, to, after) && gid in after && to in Allowed(after[gid].status)
    ensures gid !in succeeded
    ensures AreMoved(before, succeeded + [gid], to, after[gid := after[gid].(status := to)])
  {
  }

  lemma PartitionStep(gids: seq<int>, succeeded: seq<int>, failed: seq<(int, Outcome)>, gid: int, outcome: Outcome)
    requires IsPartition(gids, succeeded, failed)
    ensures IsPartition(gids + [gid], succeeded + [gid], failed)
    ensures IsPartition(gids + [gid], succeeded, failed + [(gid, outcome)])
  {
  }

  /** Success of one item does not decide the eligibility of another. */
  lemma EligibleStep(db: Db, s: Db, succeeded: seq<int>, gid: int, action: Action)
    requires AreMoved(db.groups, succeeded, Target(action), s.groups)
    ensures IsEligible(s, gid, action) <==> IsEligible(db, gid, action) && gid !in succeeded
  {
  }

  lemma {:induction false} BulkEffect(db: Db, gids: seq<int>, action: Action)
    ensures IsBulkResult(db, gids, action, Bulk(db, gids, action))
  {
    if gids == [] {
      assert FailedIds([]) == [];
    } else {
      var n := |gids| - 1;
      BulkEffect(db, gids[..n], action);
      BulkStep(db, gids[..n], gids[n], action, Bulk(db, gids[..n], action));
      assert gids == gids[..n] + [gids[n]];
    }
  }

  lemma BulkStep(db: Db, gids: seq<int>, gid: int, action: Action, s: BulkResult)
    requires IsBulkResult(db, gids, action, s)
    ensures IsBulkResult(db, gids + [gid], action, BulkOne(s, gid, action))
  {
    var e := ApplyTo(s.db, gid, action);
    ApplyEffect(s.db, gid, action);
    EligibleStep(db, s.db, s.succeeded, gid, action);
    PartitionStep(gids, s.succeeded, s.failed, gid, e.outcome);
    if IsEligible(s.db, gid, action) {
      MoveStep(db.groups, s.succeeded, Target(action), s.db.groups, gid);
    }
  }

  /** A bulk action reaches exactly the groups it could have reached one by one,
      each once; a repeated id fails the second time, and a bad reason, date or
      role changes nothing. */
  lemma BulkIsItemByItem(db: Db, gids: seq<int>, action: Action)
    ensures IsBulkResult(db, gids, action, Bulk(db, gids, action))
    ensures action.Except? && Refusal(action.form).Some? ==>
      Bulk(db, gids, action).succeeded == [] && Bulk(db, gids, action).db == db
  {
    BulkEffect(db, gids, action);
    if action.Except? && Refusal(action.form).Some? {
      RefusedBulk(db, gids, action);
    }
  }

  lemma {:induction false} RefusedBulk(db: Db, gids: seq<int>, action: Action)
    requires action.Except? && Refusal(action.form).Some?
    ensures Bulk(db, gids, action).succeeded == [] && Bulk(db, gids, action).db == db
  {
    if gids != [] {
      RefusedBulk(db, gids[..|gids| - 1], action);
    }
  }
}
