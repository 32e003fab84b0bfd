/** Which moves and exceptions the finding workflow accepts and what they
    write, status by status and field by field. */
module StatusTheorems {
  import opened Ordering
  import opened Text
  import opened Findings
  import opened IsoDates
  import opened Workflow
  import opened WorkflowTheorems
  import opened RunExamples

  // ----- moves -----

  /** A finding is resolved out of investigation only; investigation and the two
      exceptions start from open; open is reached from the four others. */
  lemma MoveAcceptedExactly(db: Db, gid: int, to: Status, actor: Option<int>, note: Option<string>)
    requires gid in db.groups
    ensures var done, from := ApplyTo(db, gid, MoveTo(to, actor, note)).outcome == Done, db.groups[gid].status;
      && (to == Resolved ==> (done <==> from == Investigating))
      && (to == Investigating || to == Suppressed || to == AcceptedRisk ==> (done <==> from == Open))
      && (to == Open ==> (done <==> from == Investigating || from == Resolved || from == Suppressed || from == AcceptedRisk))
      && (to.OtherStatus? ==> !done)
    ensures ApplyTo(db, gid, MoveTo(to, actor, note)).outcome != Done ==>
      ApplyTo(db, gid, MoveTo(to, actor, note)) == Effect(InvalidTransition(db.groups[gid].status, to), db)
  {
  }

  /** A note is kept without the white space around it, and dropped if there is
      nothing else. */
  ghost predicate IsKeptNote(note: Option<string>, kept: Option<string>) {
    && (kept.None? <==> note.None? || AllSpace(note.value))
    && (kept.Some? ==> IsTrimmed(note.value, kept.value))
  }

  lemma CleanNoteIsKept(note: Option<string>)
    ensures IsKeptNote(note, CleanNote(note))
  {
    if note.Some? {
      StripIsTrimmed(note.value);
    }
  }

  /** `row` as the move leaves it: the snapshot of the last run carries the new
      status, every other row is as it was. */
  predicate IsSnapshot(before: FindingRow, after: FindingRow, gid: int, lastSeen: Option<int>, to: Status) {
    && after.run == before.run && after.group == before.group && after.facts == before.facts
    && after.status == if before.group == gid && lastSeen.Some? && before.run == lastSeen.value then to else before.status
  }

  ghost predicate IsHistoryOf(row: HistoryRow, gid: int, from: Status, to: Status, actor: Option<int>, note: Option<string>) {
    row.group == gid && row.from == Some(from) && row.to == to && row.actor == actor && IsKeptNote(note, row.note)
  }

  /** What a move to `to` writes. */
  ghost predicate HasMoved(db: Db, after: Db, gid: int, to: Status, actor: Option<int>, note: Option<string>)
    requires gid in db.groups
  {
    && after.groups == db.groups[gid := db.groups[gid].(status := to)]
    && |after.history| == |db.history| + 1 && after.history[..|db.history|] == db.history
    && IsHistoryOf(after.history[|db.history|], gid, db.groups[gid].status, to, actor, note)
    && |after.findings| == |db.findings|
    && (forall i :: 0 <= i < |db.findings| ==>
          IsSnapshot(db.findings[i], after.findings[i], gid, db.groups[gid].lastSeen, to))
    && after.index == db.index && after.nextGroup == db.nextGroup && after.runs == db.runs && after.nextRun == db.nextRun
  }

  lemma SetStatusMoves(db: Db, gid: int, to: Status, actor: Option<int>, note: Option<string>)
    requires gid in db.groups
    ensures HasMoved(db, SetStatus(db, gid, to, actor, note), gid, to, actor, note)
    ensures SetStatus(db, gid, to, actor, note).exceptions == db.exceptions
  {
    CleanNoteIsKept(note);
  }

  /** An accepted move writes one history row, the status and the snapshots of
      the run the group was last seen in, and nothing else. */
  lemma MoveWrites(db: Db, gid: int, to: Status, actor: Option<int>, note: Option<string>)
    requires gid in db.groups && ApplyTo(db, gid, MoveTo(to, actor, note)).outcome == Done
    ensures var after := ApplyTo(db, gid, MoveTo(to, actor, note)).db;
      HasMoved(db, after, gid, to, actor, note) && after.exceptions == db.exceptions
  {
    SetStatusMoves(db, gid, to, actor, note);
  }

  // ----- exceptions -----

  /** The caller may accept risks: unchecked, or an admin outside public mode. */
  predicate MayAccept(form: ExceptionForm) {
    form.role.None? || (form.role.value == "admin" && !form.publicMode)
  }

  lemma ValidFormExactly(form: ExceptionForm)
    ensures Refusal(form) == None <==>
      && (form.kind == Suppressed || (form.kind == AcceptedRisk && MayAccept(form)))
      && !AllSpace(form.reason) && !form.expiry.Unparseable?
    ensures Refusal(form) == Some(PermissionDenied) <==> form.kind == AcceptedRisk && !MayAccept(form)
    ensures Refusal(form).Some? ==> Refusal(form).value == PermissionDenied || Refusal(form).value == ExceptionError
  {
    StripIsTrimmed(form.reason);
  }

  /** An exception is created exactly on an open group, for one of the two kinds,
      with a reason that is not all white space and no unreadable date, and an
      accepted risk only by a caller that may accept it. */
  lemma ExceptionAcceptedExactly(db: Db, gid: int, form: ExceptionForm)
    requires gid in db.groups
    ensures var e := CreateException(db, gid, form);
      && (e.outcome == Done <==>
            && db.groups[gid].status == Open
            && (form.kind == Suppressed || (form.kind == AcceptedRisk && MayAccept(form)))
            && !AllSpace(form.reason) && !form.expiry.Unparseable?)
      && (e.outcome == PermissionDenied <==> form.kind == AcceptedRisk && !MayAccept(form))
      && (e.outcome.InvalidTransition? ==> e.outcome == InvalidTransition(db.groups[gid].status, form.kind))
      && (e.outcome != Done ==> e.db == db)
  {
    ValidFormExactly(form);
    CreateExceptionExactly(db, gid, form);
  }

  ghost predicate IsRowOf(row: ExceptionRow, gid: int, form: ExceptionForm) {
    && row.group == gid && row.kind == form.kind && row.createdBy == form.actor && !row.revoked
    && IsTrimmed(form.reason, row.reason)
    && row.expiresAt == (if form.expiry.Parsed? then Some(Iso(form.expiry.date)) else None)
  }

  /** A created exception moves the group and adds one unrevoked row with the
      trimmed reason and the ISO form of the date. */
  lemma ExceptionWrites(db: Db, gid: int, form: ExceptionForm)
    requires gid in db.groups && CreateException(db, gid, form).outcome == Done
    ensures var after := CreateException(db, gid, form).db;
      && |after.exceptions| == |db.exceptions| + 1 && after.exceptions[..|db.exceptions|] == db.exceptions
      && IsRowOf(after.exceptions[|db.exceptions|], gid, form)
      && exists note :: IsTrimmed(form.reason, note) && HasMoved(db, after, gid, form.kind, Some(form.actor), Some(note))
  {
    StripIsTrimmed(form.reason);
    SetStatusMoves(db, gid, form.kind, Some(form.actor), Some(Strip(form.reason)));
  }

  // ----- every status is reached -----

  function Move(to: Status): Request {
    Act(1, MoveTo(to, None, None))
  }

  /** A scan that detects `f`, and the moves that lead its group to `status`. */
  function Towards(f: Facts, status: Status): seq<Request> {
    [StartScan(1), FinishScan(1, Analysis([f], 0, map[]))]
    + match status
      case Investigating => [Move(Investigating)]
      case Resolved => [Move(Investigating), Move(Resolved)]
      case Suppressed => [Move(Suppressed)]
      case AcceptedRisk => [Move(AcceptedRisk)]
      case _ => []
  }

  lemma Detected(f: Facts)
    ensures IsAfterFirst(Play(EmptyDb(), Towards(f, Open)), f, Open)
  {
    var once := Analysis([f], 0, map[]);
    PlayAppend([], StartScan(1));
    PlayAppend([StartScan(1)], FinishScan(1, once));
    assert [] + [StartScan(1)] == [StartScan(1)] && [StartScan(1)] + [FinishScan(1, once)] == Towards(f, Open);
    FirstScan(f, once);
  }

  lemma Moved(db: Db, f: Facts, from: Status, to: Status)
    requires IsAfterFirst(db, f, from)
    requires (from == Open && (to == Investigating || to == Suppressed || to == AcceptedRisk)) || (from == Investigating && to == Resolved)
    ensures IsAfterFirst(Serve(db, Move(to)), f, to)
  {
    MoveAcceptedExactly(db, 1, to, None, None);
    MoveWrites(db, 1, to, None, None);
  }

  /** Each of the five statuses is the status of some reachable group. */
  lemma EveryStatusIsReached(f: Facts, status: Status)
    requires !status.OtherStatus?
    ensures var db := Play(EmptyDb(), Towards(f, status)); 1 in db.groups && db.groups[1].status == status
  {
    Detected(f);
    var start := Towards(f, Open);
    if status != Open {
      var first := if status == Resolved then Investigating else status;
      PlayAppend(start, Move(first));
      Moved(Play(EmptyDb(), start), f, Open, first);
      if status == Resolved {
        var longer := start + [Move(Investigating)];
        PlayAppend(longer, Move(Resolved));
        Moved(Play(EmptyDb(), longer), f, Investigating, Resolved);
        assert longer + [Move(Resolved)] == Towards(f, Resolved);
      } else {
        assert start + [Move(status)] == Towards(f, status);
      }
    }
  }
}
