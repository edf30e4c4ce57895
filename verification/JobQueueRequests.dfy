/**
 Stop and pause requests against a crash: when reclaiming the row of a dead worker gives it the
 status and flags the live worker would have given it.
 */
module JobQueueRequests {
  import opened Wrappers
  import opened JobQueueSpec
  import opened JobQueueProofs

  /* ---- a cancelled conversion was asked to stop or pause ---- */

  /** The request a cancelled goroutine acted on is still on its row. */
  ghost predicate CancelledAsAsked(s: State) {
    forall id :: id in s.live && id in s.rows && s.live[id].cancelled ==> AskedFor(s.live[id], s.rows[id])
  }

  predicate AskedFor(w: Worker, r: Row) {
    if w.pauseTriggered then r.pauseRequested else r.stopRequested
  }

  predicate Flagged(r: Row) {
    r.pauseRequested || r.stopRequested
  }

  /** Every goroutine was there before and its row has not lost a request, or it is not cancelled. */
  ghost predicate NoneUnasked(s: State, t: State) {
    forall id :: id in t.live && id in t.rows && t.live[id].cancelled ==>
      && id in s.live && id in s.rows && t.live[id] == s.live[id]
      && (s.rows[id].pauseRequested ==> t.rows[id].pauseRequested)
      && (s.rows[id].stopRequested ==> t.rows[id].stopRequested)
  }

  lemma StillAsked(s: State, t: State)
    requires CancelledAsAsked(s) && NoneUnasked(s, t)
    ensures CancelledAsAsked(t)
  {
  }

  lemma PollAsked(s: State, id: nat)
    requires CancelledAsAsked(s) && id in s.live
    requires id in s.rows && s.live[id].pauseTriggered ==> s.live[id].cancelled
    ensures CancelledAsAsked(Poll(s, id))
  {
  }

  lemma {:induction false} BulkAsked(s: State, library: string, name: string, input: string, output: string,
                                     volumes: seq<string>, now: nat)
    requires Driven(s)
    ensures NoneUnasked(s, ReconvertBulk(s, library, name, input, output, volumes, now))
    ensures ReconvertBulk(s, library, name, input, output, volumes, now).live == s.live
    ensures s.nextId <= ReconvertBulk(s, library, name, input, output, volumes, now).nextId
    decreases |volumes|
  {
    if volumes != [] {
      BulkAsked(s, library, name, input, output, volumes[..|volumes| - 1], now);
    }
  }

  lemma InsertAsked(s: State, e: Event)
    requires Driven(s) && (e.Uploaded? || e.Reconverted? || e.Scanned?)
    ensures NoneUnasked(s, Step(s, e))
  {
    hide NameTaken, PathTracked;
  }

  lemma FinishAsked(s: State, id: nat, ok: nat, fail: nat, err: Option<string>)
    requires id in s.live && id in s.rows
    ensures NoneUnasked(s, Finish(s, id, ok, fail, err))
  {
    hide FailureText;
  }

  lemma DeleteAsked(s: State, id: nat)
    ensures NoneUnasked(s, Delete(s, id))
  {
  }

  lemma EachAsked(s: State, f: Row -> Row)
    requires Driven(s)
    requires forall r: Row :: r.status == Running ==>
               (r.pauseRequested ==> f(r).pauseRequested) && (r.stopRequested ==> f(r).stopRequested)
    ensures NoneUnasked(s, s.(rows := Each(s.rows, f)))
  {
  }

  lemma RestartAsked(s: State)
    requires Driven(s)
    ensures NoneUnasked(s, Crash(s)) && NoneUnasked(s, Restart(s))
  {
  }

  lemma OneAsked(s: State, e: Event)
    requires Enabled(s, e) && (e.Claimed? || e.VolumeStarted?)
    ensures NoneUnasked(s, Step(s, e))
  {
  }

  lemma StepAsked(s: State, e: Event)
    requires Inv(s) && CancelledAsAsked(s) && Enabled(s, e)
    ensures CancelledAsAsked(Step(s, e))
  {
    hide CancelledAsAsked, NoneUnasked;
    hide Finish, Delete, Restart, ReconvertBulk, ScanFolder, Poll, Claim, Upload, Reconvert;
    match e
    case Polled(id) => PollAsked(s, id);
    case BulkReconverted(library, name, input, output, volumes, now) =>
      BulkAsked(s, library, name, input, output, volumes, now);
      StillAsked(s, Step(s, e));
    case Finished(id, ok, fail, err) =>
      FinishAsked(s, id, ok, fail, err);
      StillAsked(s, Step(s, e));
    case Deleted(id) =>
      DeleteAsked(s, id);
      StillAsked(s, Step(s, e));
    case PausedAll =>
      EachAsked(s, PauseRow);
      StillAsked(s, Step(s, e));
    case ResumedAll =>
      EachAsked(s, ResumeRow);
      StillAsked(s, Step(s, e));
    case Crashed =>
      RestartAsked(s);
      StillAsked(s, Step(s, e));
    case Restarted =>
      RestartAsked(s);
      StillAsked(s, Step(s, e));
    case Claimed(_) =>
      OneAsked(s, e);
      StillAsked(s, Step(s, e));
    case VolumeStarted(_, _) =>
      OneAsked(s, e);
      StillAsked(s, Step(s, e));
    case _ =>
      InsertAsked(s, e);
      StillAsked(s, Step(s, e));
  }

  /** In every run, a cancelled conversion's row still carries the request it was cancelled for. */
  lemma {:induction false} RunCancelledAsAsked(ss: seq<State>, es: seq<Event>, k: nat)
    requires IsRun(ss, es) && ss[0] == Init && k < |ss|
    ensures CancelledAsAsked(ss[k])
  {
    hide Inv, Step, Enabled;
    if k > 0 {
      RunCancelledAsAsked(ss, es, k - 1);
      RunInv(ss, es, k - 1);
      StepAsked(ss[k - 1], es[k - 1]);
    }
  }

  /* ---- reclaiming against serving ---- */

  /** The conversion was cancelled to stop and only then asked to pause as well. */
  predicate PausedTooLate(w: Worker, r: Row) {
    w.cancelled && !w.pauseTriggered && r.pauseRequested
  }

  /** Once polled, a flagged conversion ends stopped or paused whatever it returns. */
  lemma ServedRow(s: State, id: nat, ok: nat, fail: nat, err: Option<string>)
    requires id in s.live && id in s.rows && Flagged(s.rows[id])
    requires s.live[id].pauseTriggered ==> s.live[id].cancelled
    requires s.live[id].cancelled ==> AskedFor(s.live[id], s.rows[id])
    ensures var t := Poll(s, id);
            && t.rows == s.rows && id in t.live
            && t.live[id].cancelled && t.live[id].allowCleanup == s.live[id].allowCleanup
            && FinishedRow(t.live[id], t.rows[id], ok, fail, err)
               == if s.rows[id].pauseRequested && !PausedTooLate(s.live[id], s.rows[id])
                  then PausedRow(s.rows[id]) else StoppedRow(s.rows[id])
  {
  }

  /** In every run: reclaiming a flagged row after a crash gives it what the next poll and the end of
      the conversion would have given it (pause before stop; only the volume shown for a paused row is
      not kept) if and only if the conversion was not cancelled to stop before it was asked to pause.
      The live worker removes files exactly when it stops with nothing converted and may clean up;
      reclaiming never does. */
  lemma ReclaimServesLikePoller(ss: seq<State>, es: seq<Event>, k: nat, id: nat,
                                ok: nat, fail: nat, err: Option<string>)
    requires IsRun(ss, es) && ss[0] == Init && k < |ss|
    requires id in ss[k].live && id in ss[k].rows && Flagged(ss[k].rows[id])
    ensures var s, polled := ss[k], Poll(ss[k], id);
            && id in polled.live && id in polled.rows
            && var ended, back := Finish(polled, id, ok, fail, err), Restart(Crash(s));
            && id in ended.rows && id in back.rows
            && (back.rows[id] == ended.rows[id].(currentVolume := "") <==> !PausedTooLate(s.live[id], s.rows[id]))
            && (ended.wipes != s.wipes <==> ended.rows[id].status == Stopped && ok == 0 && s.live[id].allowCleanup)
            && back.wipes == s.wipes
  {
    hide Inv, Finish, Poll, FinishedRow, Step, Enabled;
    var s := ss[k];
    RunInv(ss, es, k);
    RunCancelledAsAsked(ss, es, k);
    LiveFacts(s, id);
    WorkerFacts(s, id);
    ServedRow(s, id, ok, fail, err);
    var t := Poll(s, id);
    FinishRows(t, id, ok, fail, err);
    FinishParts(t, id, ok, fail, err);
    PollKeepsLog(s, id);
  }

  lemma WorkerFacts(s: State, id: nat)
    requires Inv(s) && id in s.live
    ensures s.live[id].pauseTriggered ==> s.live[id].cancelled
  {
  }

  lemma PollKeepsLog(s: State, id: nat)
    requires id in s.live
    ensures Poll(s, id).wipes == s.wipes
  {
  }

  function OneJob(r: Row, w: Worker): State {
    State(map[0 := r], map[0 := w], true, {}, {}, [], 1)
  }

  lemma OneUpload(r: Row) returns (s1: State, s2: State)
    requires r == QueuedRow("lib", "book", "book-in", "book", false, "", 0)
    ensures Leads(Init, Restarted, s1) && Leads(s1, Uploaded(false, "lib", "book", "book-in", "book", 0), s2)
    ensures Leads(s2, Claimed(0), OneJob(ClaimRow(r), Worker(true, false, false, false)))
  {
    s1 := Step(Init, Restarted);
    s2 := Step(s1, Uploaded(false, "lib", "book", "book-in", "book", 0));
    assert s2.rows == map[0 := r];
    assert Oldest(s2.rows, 0);
  }

  predicate Leads(s: State, e: Event, t: State) {
    Enabled(s, e) && t == Step(s, e)
  }

  lemma StopIsServed(r: Row, w: Worker)
    requires r.status == Running && !r.stopRequested && !r.pauseRequested && !w.cancelled
    ensures var told := r.(stopRequested := true);
            && Leads(OneJob(r, w), Deleted(0), OneJob(told, w))
            && Leads(OneJob(told, w), Polled(0), OneJob(told, w.(cancelled := true)))
  {
  }

  lemma PauseIsNoted(r: Row, w: Worker)
    requires r.status == Running && r.currentVolume == ""
    ensures Leads(OneJob(r, w), PausedAll, OneJob(r.(pauseRequested := true), w))
  {
    assert Each(map[0 := r], PauseRow) == map[0 := r.(pauseRequested := true)];
  }

  lemma StoppedOrPaused(r: Row, w: Worker)
    requires r.status == Running && r.pauseRequested && w == Worker(true, false, true, false)
    ensures var s := OneJob(r, w);
            && PausedTooLate(w, r)
            && var ended, back := Finish(s, 0, 0, 0, None), Restart(Crash(s));
            && 0 in ended.rows && ended.rows[0].status == Stopped && |ended.wipes| == 1
            && 0 in back.rows && back.rows[0].status == Paused && back.wipes == []
  {
  }

  /** The exception is reached: an upload told to stop, and paused with the queue before it has ended.
      The live worker stops it and removes its files; after a crash it is paused and keeps them. */
  lemma PauseMayComeTooLate() returns (ss: seq<State>, es: seq<Event>)
    ensures IsRun(ss, es) && ss[0] == Init
    ensures var s := ss[|es|];
            && 0 in s.live && 0 in s.rows && PausedTooLate(s.live[0], s.rows[0]) && s.wipes == []
            && var ended, back := Finish(s, 0, 0, 0, None), Restart(Crash(s));
            && 0 in ended.rows && ended.rows[0].status == Stopped && |ended.wipes| == 1
            && 0 in back.rows && back.rows[0].status == Paused && back.wipes == []
  {
    hide Step, Enabled, Finish, Restart, Crash;
    var r := ClaimRow(QueuedRow("lib", "book", "book-in", "book", false, "", 0));
    var w := Worker(true, false, false, false);
    var told, cancelled := r.(stopRequested := true), w.(cancelled := true);
    es := [Restarted, Uploaded(false, "lib", "book", "book-in", "book", 0), Claimed(0), Deleted(0), Polled(0),
           PausedAll];
    var s1, s2 := OneUpload(r.(status := Pending));
    StopIsServed(r, w);
    PauseIsNoted(told, cancelled);
    StoppedOrPaused(told.(pauseRequested := true), cancelled);
    ss := [Init, s1, s2, OneJob(r, w), OneJob(told, w), OneJob(told, cancelled),
           OneJob(told.(pauseRequested := true), cancelled)];
  }
}
