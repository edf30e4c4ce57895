/**
 What every run of the conversion queue keeps: who is converting, which flags rows carry,
 what happened to requests, and what files were removed for whom.
 */
module JobQueueProofs {
  import opened Wrappers
  import opened JobQueueSpec

  predicate Terminal(r: Row) {
    !Active(r)
  }

  /** Files may be removed for this row: its folders were staged by an upload. */
  predicate Disposable(r: Row) {
    !r.forceOCR && !r.manual
  }

  /* ---- the invariant ---- */

  /** A goroutine runs for exactly the running rows while the worker is up, for none while it is down. */
  ghost predicate Driven(s: State) {
    && (forall id :: id in s.rows ==> id < s.nextId)
    && (forall id :: id in s.live ==> id in s.rows && s.rows[id].status == Running)
    && (s.up ==> forall id :: id in s.rows && s.rows[id].status == Running ==> id in s.live)
    && (!s.up ==> s.live == map[])
  }

  /** Queued rows carry no pause request and no volume; ended rows carry no stop request. */
  ghost predicate FlagsOk(rows: Rows) {
    forall id :: id in rows ==>
      var r := rows[id];
      && (r.status == Pending ==> !r.pauseRequested && r.currentVolume == "")
      && (r.status == Paused ==> !r.pauseRequested)
      && (Terminal(r) ==> !r.stopRequested)
  }

  /** Only disposable rows may be cleaned up; what the folder scan started is a manual row. */
  ghost predicate WorkersOk(s: State) {
    && (forall id :: id in s.live && id in s.rows ==>
          && (s.live[id].allowCleanup ==> Disposable(s.rows[id]))
          && (s.live[id].pauseTriggered ==> s.live[id].cancelled))
    && (forall id :: id in s.direct ==> id in s.rows && s.rows[id].status == Running && s.rows[id].manual)
  }

  /** Two running rows of one book: the folder scan started one of them. */
  ghost predicate BookExclusive(s: State) {
    forall i, j :: i in s.rows && j in s.rows && i != j && Rivals(s.rows[i], s.rows[j]) ==>
      i in s.direct || j in s.direct
  }

  predicate Rivals(a: Row, b: Row) {
    a.status == Running && b.status == Running && SameBook(a, b)
  }

  predicate Justified(w: Wipe) {
    Disposable(w.row)
    && match w.cause
       case ByWorker(outcome, converted) =>
         (outcome == Stopped || outcome == Failed) && converted == 0 && w.row.status == Running
       case ByDelete => w.row.status == Pending || w.row.status == Failed || w.row.status == Stopped
  }

  ghost predicate WipesOk(s: State) {
    forall k :: 0 <= k < |s.wipes| ==> Justified(s.wipes[k])
  }

  ghost predicate Inv(s: State) {
    Driven(s) && FlagsOk(s.rows) && WorkersOk(s) && BookExclusive(s) && WipesOk(s)
  }

  lemma InitInv()
    ensures Inv(Init)
  {
  }

  lemma InsertInv(s: State, r: Row)
    requires Inv(s) && r.status == Pending && !r.pauseRequested && r.currentVolume == ""
    ensures Inv(Insert(s, r))
  {
  }

  lemma {:induction false} BulkInv(s: State, library: string, name: string, input: string, output: string,
                                   volumes: seq<string>, now: nat)
    requires Inv(s)
    ensures Inv(ReconvertBulk(s, library, name, input, output, volumes, now))
    decreases |volumes|
  {
    hide Inv;
    if volumes != [] {
      var k := |volumes| - 1;
      BulkInv(s, library, name, input, output, volumes[..k], now);
      InsertInv(ReconvertBulk(s, library, name, input, output, volumes[..k], now),
                QueuedRow(library, name, input, output, true, volumes[k], now));
    }
  }

  /** t has one pending row for each volume more than s, in order. */
  ghost predicate Bulked(s: State, t: State, library: string, name: string, input: string, output: string,
                         volumes: seq<string>, now: nat) {
    && t.nextId == s.nextId + |volumes|
    && (forall id :: id in t.rows <==> id in s.rows || s.nextId <= id < t.nextId)
    && (forall id :: id in s.rows ==> t.rows[id] == s.rows[id])
    && (forall i :: 0 <= i < |volumes| ==>
          t.rows[s.nextId + i]
          == Row(library, name, input, output, Pending, "", "", false, false, true, false, volumes[i], now))
  }

  lemma BulkedOne(s: State, t: State, library: string, name: string, input: string, output: string,
                  volumes: seq<string>, v: string, now: nat)
    requires Bulked(s, t, library, name, input, output, volumes, now)
    requires forall id :: id in s.rows ==> id < s.nextId
    ensures Bulked(s, Insert(t, QueuedRow(library, name, input, output, true, v, now)),
                   library, name, input, output, volumes + [v], now)
  {
    Queued(library, name, input, output, true, v, now);
    hide QueuedRow;
  }

  lemma {:induction false} BulkRows(s: State, library: string, name: string, input: string, output: string,
                                    volumes: seq<string>, now: nat)
    requires Inv(s)
    ensures Bulked(s, ReconvertBulk(s, library, name, input, output, volumes, now),
                   library, name, input, output, volumes, now)
    decreases |volumes|
  {
    IdsBelowNext(s);
    if volumes != [] {
      hide Inv, QueuedRow, Insert, Bulked;
      var k := |volumes| - 1;
      BulkRows(s, library, name, input, output, volumes[..k], now);
      BulkedOne(s, ReconvertBulk(s, library, name, input, output, volumes[..k], now),
                library, name, input, output, volumes[..k], volumes[k], now);
      assert volumes == volumes[..k] + [volumes[k]];
    }
  }

  lemma Queued(library: string, name: string, input: string, output: string, forceOCR: bool, volume: string, now: nat)
    ensures QueuedRow(library, name, input, output, forceOCR, volume, now)
         == Row(library, name, input, output, Pending, "", "", false, false, forceOCR, false, volume, now)
  {
  }

  lemma IdsBelowNext(s: State)
    requires Inv(s)
    ensures forall id :: id in s.rows ==> id < s.nextId
  {
  }

  lemma ScanInv(s: State, library: string, name: string, input: string, output: string,
                needs: bool, creates: bool, now: nat)
    requires Inv(s)
    ensures Inv(ScanFolder(s, library, name, input, output, needs, creates, now))
  {
  }

  lemma ClaimInv(s: State, id: nat)
    requires Inv(s) && s.up && Claimable(s.rows, id)
    ensures Inv(Claim(s, id))
  {
    hide WipesOk, BookExclusive;
    ClaimBooks(s, id);
    ClaimLog(s, id);
  }

  lemma ClaimBooks(s: State, id: nat)
    requires BookExclusive(s) && Claimable(s.rows, id)
    ensures BookExclusive(Claim(s, id))
  {
    assert forall j :: j in s.rows && s.rows[j].status == Running ==> !SameBook(s.rows[j], s.rows[id]);
  }

  lemma ClaimLog(s: State, id: nat)
    requires Claimable(s.rows, id)
    ensures WipesOk(Claim(s, id)) <==> WipesOk(s)
  {
  }

  /** Changes to a running row that leave it running and its identity alone. */
  lemma TouchRowInv(s: State, id: nat, r: Row)
    requires Inv(s) && id in s.rows && s.rows[id].status == Running
    requires r.status == Running && SameIdentity(s.rows[id], r)
    ensures Inv(Put(s, id, r))
  {
  }

  lemma PollInv(s: State, id: nat)
    requires Inv(s) && id in s.live
    ensures Inv(Poll(s, id))
  {
  }

  /** A goroutine ends with its row no longer running. */
  lemma LeaveInv(s: State, id: nat, r: Row)
    requires Inv(s) && id in s.live
    requires r.status != Running && r.status != Pending && SameIdentity(s.rows[id], r)
    requires r.status == Paused ==> !r.pauseRequested
    requires Terminal(r) ==> !r.stopRequested
    ensures Inv(Leave(Put(s, id, r), id))
  {
  }

  lemma LogInv(s: State, w: Wipe)
    requires Inv(s) && Justified(w)
    ensures Inv(Log(s, w))
  {
  }

  lemma FinishInv(s: State, id: nat, ok: nat, fail: nat, err: Option<string>)
    requires Inv(s) && id in s.live && id in s.rows
    ensures Inv(Finish(s, id, ok, fail, err))
  {
    hide Inv, Leave, Finish;
    var w, r := s.live[id], s.rows[id];
    LiveFacts(s, id);
    var r' := FinishedRow(w, r, ok, fail, err);
    LeaveInv(s, id, r');
    FinishParts(s, id, ok, fail, err);
    if Wipes(w, r', ok) {
      LogInv(Leave(Put(s, id, r'), id), Wipe(r, ByWorker(r'.status, ok)));
    }
  }

  /** The condition under which the end of a conversion removes files. */
  predicate Wipes(w: Worker, r': Row, ok: nat) {
    (r'.status == Stopped || r'.status == Failed) && ok == 0 && w.allowCleanup
  }

  lemma FinishParts(s: State, id: nat, ok: nat, fail: nat, err: Option<string>)
    requires id in s.live && id in s.rows
    ensures var w, r' := s.live[id], FinishedRow(s.live[id], s.rows[id], ok, fail, err);
            var t := Leave(Put(s, id, r'), id);
            Finish(s, id, ok, fail, err)
            == if Wipes(w, r', ok) then Log(t, Wipe(s.rows[id], ByWorker(r'.status, ok))) else t
  {
  }

  lemma FinishRows(s: State, id: nat, ok: nat, fail: nat, err: Option<string>)
    requires id in s.live && id in s.rows
    ensures var t := Finish(s, id, ok, fail, err);
            t.rows == s.rows[id := FinishedRow(s.live[id], s.rows[id], ok, fail, err)] && t.nextId == s.nextId
  {
  }

  /** The row as runTrackedConversion leaves it. */
  function FinishedRow(w: Worker, r: Row, ok: nat, fail: nat, err: Option<string>): Row {
    if w.cancelled && w.pauseTriggered then PausedRow(r)
    else if w.cancelled then StoppedRow(r)
    else if err.Some? || fail > 0 || ok == 0 then FailedRow(r, FailureText(fail, err))
    else DoneRow(r)
  }

  /** How a conversion ends, in the source's own terms: paused or stopped if it was cancelled, done if it
      converted something without a failure, and failed with a reason otherwise. */
  predicate Ends(w: Worker, r: Row, end: Row, ok: nat, fail: nat, err: Option<string>) {
    && (end.status == Paused <==> w.cancelled && w.pauseTriggered)
    && (end.status == Stopped <==> w.cancelled && !w.pauseTriggered)
    && (end.status == Done <==> !w.cancelled && err == None && fail == 0 && ok > 0)
    && (end.status == Failed <==> !w.cancelled && (err != None || fail > 0 || ok == 0))
    && end.error == (if end.status == Done then ""
                     else if end.status != Failed then r.error
                     else if err.Some? then err.value
                     else if fail > 0 then "some volumes failed to convert"
                     else "no volumes were converted")
    && (if end.status == Paused
        then end.currentVolume == r.currentVolume && end.stopRequested == r.stopRequested && !end.pauseRequested
        else end.currentVolume == "" && !end.stopRequested && end.pauseRequested == r.pauseRequested)
    && end.library == r.library && end.name == r.name && end.input == r.input && end.output == r.output
    && end.forceOCR == r.forceOCR && end.manual == r.manual && end.volume == r.volume
    && end.createdAt == r.createdAt
  }

  /** Every end of a conversion: its row ends so, its files go exactly if it ends stopped or failed with nothing
      converted and may clean up, and nothing else changes. */
  lemma FinishOutcome(s: State, id: nat, ok: nat, fail: nat, err: Option<string>)
    requires id in s.live && id in s.rows
    ensures var t := Finish(s, id, ok, fail, err);
            && id in t.rows && Ends(s.live[id], s.rows[id], t.rows[id], ok, fail, err)
            && t.rows == s.rows[id := t.rows[id]] && t.live == s.live - {id}
            && t.wipes == s.wipes +
                 (if t.rows[id].status in {Stopped, Failed} && ok == 0 && s.live[id].allowCleanup
                  then [Wipe(s.rows[id], ByWorker(t.rows[id].status, ok))] else [])
  {
    FinishRows(s, id, ok, fail, err);
    FinishParts(s, id, ok, fail, err);
    hide Finish;
  }

  lemma LiveFacts(s: State, id: nat)
    requires Inv(s) && id in s.live
    ensures id in s.rows && s.rows[id].status == Running
    ensures s.live[id].allowCleanup ==> Disposable(s.rows[id])
  {
  }

  lemma DeleteInv(s: State, id: nat)
    requires Inv(s)
    ensures Inv(Delete(s, id))
  {
    if id in s.rows && s.rows[id].status == Running {
      TouchRowInv(s, id, s.rows[id].(stopRequested := true));
    } else if id in s.rows {
      var t := s.(rows := s.rows - {id});
      assert Inv(t);
    }
  }

  lemma EachInv(s: State, f: Row -> Row)
    requires Inv(s)
    requires forall r :: SameIdentity(r, f(r)) && (f(r).status == Running <==> r.status == Running)
    requires FlagsOk(Each(s.rows, f))
    ensures Inv(s.(rows := Each(s.rows, f)))
  {
  }

  lemma PauseInv(s: State)
    requires Inv(s)
    ensures Inv(PauseAll(s))
  {
    EachInv(s, PauseRow);
  }

  lemma ResumeInv(s: State)
    requires Inv(s)
    ensures Inv(ResumeAll(s))
  {
    EachInv(s, ResumeRow);
  }

  /** Resuming undoes a pause: queued rows are as before, ended ones too, and a running row differs at most by
      the request to pause. */
  lemma ResumeUndoesPause(s: State, id: nat)
    requires Inv(s) && id in s.rows && s.rows[id].status != Paused
    ensures var r, back := s.rows[id], ResumeAll(PauseAll(s)).rows;
            && id in back
            && (r.status != Running ==> back[id] == r)
            && (r.status == Running ==> back[id] == r.(pauseRequested := r.pauseRequested || r.currentVolume == ""))
  {
  }

  /** A crash takes the goroutines and the folders in progress with it, and leaves every row and file. */
  lemma CrashInv(s: State)
    requires Inv(s)
    ensures Inv(Crash(s))
    ensures Crash(s).rows == s.rows && Crash(s).wipes == s.wipes && Crash(s).live == map[] && Crash(s).inProgress == {}
  {
  }

  lemma ReclaimedRows(rows: Rows)
    requires FlagsOk(rows)
    ensures FlagsOk(Each(rows, ReclaimRow))
    ensures forall id :: id in rows ==> Each(rows, ReclaimRow)[id].status != Running
  {
  }

  lemma RestartInv(s: State)
    requires Inv(s)
    ensures Inv(Restart(s))
  {
    hide FlagsOk, ReclaimRow;
    ReclaimedRows(s.rows);
  }

  lemma StepInv(s: State, e: Event)
    requires Inv(s) && Enabled(s, e)
    ensures Inv(Step(s, e))
  {
    hide Inv, Finish, Delete, Restart, ScanFolder, ReconvertBulk, Poll, Claim, Insert;
    match e
    case Uploaded(_, library, name, input, output, now) =>
      InsertInv(s, QueuedRow(library, name, input, output, false, "", now));
    case Reconverted(library, name, input, output, volume, now) =>
      InsertInv(s, QueuedRow(library, name, input, output, true, volume, now));
    case BulkReconverted(library, name, input, output, volumes, now) =>
      BulkInv(s, library, name, input, output, volumes, now);
    case Scanned(library, name, input, output, needs, creates, now) =>
      ScanInv(s, library, name, input, output, needs, creates, now);
    case Claimed(id) => ClaimInv(s, id);
    case VolumeStarted(id, volume) =>
      LiveFacts(s, id);
      TouchRowInv(s, id, s.rows[id].(currentVolume := volume));
    case Polled(id) => PollInv(s, id);
    case Finished(id, ok, fail, err) => FinishInv(s, id, ok, fail, err);
    case Deleted(id) => DeleteInv(s, id);
    case PausedAll => PauseInv(s);
    case ResumedAll => ResumeInv(s);
    case Crashed => CrashInv(s);
    case Restarted => RestartInv(s);
  }

  /** The invariant holds in every state of every run. */
  lemma {:induction false} RunInv(ss: seq<State>, es: seq<Event>, k: nat)
    requires IsRun(ss, es) && ss[0] == Init && k < |ss|
    ensures Inv(ss[k])
  {
    hide Inv;
    if k == 0 {
      InitInv();
    } else {
      RunInv(ss, es, k - 1);
      StepInv(ss[k - 1], es[k - 1]);
    }
  }

  /* ---- what becomes of a row ---- */

  /** The columns no statement ever writes after the insert. */
  predicate SameIdentity(a: Row, b: Row) {
    && SameBook(a, b) && a.input == b.input && a.output == b.output && a.forceOCR == b.forceOCR
    && a.manual == b.manual && a.volume == b.volume && a.createdAt == b.createdAt
  }

  /** What a row may have become: an ended row is as it was; a stop request is still set, or was served. */
  predicate LaterRow(a: Row, b: Row) {
    && SameIdentity(a, b)
    && (Terminal(a) ==> b == a)
    && (a.stopRequested ==> b.stopRequested || Terminal(b))
  }

  ghost predicate Later(s: State, t: State) {
    && s.nextId <= t.nextId
    && (forall id :: id in s.rows ==> id < s.nextId)
    && (forall id :: id in t.rows && id < s.nextId ==> id in s.rows)
    && (forall id :: id in s.rows && id in t.rows ==> LaterRow(s.rows[id], t.rows[id]))
  }

  lemma {:induction false} BulkLater(s: State, library: string, name: string, input: string, output: string,
                                     volumes: seq<string>, now: nat)
    requires Inv(s)
    ensures Later(s, ReconvertBulk(s, library, name, input, output, volumes, now))
    decreases |volumes|
  {
    if volumes != [] {
      var k := |volumes| - 1;
      BulkLater(s, library, name, input, output, volumes[..k], now);
      BulkInv(s, library, name, input, output, volumes[..k], now);
    }
  }

  lemma StepLater(s: State, e: Event)
    requires Inv(s) && Enabled(s, e)
    ensures Later(s, Step(s, e))
  {
    match e
    case Uploaded(_, _, _, _, _, _) => InsertLater(s, e);
    case Reconverted(_, _, _, _, _, _) => InsertLater(s, e);
    case Scanned(_, _, _, _, _, _, _) => InsertLater(s, e);
    case BulkReconverted(library, name, input, output, volumes, now) =>
      BulkLater(s, library, name, input, output, volumes, now);
    case Finished(id, ok, fail, err) =>
      FinishLater(s, id, ok, fail, err);
    case PausedAll => AllLater(s, e);
    case ResumedAll => AllLater(s, e);
    case Restarted => AllLater(s, e);
    case Deleted(id) => DeleteLater(s, id);
    case _ => OneLater(s, e);
  }

  lemma DeleteLater(s: State, id: nat)
    requires Inv(s)
    ensures Later(s, Delete(s, id))
  {
  }

  lemma InsertLater(s: State, e: Event)
    requires Inv(s) && (e.Uploaded? || e.Reconverted? || e.Scanned?)
    ensures Later(s, Step(s, e))
  {
  }

  lemma EachLater(s: State, f: Row -> Row)
    requires Driven(s) && forall r :: LaterRow(r, f(r))
    ensures Later(s, s.(rows := Each(s.rows, f)))
  {
    hide LaterRow;
  }

  lemma AllLater(s: State, e: Event)
    requires Inv(s) && (e.PausedAll? || e.ResumedAll? || e.Restarted?)
    ensures Later(s, Step(s, e))
  {
    EachLater(s, PauseRow);
    EachLater(s, ResumeRow);
    EachLater(s, ReclaimRow);
    LaterSelf(s);
  }

  lemma PutLater(s: State, id: nat, r: Row)
    requires Driven(s) && id in s.rows && LaterRow(s.rows[id], r)
    ensures Later(s, Put(s, id, r))
  {
  }

  lemma OneLater(s: State, e: Event)
    requires Inv(s) && Enabled(s, e)
    requires e.Claimed? || e.VolumeStarted? || e.Polled? || e.Crashed?
    ensures Later(s, Step(s, e))
  {
    hide WipesOk, BookExclusive, WorkersOk, FlagsOk, Later;
    LaterSelf(s);
    match e
    case Claimed(id) =>
      PutLater(s, id, ClaimRow(s.rows[id]));
      LaterByRows(s, Put(s, id, ClaimRow(s.rows[id])), Step(s, e));
    case VolumeStarted(id, volume) =>
      PutLater(s, id, s.rows[id].(currentVolume := volume));
    case Polled(_) => LaterByRows(s, s, Step(s, e));
    case Crashed => LaterByRows(s, s, Step(s, e));
  }

  lemma LaterByRows(s: State, t: State, u: State)
    requires Later(s, t) && u.rows == t.rows && u.nextId == t.nextId
    ensures Later(s, u)
  {
  }

  lemma FinishedLater(w: Worker, r: Row, ok: nat, fail: nat, err: Option<string>)
    requires r.status == Running
    ensures LaterRow(r, FinishedRow(w, r, ok, fail, err))
  {
  }

  lemma FinishLater(s: State, id: nat, ok: nat, fail: nat, err: Option<string>)
    requires Inv(s) && id in s.live && id in s.rows
    ensures Later(s, Finish(s, id, ok, fail, err))
  {
    hide Finish, FinishedRow, WipesOk, BookExclusive, WorkersOk;
    FinishRows(s, id, ok, fail, err);
    LiveFacts(s, id);
    FinishedLater(s.live[id], s.rows[id], ok, fail, err);
  }

  /** Over any stretch of any run: done, failed and stopped rows never change again, a deleted row
      never returns, and a stop request stays set until the row has ended or is gone. */
  lemma {:induction false} RequestsSurvive(ss: seq<State>, es: seq<Event>, i: nat, k: nat)
    requires IsRun(ss, es) && ss[0] == Init && i <= k < |ss|
    ensures Later(ss[i], ss[k])
    decreases k
  {
    hide Inv, Step, Enabled, LaterRow;
    if i == k {
      RunInv(ss, es, k);
      LaterSelf(ss[k]);
    } else {
      RequestsSurvive(ss, es, i, k - 1);
      RunInv(ss, es, k - 1);
      StepLater(ss[k - 1], es[k - 1]);
      LaterTransitive(ss[i], ss[k - 1], ss[k]);
    }
  }

  lemma LaterSelf(s: State)
    requires Inv(s)
    ensures Later(s, s)
  {
  }

  lemma LaterTransitive(s: State, t: State, u: State)
    requires Later(s, t) && Later(t, u)
    ensures Later(s, u)
  {
  }

  /* ---- removal of files ---- */

  /** A step removes files for at most one row: one that ends stopped or failed with nothing
      converted, or one that is deleted; never for a pause, a reconvert or a manual folder. */
  lemma WipeIsCharged(s: State, e: Event)
    requires Inv(s) && Enabled(s, e) && Step(s, e).wipes != s.wipes
    ensures (e.Finished? || e.Deleted?) && e.id in s.rows
    ensures Step(s, e).wipes == s.wipes + [Step(s, e).wipes[|s.wipes|]] && |Step(s, e).wipes| == |s.wipes| + 1
    ensures Step(s, e).wipes[|s.wipes|].row == s.rows[e.id] && Disposable(s.rows[e.id])
    ensures e.Finished? ==> e.ok == 0 && e.id in Step(s, e).rows && Step(s, e).rows[e.id].status in {Stopped, Failed}
    ensures e.Deleted? ==> e.id !in Step(s, e).rows
  {
    match e
    case BulkReconverted(library, name, input, output, volumes, now) =>
      BulkWipes(s, library, name, input, output, volumes, now);
    case Finished(id, ok, fail, err) =>
      LiveFacts(s, id);
      FinishRows(s, id, ok, fail, err);
    case _ =>
  }

  lemma {:induction false} BulkWipes(s: State, library: string, name: string, input: string, output: string,
                                     volumes: seq<string>, now: nat)
    ensures ReconvertBulk(s, library, name, input, output, volumes, now).wipes == s.wipes
    decreases |volumes|
  {
    if volumes != [] {
      BulkWipes(s, library, name, input, output, volumes[..|volumes| - 1], now);
    }
  }

  /* ---- one conversion at a time ---- */

  /** Where the folder scan started nothing, at most one row of a book is running. */
  lemma RunBookExclusive(ss: seq<State>, es: seq<Event>, k: nat, i: nat, j: nat)
    requires IsRun(ss, es) && ss[0] == Init && k < |ss|
    requires i in ss[k].rows && j in ss[k].rows && i != j
    requires ss[k].rows[i].status == Running && ss[k].rows[j].status == Running
    requires SameBook(ss[k].rows[i], ss[k].rows[j])
    ensures i in ss[k].direct || j in ss[k].direct
    ensures ss[k].rows[i].manual || ss[k].rows[j].manual
  {
    RunInv(ss, es, k);
  }
}
