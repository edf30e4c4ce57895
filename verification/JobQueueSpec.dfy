/**
 The conversion-job queue (converter/db.go, converter/watch.go, internal/db/converter_jobs.go
 and the handlers of internal/api/converter.go) as a state machine: one table of rows, the
 goroutines of the worker process that drive running rows, and a record of every removal of
 files. Each SQL statement or handler is one step.
 */
module JobQueueSpec {
  import opened Wrappers

  datatype Status = Pending | Running | Paused | Done | Failed | Stopped

  datatype Row = Row(library: string, name: string, input: string, output: string,
                     status: Status, error: string, currentVolume: string,
                     stopRequested: bool, pauseRequested: bool, forceOCR: bool, manual: bool,
                     volume: string, createdAt: nat)

  type Rows = map<nat, Row>

  /** A goroutine of the worker driving one row; direct: started by the folder scan itself. */
  datatype Worker = Worker(allowCleanup: bool, direct: bool, cancelled: bool, pauseTriggered: bool)

  datatype Cause = ByWorker(outcome: Status, converted: nat) | ByDelete

  /** One removal of files: the row it was charged to, as it was just before, and why. */
  datatype Wipe = Wipe(row: Row, cause: Cause)

  /** direct remembers which running rows the folder scan inserted as running; ids below nextId are used. */
  datatype State = State(rows: Rows, live: map<nat, Worker>, up: bool, inProgress: set<string>,
                         direct: set<nat>, wipes: seq<Wipe>, nextId: nat)

  const DEFAULT_ERROR := "no volumes were converted"
  const PARTIAL_ERROR := "some volumes failed to convert"

  predicate Active(r: Row) {
    r.status == Pending || r.status == Running || r.status == Paused
  }

  predicate SameBook(a: Row, b: Row) {
    a.library == b.library && a.name == b.name
  }

  /* ---- what one statement does to one row ---- */

  function ClaimRow(r: Row): Row {
    r.(status := Running)
  }

  function DoneRow(r: Row): Row {
    r.(status := Done, error := "", currentVolume := "", stopRequested := false)
  }

  function FailedRow(r: Row, msg: string): Row {
    r.(status := Failed, error := msg, currentVolume := "", stopRequested := false)
  }

  function StoppedRow(r: Row): Row {
    r.(status := Stopped, currentVolume := "", stopRequested := false)
  }

  /** Keeps current_volume and a stop request. */
  function PausedRow(r: Row): Row {
    r.(status := Paused, pauseRequested := false)
  }

  /** reclaimOrphanedJobs: its three updates ... */
  function PauseOrphan(r: Row): Row {
    if r.status == Running && r.pauseRequested
    then r.(status := Paused, currentVolume := "", pauseRequested := false) else r
  }

  function StopOrphan(r: Row): Row {
    if r.status == Running && r.stopRequested
    then r.(status := Stopped, currentVolume := "", stopRequested := false) else r
  }

  function RequeueOrphan(r: Row): Row {
    if r.status == Running then r.(status := Pending, currentVolume := "") else r
  }

  /** ... and what they come to. */
  function ReclaimRow(r: Row): Row {
    if r.status != Running then r
    else if r.pauseRequested then r.(status := Paused, currentVolume := "", pauseRequested := false)
    else if r.stopRequested then r.(status := Stopped, currentVolume := "", stopRequested := false)
    else r.(status := Pending, currentVolume := "")
  }

  /** PauseQueue: its two updates ... */
  function PauseQueued(r: Row): Row {
    if r.status == Pending then r.(status := Paused) else r
  }

  function AskToPause(r: Row): Row {
    if r.status == Running && r.currentVolume == "" then r.(pauseRequested := true) else r
  }

  /** ... and what they come to: queued rows pause, running ones are asked to unless a volume is under way. */
  function PauseRow(r: Row): Row {
    if r.status == Pending then r.(status := Paused)
    else if r.status == Running && r.currentVolume == "" then r.(pauseRequested := true)
    else r
  }

  function ResumeRow(r: Row): Row {
    if r.status == Paused then r.(status := Pending, pauseRequested := false, currentVolume := "") else r
  }

  /** UPDATE: rewrites every row of the table. */
  function Each(rows: Rows, f: Row -> Row): (m: Rows)
    ensures m.Keys == rows.Keys && forall id :: id in rows ==> m[id] == f(rows[id])
  {
    map id | id in rows :: f(rows[id])
  }

  /* ---- queries ---- */

  /** ConversionJobNameTaken */
  predicate NameTaken(rows: Rows, library: string, name: string) {
    exists id :: id in rows && rows[id].library == library && rows[id].name == name && Active(rows[id])
  }

  /** jobExistsForPath */
  predicate PathTracked(rows: Rows, path: string) {
    exists id :: id in rows && rows[id].input == path && Active(rows[id])
  }

  predicate Blocked(rows: Rows, id: nat)
    requires id in rows
  {
    exists r :: r in rows && rows[r].status == Running && SameBook(rows[r], rows[id])
  }

  predicate Claimable(rows: Rows, id: nat) {
    id in rows && rows[id].status == Pending && !Blocked(rows, id)
  }

  /** A row claimNextJob may return: claimable, and no claimable row was created before it. */
  predicate Oldest(rows: Rows, id: nat) {
    Claimable(rows, id) && forall j :: j in rows && Claimable(rows, j) ==> rows[id].createdAt <= rows[j].createdAt
  }

  /* ---- steps ---- */

  function Insert(s: State, r: Row): State {
    s.(rows := s.rows[s.nextId := r], nextId := s.nextId + 1)
  }

  function QueuedRow(library: string, name: string, input: string, output: string,
                     forceOCR: bool, volume: string, now: nat): Row {
    Row(library, name, input, output, Pending, "", "", false, false, forceOCR, false, volume, now)
  }

  /** uploadArchive: a new book needs a free name, a volume added to a book does not. */
  function Upload(s: State, adding: bool, library: string, name: string, input: string, output: string,
                  now: nat): State {
    if !adding && NameTaken(s.rows, library, name) then s
    else Insert(s, QueuedRow(library, name, input, output, false, "", now))
  }

  /** reconvertSeries without a list of volumes. */
  function Reconvert(s: State, library: string, name: string, input: string, output: string, volume: string,
                     now: nat): State {
    if NameTaken(s.rows, library, name) then s
    else Insert(s, QueuedRow(library, name, input, output, true, volume, now))
  }

  /** CreateReconvertJobsBulk: one transaction, so all rows carry one created_at. */
  function ReconvertBulk(s: State, library: string, name: string, input: string, output: string,
                         volumes: seq<string>, now: nat): State
    decreases |volumes|
  {
    if volumes == [] then s
    else
      var k := |volumes| - 1;
      Insert(ReconvertBulk(s, library, name, input, output, volumes[..k], now),
             QueuedRow(library, name, input, output, true, volumes[k], now))
  }

  /** One folder of scanManualFoldersIn; creates says whether its row could be inserted. */
  function ScanFolder(s: State, library: string, name: string, input: string, output: string,
                      needsConversion: bool, creates: bool, now: nat): State {
    if !s.up || PathTracked(s.rows, input) || !needsConversion || input in s.inProgress || !creates then s
    else
      var r := Row(library, name, input, output, Running, "", "", false, false, false, true, "", now);
      Insert(s, r).(live := s.live[s.nextId := Worker(false, true, false, false)],
                    inProgress := s.inProgress + {input},
                    direct := s.direct + {s.nextId})
  }

  /** claimNextJob taking row id, and the goroutine of processQueuedJob that gets it. */
  function Claim(s: State, id: nat): State
    requires Claimable(s.rows, id)
  {
    var r := s.rows[id];
    s.(rows := s.rows[id := ClaimRow(r)],
       live := s.live[id := Worker(!r.forceOCR && !r.manual, false, false, false)])
  }

  /** updateJobVolume, from a live conversion. */
  function OnVolume(s: State, id: nat, volume: string): State {
    if id in s.rows then s.(rows := s.rows[id := s.rows[id].(currentVolume := volume)]) else s
  }

  /** One tick of the signal poller: pause is looked at before stop. */
  function Poll(s: State, id: nat): State
    requires id in s.live
  {
    if id !in s.rows || s.live[id].cancelled then s
    else if s.rows[id].pauseRequested then
      s.(live := s.live[id := s.live[id].(cancelled := true, pauseTriggered := true)])
    else if s.rows[id].stopRequested then s.(live := s.live[id := s.live[id].(cancelled := true)])
    else s
  }

  function Put(s: State, id: nat, r: Row): State {
    s.(rows := s.rows[id := r])
  }

  function Log(s: State, w: Wipe): State {
    s.(wipes := s.wipes + [w])
  }

  /** The goroutine is gone; a folder it was started for is no longer in progress. */
  function Leave(s: State, id: nat): State
    requires id in s.rows && id in s.live
  {
    s.(live := s.live - {id},
       inProgress := if s.live[id].direct then s.inProgress - {s.rows[id].input} else s.inProgress,
       direct := s.direct - {id})
  }

  function FailureText(fail: nat, err: Option<string>): string {
    if err.Some? then err.value else if fail > 0 then PARTIAL_ERROR else DEFAULT_ERROR
  }

  /** The end of runTrackedConversion, after Convert returned. */
  function Finish(s: State, id: nat, ok: nat, fail: nat, err: Option<string>): State
    requires id in s.live && id in s.rows
  {
    var w, r := s.live[id], s.rows[id];
    var s1 :=
      if w.cancelled && w.pauseTriggered then Put(s, id, PausedRow(r))
      else if w.cancelled then
        var t := Put(s, id, StoppedRow(r));
        if ok == 0 && w.allowCleanup then Log(t, Wipe(r, ByWorker(Stopped, ok))) else t
      else if err.Some? || fail > 0 || ok == 0 then
        var t := Put(s, id, FailedRow(r, FailureText(fail, err)));
        if ok == 0 && w.allowCleanup then Log(t, Wipe(r, ByWorker(Failed, ok))) else t
      else Put(s, id, DoneRow(r));
    Leave(s1, id)
  }

  /** deleteConversionJob: a running row is only flagged, any other is removed. */
  function Delete(s: State, id: nat): State {
    if id !in s.rows then s
    else
      var r := s.rows[id];
      if r.status == Running then Put(s, id, r.(stopRequested := true))
      else
        var t := s.(rows := s.rows - {id});
        if r.input != "" && !r.forceOCR && !r.manual && r.status != Done && r.status != Paused
        then Log(t, Wipe(r, ByDelete)) else t
  }

  function PauseAll(s: State): State {
    s.(rows := Each(s.rows, PauseRow))
  }

  function ResumeAll(s: State): State {
    s.(rows := Each(s.rows, ResumeRow))
  }

  /** The worker process dies: its goroutines and its map of folders are gone. */
  function Crash(s: State): State {
    s.(up := false, live := map[], inProgress := {})
  }

  /** A new worker process: reclaimOrphanedJobs, then its loops. */
  function Restart(s: State): State {
    if s.up then s else s.(up := true, rows := Each(s.rows, ReclaimRow), direct := {})
  }

  datatype Event =
    | Uploaded(adding: bool, library: string, name: string, input: string, output: string, now: nat)
    | Reconverted(library: string, name: string, input: string, output: string, volume: string, now: nat)
    | BulkReconverted(library: string, name: string, input: string, output: string, volumes: seq<string>, now: nat)
    | Scanned(library: string, name: string, input: string, output: string, needsConversion: bool, creates: bool,
              now: nat)
    | Claimed(id: nat)
    | VolumeStarted(id: nat, volume: string)
    | Polled(id: nat)
    | Finished(id: nat, ok: nat, fail: nat, err: Option<string>)
    | Deleted(id: nat)
    | PausedAll
    | ResumedAll
    | Crashed
    | Restarted

  predicate Enabled(s: State, e: Event) {
    match e
    case Claimed(id) => s.up && Oldest(s.rows, id)
    case VolumeStarted(id, _) => id in s.live
    case Polled(id) => id in s.live
    case Finished(id, _, _, _) => id in s.live && id in s.rows
    case _ => true
  }

  function Step(s: State, e: Event): State
    requires Enabled(s, e)
  {
    match e
    case Uploaded(adding, library, name, input, output, now) => Upload(s, adding, library, name, input, output, now)
    case Reconverted(library, name, input, output, volume, now) =>
      Reconvert(s, library, name, input, output, volume, now)
    case BulkReconverted(library, name, input, output, volumes, now) =>
      ReconvertBulk(s, library, name, input, output, volumes, now)
    case Scanned(library, name, input, output, needs, creates, now) =>
      ScanFolder(s, library, name, input, output, needs, creates, now)
    case Claimed(id) => Claim(s, id)
    case VolumeStarted(id, volume) => OnVolume(s, id, volume)
    case Polled(id) => Poll(s, id)
    case Finished(id, ok, fail, err) => Finish(s, id, ok, fail, err)
    case Deleted(id) => Delete(s, id)
    case PausedAll => PauseAll(s)
    case ResumedAll => ResumeAll(s)
    case Crashed => Crash(s)
    case Restarted => Restart(s)
  }

  const Init := State(map[], map[], false, {}, {}, [], 0)

  /** A run: states s[0], s[1], ... joined by enabled events. */
  ghost predicate IsRun(ss: seq<State>, es: seq<Event>) {
    && |ss| == |es| + 1
    && forall i :: 0 <= i < |es| ==> Enabled(ss[i], es[i]) && ss[i + 1] == Step(ss[i], es[i])
  }
}
