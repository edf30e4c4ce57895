/**
 The conversion queue in the form of the source: a table whose rows each SQL statement
 rewrites, and the worker's goroutines. Every method is tied to the state machine of
 JobQueueSpec, so what JobQueueProofs and JobQueueDrain say of runs holds of its calls.
 */
module JobQueue {
  import opened Wrappers
  import opened Spec = JobQueueSpec
  import opened JobQueueProofs
  import Drain = JobQueueDrain
  import Requests = JobQueueRequests

  class Queue {
    var rows: Rows
    var nextId: nat
    var live: map<nat, Worker>
    var up: bool
    var inProgress: set<string>

    ghost var direct: set<nat>
    ghost var wipes: seq<Wipe>

    ghost function S(): State
      reads this
    {
      State(rows, live, up, inProgress, direct, wipes, nextId)
    }

    constructor ()
      ensures S() == Init
    {
      rows, nextId, live, up, inProgress := map[], 0, map[], false, {};
      direct, wipes := {}, [];
    }

    /* ---- internal/db/converter_jobs.go ---- */

    method InsertRow(r: Row)
      modifies this`rows, this`nextId
      ensures S() == Insert(old(S()), r)
      ensures rows == old(rows)[old(nextId) := r] && nextId == old(nextId) + 1
    {
      rows := rows[nextId := r];
      nextId := nextId + 1;
    }

    /** A created row is the only change, and from then on the folder scan leaves its folder alone. */
    twostate predicate Queued(input: string)
      reads this
    {
      && old(nextId) !in old(rows) && nextId == old(nextId) + 1
      && old(nextId) in rows && rows[old(nextId)].status == Pending && rows[old(nextId)].input == input
      && rows - {old(nextId)} == old(rows)
      && live == old(live) && inProgress == old(inProgress) && wipes == old(wipes)
      && PathTracked(rows, input)
    }

    /** The row just created is the one active row of its book and can be claimed at once. */
    twostate predicate AloneInBook()
      reads this
    {
      && Claimable(rows, old(nextId))
      && forall id :: id in rows && Active(rows[id]) && SameBook(rows[id], rows[old(nextId)]) ==> id == old(nextId)
    }

    /** No row of the name is queued, running or paused. */
    static ghost predicate NameFree(rows: Rows, library: string, name: string) {
      forall id :: id in rows && rows[id].library == library && rows[id].name == name ==>
        rows[id].status in {Done, Failed, Stopped}
    }

    /** The enqueue of uploadArchive. */
    method CreateConversionJob(adding: bool, library: string, name: string, input: string, output: string, now: nat)
      returns (created: bool)
      requires Inv(S())
      modifies this
      ensures Inv(S()) && S() == Upload(old(S()), adding, library, name, input, output, now)
      ensures created <==> adding || NameFree(old(rows), library, name)
      ensures if created then Queued(input) else S() == old(S())
      ensures created ==>
                rows[old(nextId)]
                == Row(library, name, input, output, Pending, "", "", false, false, false, false, "", now)
      ensures created && !adding ==> AloneInBook()
    {
      hide Inv;
      if !adding && NameTaken(rows, library, name) {
        return false;
      }
      Enqueue(QueuedRow(library, name, input, output, false, "", now));
      return true;
    }

    /** The enqueue of reconvertSeries for a whole book or one volume. */
    method CreateReconvertJob(library: string, name: string, input: string, output: string, volume: string, now: nat)
      returns (created: bool)
      requires Inv(S())
      modifies this
      ensures Inv(S()) && S() == Reconvert(old(S()), library, name, input, output, volume, now)
      ensures created <==> NameFree(old(rows), library, name)
      ensures if created then Queued(input) && AloneInBook() else S() == old(S())
      ensures created ==>
                rows[old(nextId)]
                == Row(library, name, input, output, Pending, "", "", false, false, true, false, volume, now)
    {
      hide Inv;
      if NameTaken(rows, library, name) {
        return false;
      }
      Enqueue(QueuedRow(library, name, input, output, true, volume, now));
      return true;
    }

    method Enqueue(r: Row)
      requires Inv(S())
      requires r.status == Pending && !r.pauseRequested && r.currentVolume == ""
      modifies this
      ensures Inv(S()) && S() == Insert(old(S()), r)
      ensures Queued(r.input) && rows[old(nextId)] == r
      ensures !NameTaken(old(rows), r.library, r.name) ==> AloneInBook()
    {
      InsertInv(S(), r);
      hide FlagsOk, WorkersOk, BookExclusive, WipesOk;
      InsertRow(r);
    }

    /** One pending row for each volume, in order, with one creation time; nothing else changes. */
    method CreateReconvertJobsBulk(library: string, name: string, input: string, output: string,
                                   volumes: seq<string>, now: nat)
      requires Inv(S())
      modifies this`rows, this`nextId
      ensures Inv(S()) && S() == ReconvertBulk(old(S()), library, name, input, output, volumes, now)
      ensures nextId == old(nextId) + |volumes|
      ensures forall id :: id in rows <==> id in old(rows) || old(nextId) <= id < nextId
      ensures forall id :: id in old(rows) ==> rows[id] == old(rows)[id]
      ensures forall i :: 0 <= i < |volumes| ==>
                rows[old(nextId) + i]
                == Row(library, name, input, output, Pending, "", "", false, false, true, false, volumes[i], now)
    {
      hide Inv, Insert, QueuedRow;
      BulkInv(S(), library, name, input, output, volumes, now);
      BulkRows(S(), library, name, input, output, volumes, now);
      for i := 0 to |volumes|
        invariant S() == ReconvertBulk(old(S()), library, name, input, output, volumes[..i], now)
      {
        InsertRow(QueuedRow(library, name, input, output, true, volumes[i], now));
        assert volumes[..i + 1][..i] == volumes[..i];
      }
      assert volumes[..|volumes|] == volumes;
    }

    /** Two updates in turn make one. */
    static lemma EachTwice(rows: Rows, f: Row -> Row, g: Row -> Row, h: Row -> Row)
      requires forall r :: h(r) == g(f(r))
      ensures Each(Each(rows, f), g) == Each(rows, h)
    {
    }

    static lemma EachThrice(rows: Rows, f: Row -> Row, g: Row -> Row, h: Row -> Row, all: Row -> Row)
      requires forall r :: all(r) == h(g(f(r)))
      ensures Each(Each(Each(rows, f), g), h) == Each(rows, all)
    {
    }

    static lemma ReclaimRowInOne(r: Row)
      ensures ReclaimRow(r) == RequeueOrphan(StopOrphan(PauseOrphan(r)))
    {
    }

    static lemma PauseInOne(rows: Rows)
      ensures Each(Each(rows, PauseQueued), AskToPause) == Each(rows, PauseRow)
    {
      EachTwice(rows, PauseQueued, AskToPause, PauseRow);
    }

    static lemma PausedRows(s: State)
      requires Inv(s)
      ensures var t := Each(s.rows, PauseRow);
              && t.Keys == s.rows.Keys
              && forall id :: id in t ==>
                   && LaterRow(s.rows[id], t[id]) && t[id].status != Pending
                   && (t[id].status == Running ==>
                         t[id].pauseRequested || (t[id].currentVolume != "" && t[id] == s.rows[id]))
    {
      hide Inv;
    }

    /** Afterwards nothing is queued; a running row was asked to pause unless it is in the middle of a volume,
        and no row lost a request, its book or its folder. */
    method PauseQueue()
      requires Inv(S())
      modifies this`rows
      ensures Inv(S()) && S() == PauseAll(old(S()))
      ensures rows.Keys == old(rows).Keys && forall id :: id in rows ==> LaterRow(old(rows)[id], rows[id])
      ensures forall id :: id in rows ==> rows[id].status != Pending
      ensures forall id :: id in rows && rows[id].status == Running ==>
                rows[id].pauseRequested || (rows[id].currentVolume != "" && rows[id] == old(rows)[id])
    {
      hide Each, Inv, LaterRow, PauseRow, PauseQueued, AskToPause;
      PauseInv(S());
      PausedRows(S());
      PauseInOne(rows);
      rows := Each(rows, PauseQueued);
      rows := Each(rows, AskToPause);
    }

    /** Afterwards nothing is paused: what was is queued with its identity and stop request, and every other
        row is as it was. */
    method ResumeQueue()
      requires Inv(S())
      modifies this`rows
      ensures Inv(S()) && S() == ResumeAll(old(S()))
      ensures rows.Keys == old(rows).Keys && forall id :: id in rows ==> rows[id].status != Paused
      ensures forall id :: id in rows && old(rows)[id].status != Paused ==> rows[id] == old(rows)[id]
      ensures forall id :: id in rows && old(rows)[id].status == Paused ==>
                && rows[id].status == Pending && SameIdentity(old(rows)[id], rows[id])
                && rows[id].stopRequested == old(rows)[id].stopRequested
    {
      ResumeInv(S());
      hide Inv;
      rows := Each(rows, ResumeRow);
    }

    /** deleteConversionJob: a running row stays and is told to stop, any other is gone; no other row and no
        conversion changes. wiped says whether the input folder was removed: exactly when the row was an upload
        of its own folder that is queued, failed or stopped. */
    method DeleteConversionJob(id: nat) returns (wiped: bool)
      requires Inv(S())
      modifies this`rows, this`wipes
      ensures Inv(S()) && S() == Delete(old(S()), id)
      ensures forall j :: j != id ==> (j in rows <==> j in old(rows)) && (j in rows ==> rows[j] == old(rows)[j])
      ensures id in rows <==> id in old(rows) && old(rows)[id].status == Running
      ensures id in rows ==> rows[id].stopRequested && LaterRow(old(rows)[id], rows[id])
      ensures wiped <==>
                && id in old(rows) && old(rows)[id].input != "" && Disposable(old(rows)[id])
                && old(rows)[id].status in {Pending, Failed, Stopped}
      ensures wipes == if wiped then old(wipes) + [Wipe(old(rows)[id], ByDelete)] else old(wipes)
    {
      DeleteInv(S(), id);
      hide Inv;
      wiped := false;
      if id !in rows {
        return;
      }
      var j := rows[id];
      if j.status == Running {
        rows := rows[id := j.(stopRequested := true)];
        return;
      }
      rows := rows - {id};
      if j.input != "" && !j.forceOCR && !j.manual && j.status != Done && j.status != Paused {
        wiped := true;
        wipes := wipes + [Wipe(j, ByDelete)];
      }
    }

    /* ---- converter/db.go ---- */

    /** Three updates in turn; together they do to each row what ReclaimRow says. */
    method ReclaimOrphanedJobs()
      modifies this`rows
      ensures rows == Each(old(rows), ReclaimRow)
    {
      forall r ensures ReclaimRow(r) == RequeueOrphan(StopOrphan(PauseOrphan(r))) {
        ReclaimRowInOne(r);
      }
      hide Each, ReclaimRow, RequeueOrphan, StopOrphan, PauseOrphan;
      EachThrice(rows, PauseOrphan, StopOrphan, RequeueOrphan, ReclaimRow);
      rows := Each(rows, PauseOrphan);
      rows := Each(rows, StopOrphan);
      rows := Each(rows, RequeueOrphan);
    }

    /** The row is queued and none of its book runs. */
    static ghost predicate Waits(rows: Rows, id: nat) {
      && id in rows && rows[id].status == Pending
      && forall k :: k in rows && rows[k].status == Running ==>
           !(rows[k].library == rows[id].library && rows[k].name == rows[id].name)
    }

    static lemma WaitsIsClaimable(rows: Rows)
      ensures forall id :: Waits(rows, id) <==> Claimable(rows, id)
    {
    }

    /** Marks an oldest claimable row as running, if there is a claimable row. */
    method ClaimNextJob() returns (j: Option<nat>)
      modifies this`rows
      ensures j.None? ==> rows == old(rows) && forall id :: id in rows ==> !Waits(rows, id)
      ensures j.Some? ==>
                && Waits(old(rows), j.value)
                && (forall k :: Waits(old(rows), k) ==> old(rows)[j.value].createdAt <= old(rows)[k].createdAt)
                && rows == old(rows)[j.value := old(rows)[j.value].(status := Running)]
                && Oldest(old(rows), j.value)
    {
      WaitsIsClaimable(rows);
      if exists id :: id in rows && Claimable(rows, id) {
        Drain.OldestExists(rows);
        var id :| id in rows && Oldest(rows, id);
        rows := rows[id := ClaimRow(rows[id])];
        return Some(id);
      }
      return None;
    }

    /** The volume mokuro is on. While one is named, pausing the queue leaves the conversion alone. */
    method UpdateJobVolume(id: nat, volume: string)
      requires Inv(S()) && id in live
      modifies this`rows
      ensures Inv(S()) && S() == OnVolume(old(S()), id, volume)
      ensures rows.Keys == old(rows).Keys && forall j :: j in rows && j != id ==> rows[j] == old(rows)[j]
      ensures id in rows && LaterRow(old(rows)[id], rows[id]) && rows[id].status == Running
      ensures rows[id] == old(rows)[id].(currentVolume := volume)
      ensures volume != "" ==> PauseRow(rows[id]) == rows[id]
    {
      LiveFacts(S(), id);
      TouchRowInv(S(), id, rows[id].(currentVolume := volume));
      hide Inv;
      if id in rows {
        rows := rows[id := rows[id].(currentVolume := volume)];
      }
    }

    /* ---- converter/watch.go ---- */

    /** Starting the worker process. Nothing is left running: what a dead worker left is queued again, or paused
        or stopped if it had been asked to; every other row is as it was, and no file is removed. */
    method StartWatch()
      requires Inv(S()) && !up
      modifies this`rows, this`up, this`direct
      ensures Inv(S()) && S() == Restart(old(S())) && up
      ensures rows.Keys == old(rows).Keys && forall id :: id in rows ==> rows[id].status != Running
      ensures forall id :: id in rows && old(rows)[id].status != Running ==> rows[id] == old(rows)[id]
      ensures forall id :: id in rows && old(rows)[id].status == Running ==>
                var r := old(rows)[id].(currentVolume := "");
                rows[id] == if r.pauseRequested then r.(status := Paused, pauseRequested := false)
                            else if r.stopRequested then r.(status := Stopped, stopRequested := false)
                            else r.(status := Pending)
      ensures live == old(live) && wipes == old(wipes) && inProgress == old(inProgress)
    {
      RestartInv(S());
      hide Inv;
      ReclaimOrphanedJobs();
      up := true;
      direct := {};
    }

    /** Claims rows until none is claimable: one oldest row of every book that has none running. */
    method DrainQueue()
      requires up && Inv(S())
      modifies this
      ensures Inv(S()) && up
      ensures Drain.Drained(old(rows), rows)
      ensures forall id :: id in rows && rows[id].status == Pending ==> Blocked(rows, id)
      ensures forall id :: id in rows && Drain.IsClaim(old(rows), rows, id) ==>
                id in live && live[id] == Worker(!rows[id].forceOCR && !rows[id].manual, false, false, false)
      ensures nextId == old(nextId) && inProgress == old(inProgress) && wipes == old(wipes)
    {
      hide Inv, Drain.Drained, Drain.Measure, Oldest, Blocked, Waits;
      Drain.DrainedSelf(rows);
      while true
        invariant Inv(S()) && up && rows.Keys == old(rows.Keys)
        invariant Drain.Drained(old(rows), rows)
        invariant forall id :: id in rows && Drain.IsClaim(old(rows), rows, id) ==>
                    id in live && live[id] == Worker(!rows[id].forceOCR && !rows[id].manual, false, false, false)
        invariant nextId == old(nextId) && inProgress == old(inProgress) && wipes == old(wipes)
        decreases Drain.Measure(rows)
      {
        ghost var before := S();
        var j := ClaimNextJob();
        if j.None? {
          WaitsIsClaimable(rows);
          return;
        }
        var id := j.value;
        OldestIsClaimable(before.rows, id);
        live := live[id := Worker(!rows[id].forceOCR && !rows[id].manual, false, false, false)];
        assert S() == Claim(before, id);
        ClaimInv(before, id);
        Drain.ClaimMeasure(before, id);
        Drain.DrainStep(old(rows), before.rows, id);
        DrainedKeys(old(rows), before.rows);
      }
    }

    static lemma OldestIsClaimable(rows: Rows, id: nat)
      requires Oldest(rows, id)
      ensures Claimable(rows, id)
    {
    }

    static lemma DrainedKeys(rows: Rows, rows': Rows)
      requires Drain.Drained(rows, rows')
      ensures rows'.Keys == rows.Keys
    {
    }

    /** One tick of the goroutine that watches for stop and pause. A conversion with a request ends paused
        or stopped after it, whatever Convert returns; one without a request goes on. */
    method PollSignals(id: nat)
      requires Inv(S()) && Requests.CancelledAsAsked(S()) && id in live
      modifies this`live
      ensures Inv(S()) && Requests.CancelledAsAsked(S()) && S() == Poll(old(S()), id)
      ensures id in rows && live.Keys == old(live).Keys && forall j :: j in live && j != id ==> live[j] == old(live)[j]
      ensures Requests.Flagged(rows[id]) ==> forall ok, fail, err ::
                FinishedRow(live[id], rows[id], ok, fail, err)
                == if rows[id].pauseRequested && !Requests.PausedTooLate(old(live)[id], rows[id])
                   then PausedRow(rows[id]) else StoppedRow(rows[id])
      ensures !rows[id].pauseRequested && !rows[id].stopRequested ==>
                live[id] == old(live)[id] && !live[id].cancelled
      ensures rows[id].pauseRequested || rows[id].stopRequested ==>
                && live[id].cancelled && live[id].allowCleanup == old(live)[id].allowCleanup
                && (live[id].pauseTriggered <==>
                      if old(live)[id].cancelled then old(live)[id].pauseTriggered else rows[id].pauseRequested)
    {
      PollServes(S(), id);
      hide Inv, Requests.CancelledAsAsked, FinishedRow;
      if id !in rows || live[id].cancelled {
        return;
      }
      var stop, pause := rows[id].stopRequested, rows[id].pauseRequested;
      if pause {
        live := live[id := live[id].(pauseTriggered := true, cancelled := true)];
        return;
      }
      if stop {
        live := live[id := live[id].(cancelled := true)];
        return;
      }
    }

    static lemma PollServes(s: State, id: nat)
      requires Inv(s) && Requests.CancelledAsAsked(s) && id in s.live
      ensures id in s.rows && Inv(Poll(s, id)) && Requests.CancelledAsAsked(Poll(s, id)) && id in Poll(s, id).live
      ensures Requests.Flagged(s.rows[id]) ==> forall ok, fail, err ::
                FinishedRow(Poll(s, id).live[id], s.rows[id], ok, fail, err)
                == if s.rows[id].pauseRequested && !Requests.PausedTooLate(s.live[id], s.rows[id])
                   then PausedRow(s.rows[id]) else StoppedRow(s.rows[id])
      ensures !Requests.Flagged(s.rows[id]) ==> !s.live[id].cancelled
    {
      PollInv(s, id);
      Requests.PollAsked(s, id);
      Requests.WorkerFacts(s, id);
      if Requests.Flagged(s.rows[id]) {
        forall ok, fail, err
          ensures FinishedRow(Poll(s, id).live[id], s.rows[id], ok, fail, err)
                  == if s.rows[id].pauseRequested && !Requests.PausedTooLate(s.live[id], s.rows[id])
                     then PausedRow(s.rows[id]) else StoppedRow(s.rows[id])
        {
          Requests.ServedRow(s, id, ok, fail, err);
        }
      }
    }

    /** What runTrackedConversion does once Convert has returned ok, fail and err. */
    method FinishConversion(id: nat, ok: nat, fail: nat, err: Option<string>) returns (wiped: bool)
      requires Inv(S()) && id in live
      modifies this
      ensures Inv(S()) && id in old(rows)
      ensures S() == Finish(old(S()), id, ok, fail, err)
      ensures id in rows && Ends(old(live)[id], old(rows)[id], rows[id], ok, fail, err)
      ensures rows == old(rows)[id := rows[id]] && live == old(live) - {id} && nextId == old(nextId)
      ensures inProgress == if old(live)[id].direct then old(inProgress) - {rows[id].input} else old(inProgress)
      ensures wiped <==> rows[id].status in {Stopped, Failed} && ok == 0 && old(live)[id].allowCleanup
      ensures wipes == old(wipes) + if wiped then [Wipe(old(rows)[id], ByWorker(rows[id].status, ok))] else []
      ensures wiped ==> !rows[id].forceOCR && !rows[id].manual
    {
      hide Inv, Finish, FinishedRow, Wipes, Ends;
      LiveFacts(S(), id);
      FinishOutcome(S(), id, ok, fail, err);
      FinishInv(S(), id, ok, fail, err);
      FinishParts(S(), id, ok, fail, err);
      FinishedLater(live[id], rows[id], ok, fail, err);
      var w, input := live[id], rows[id].input;
      wiped := EndRow(id, ok, fail, err);
      if w.direct {
        inProgress := inProgress - {input};
      }
      live := live - {id};
      direct := direct - {id};
    }

    /** The switch: what becomes of the row and of its files. */
    method EndRow(id: nat, ok: nat, fail: nat, err: Option<string>) returns (wiped: bool)
      requires id in live && id in rows && (live[id].allowCleanup ==> Disposable(rows[id]))
      modifies this`rows, this`wipes
      ensures rows == old(rows)[id := FinishedRow(live[id], old(rows)[id], ok, fail, err)]
      ensures wiped <==> Wipes(live[id], rows[id], ok)
      ensures wipes == if wiped then old(wipes) + [Wipe(old(rows)[id], ByWorker(rows[id].status, ok))] else old(wipes)
      ensures wiped ==> ok == 0 && Disposable(rows[id]) && rows[id].status in {Stopped, Failed}
    {
      wiped := false;
      var w, r := live[id], rows[id];
      if w.cancelled && w.pauseTriggered {
        rows := rows[id := r.(status := Paused, pauseRequested := false)];
      } else if w.cancelled {
        rows := rows[id := r.(status := Stopped, currentVolume := "", stopRequested := false)];
        if ok == 0 && w.allowCleanup {
          wiped := true;
          wipes := wipes + [Wipe(r, ByWorker(Stopped, ok))];
        }
      } else if err.Some? || fail > 0 || ok == 0 {
        var msg := DEFAULT_ERROR;
        if err.Some? {
          msg := err.value;
        } else if fail > 0 {
          msg := PARTIAL_ERROR;
        }
        rows := rows[id := r.(status := Failed, error := msg, currentVolume := "", stopRequested := false)];
        if ok == 0 && w.allowCleanup {
          wiped := true;
          wipes := wipes + [Wipe(r, ByWorker(Failed, ok))];
        }
      } else {
        rows := rows[id := r.(status := Done, error := "", currentVolume := "", stopRequested := false)];
      }
    }

    /** One folder of scanManualFoldersIn: it is started exactly if no queued, running or paused row has it, it
        needs conversion, it is not in progress and its row can be made; else nothing changes. */
    method ScanManualFolder(library: string, name: string, input: string, output: string,
                            needsConversion: bool, creates: bool, now: nat) returns (started: bool)
      requires up
      modifies this
      ensures S() == ScanFolder(old(S()), library, name, input, output, needsConversion, creates, now)
      ensures started <==>
                && (forall id :: id in old(rows) && old(rows)[id].input == input ==>
                      old(rows)[id].status in {Done, Failed, Stopped})
                && needsConversion && input !in old(inProgress) && creates
      ensures !started ==> S() == old(S())
      ensures started ==>
                && nextId == old(nextId) + 1 && inProgress == old(inProgress) + {input}
                && rows == old(rows)[old(nextId) := Row(library, name, input, output, Running, "", "",
                                                        false, false, false, true, "", now)]
                && live == old(live)[old(nextId) := Worker(false, true, false, false)]
    {
      started := false;
      if PathTracked(rows, input) || !needsConversion || input in inProgress {
        return;
      }
      inProgress := inProgress + {input};
      if !creates {
        inProgress := inProgress - {input};
        return;
      }
      live := live[nextId := Worker(false, true, false, false)];
      direct := direct + {nextId};
      InsertRow(Row(library, name, input, output, Running, "", "", false, false, false, true, "", now));
      started := true;
    }
  }
}
