/**
 One conversion at a time: exactly which runs never have two running rows of one book, and exactly
 which never have two on one input folder.
 */
module JobQueueExclusion {
  import opened Wrappers
  import opened JobQueueSpec
  import opened JobQueueProofs

  /** Rows in the queue that share an input folder belong to one book. */
  ghost predicate PathsAgree(rows: Rows) {
    forall i, j :: i in rows && j in rows && Active(rows[i]) && Active(rows[j]) ==>
      rows[i].input == rows[j].input ==> SameBook(rows[i], rows[j])
  }

  ghost predicate PathExclusive(rows: Rows) {
    forall i, j :: i in rows && j in rows && i != j && rows[i].status == Running && rows[j].status == Running ==>
      rows[i].input != rows[j].input
  }

  /** No row starts running. */
  ghost predicate NoneStarted(rows: Rows, rows': Rows) {
    forall id :: id in rows' && rows'[id].status == Running ==>
      id in rows && rows[id].status == Running && rows'[id].input == rows[id].input
  }

  /** A claim takes a row only when no running row has its input folder. */
  predicate ClaimsFreeFolder(s: State, e: Event)
    requires Enabled(s, e)
  {
    e.Claimed? ==>
      forall id :: id in s.rows && s.rows[id].status == Running ==> s.rows[id].input != s.rows[e.id].input
  }

  /** One step keeps folders exclusive exactly when it claims no row whose folder is being converted; the
      folder scan and all else never break it. */
  lemma StepPathExclusive(s: State, e: Event)
    requires Inv(s) && Enabled(s, e) && PathExclusive(s.rows)
    ensures PathExclusive(Step(s, e).rows) <==> ClaimsFreeFolder(s, e)
  {
    hide Inv, PathExclusive, Finish, Delete, Restart, ScanFolder, ReconvertBulk, Poll, Claim, Insert, PauseAll;
    hide ResumeAll;
    match e
    case Claimed(id) => ClaimPathExclusive(s, id);
    case Scanned(library, name, input, output, needs, creates, now) =>
      ScanPathExclusive(s, library, name, input, output, needs, creates, now);
    case _ =>
      OthersStartNone(s, e);
      StillExclusive(s.rows, Step(s, e).rows);
  }

  lemma StillExclusive(rows: Rows, rows': Rows)
    requires PathExclusive(rows) && NoneStarted(rows, rows')
    ensures PathExclusive(rows')
  {
  }

  lemma OthersStartNone(s: State, e: Event)
    requires Inv(s) && Enabled(s, e) && !e.Claimed? && !e.Scanned?
    ensures NoneStarted(s.rows, Step(s, e).rows)
  {
    match e
    case BulkReconverted(library, name, input, output, volumes, now) =>
      BulkRunning(s, library, name, input, output, volumes, now);
    case Finished(id, ok, fail, err) =>
      FinishStartsNone(s, id, ok, fail, err);
    case PausedAll => AllStartNone(s, e);
    case ResumedAll => AllStartNone(s, e);
    case Restarted => AllStartNone(s, e);
    case _ => OneStartsNone(s, e);
  }

  lemma FinishStartsNone(s: State, id: nat, ok: nat, fail: nat, err: Option<string>)
    requires id in s.live && id in s.rows
    ensures NoneStarted(s.rows, Finish(s, id, ok, fail, err).rows)
  {
    hide Finish;
    FinishRows(s, id, ok, fail, err);
  }

  lemma AllStartNone(s: State, e: Event)
    requires e.PausedAll? || e.ResumedAll? || e.Restarted?
    ensures NoneStarted(s.rows, Step(s, e).rows)
  {
  }

  lemma PutStartsNone(rows: Rows, id: nat, r: Row)
    requires r.status == Running ==> id in rows && rows[id].status == Running && rows[id].input == r.input
    ensures NoneStarted(rows, rows[id := r])
  {
  }

  lemma NoneStartsLess(rows: Rows, id: nat)
    ensures NoneStarted(rows, rows - {id})
    ensures NoneStarted(rows, rows)
  {
  }

  lemma OneStartsNone(s: State, e: Event)
    requires Inv(s) && Enabled(s, e)
    requires e.Uploaded? || e.Reconverted? || e.VolumeStarted? || e.Polled? || e.Deleted? || e.Crashed?
    ensures NoneStarted(s.rows, Step(s, e).rows)
  {
    hide Inv, NoneStarted, NameTaken;
    NoneStartsLess(s.rows, 0);
    match e
    case Uploaded(_, library, name, input, output, now) =>
      PutStartsNone(s.rows, s.nextId, QueuedRow(library, name, input, output, false, "", now));
    case Reconverted(library, name, input, output, volume, now) =>
      PutStartsNone(s.rows, s.nextId, QueuedRow(library, name, input, output, true, volume, now));
    case VolumeStarted(id, volume) =>
      LiveFacts(s, id);
      PutStartsNone(s.rows, id, s.rows[id].(currentVolume := volume));
    case Deleted(id) =>
      if id in s.rows && s.rows[id].status == Running {
        PutStartsNone(s.rows, id, s.rows[id].(stopRequested := true));
      } else {
        NoneStartsLess(s.rows, id);
      }
    case Polled(_) =>
    case Crashed =>
  }

  lemma ClaimPathExclusive(s: State, id: nat)
    requires Claimable(s.rows, id) && PathExclusive(s.rows)
    ensures PathExclusive(Claim(s, id).rows) <==>
              forall j :: j in s.rows && s.rows[j].status == Running ==> s.rows[j].input != s.rows[id].input
  {
    var rows := Claim(s, id).rows;
    assert rows[id].status == Running && rows[id].input == s.rows[id].input;
    assert forall j :: j in s.rows && j != id ==> rows[j] == s.rows[j];
  }

  /** Where folders are kept to one book, the claim's exclusion by book frees the folder as well. */
  lemma KeptFolderIsFree(s: State, e: Event)
    requires Enabled(s, e) && PathsAgree(s.rows)
    ensures ClaimsFreeFolder(s, e)
  {
    if e.Claimed? {
      forall j | j in s.rows && s.rows[j].status == Running ensures s.rows[j].input != s.rows[e.id].input {
        assert !SameBook(s.rows[j], s.rows[e.id]);
      }
    }
  }

  lemma ScanPathExclusive(s: State, library: string, name: string, input: string, output: string,
                          needs: bool, creates: bool, now: nat)
    requires Inv(s) && PathExclusive(s.rows)
    ensures PathExclusive(ScanFolder(s, library, name, input, output, needs, creates, now).rows)
  {
    assert forall j :: j in s.rows && s.rows[j].status == Running ==> Active(s.rows[j]);
  }

  lemma {:induction false} BulkRunning(s: State, library: string, name: string, input: string, output: string,
                                       volumes: seq<string>, now: nat)
    requires Inv(s)
    ensures var s' := ReconvertBulk(s, library, name, input, output, volumes, now);
            forall id :: id in s'.rows && s'.rows[id].status == Running ==> id in s.rows && s'.rows[id] == s.rows[id]
    decreases |volumes|
  {
    if volumes != [] {
      BulkRunning(s, library, name, input, output, volumes[..|volumes| - 1], now);
    }
  }

  /* ---- who keeps folders to one book ---- */

  /** The active rows of an input folder belong to this book. */
  predicate FolderOf(rows: Rows, input: string, library: string, name: string) {
    forall id :: id in rows && Active(rows[id]) && rows[id].input == input ==>
      rows[id].library == library && rows[id].name == name
  }

  /** A job is queued only into a folder that no active job of another book uses. */
  predicate KeepsFolders(s: State, e: Event) {
    match e
    case Uploaded(adding, library, name, input, _, _) =>
      (adding || !NameTaken(s.rows, library, name)) ==> FolderOf(s.rows, input, library, name)
    case Reconverted(library, name, input, _, _, _) =>
      !NameTaken(s.rows, library, name) ==> FolderOf(s.rows, input, library, name)
    case BulkReconverted(library, name, input, _, volumes, _) =>
      volumes != [] ==> FolderOf(s.rows, input, library, name)
    case _ => true
  }

  lemma InsertAgrees(rows: Rows, id: nat, r: Row)
    requires id !in rows && Active(r)
    requires PathsAgree(rows)
    ensures PathsAgree(rows[id := r]) <==> FolderOf(rows, r.input, r.library, r.name)
  {
    var rows' := rows[id := r];
    if PathsAgree(rows') {
      assert forall j :: j in rows ==> rows'[j] == rows[j];
      assert rows'[id] == r;
    }
  }

  /** No row joins the queue and none changes its book or folder. */
  lemma LaterAgrees(s: State, t: State)
    requires Later(s, t) && forall id :: id in t.rows ==> id < s.nextId
    ensures PathsAgree(s.rows) ==> PathsAgree(t.rows)
  {
    forall i, j | i in t.rows && j in t.rows && Active(t.rows[i]) && Active(t.rows[j])
                  && t.rows[i].input == t.rows[j].input
      ensures PathsAgree(s.rows) ==> SameBook(t.rows[i], t.rows[j])
    {
      assert LaterRow(s.rows[i], t.rows[i]) && LaterRow(s.rows[j], t.rows[j]);
    }
  }

  lemma {:induction false} BulkAgrees(s: State, library: string, name: string, input: string, output: string,
                                      volumes: seq<string>, now: nat)
    requires Inv(s) && PathsAgree(s.rows)
    ensures var t := ReconvertBulk(s, library, name, input, output, volumes, now);
            && (PathsAgree(t.rows) <==> (volumes != [] ==> FolderOf(s.rows, input, library, name)))
            && (FolderOf(t.rows, input, library, name) <==> FolderOf(s.rows, input, library, name))
    decreases |volumes|
  {
    if volumes != [] {
      hide Inv, PathsAgree, FolderOf;
      var k := |volumes| - 1;
      var before := ReconvertBulk(s, library, name, input, output, volumes[..k], now);
      var r := QueuedRow(library, name, input, output, true, volumes[k], now);
      BulkAgrees(s, library, name, input, output, volumes[..k], now);
      BulkInv(s, library, name, input, output, volumes[..k], now);
      NextIsFree(before);
      FolderWith(before.rows, before.nextId, r);
      if PathsAgree(before.rows) {
        InsertAgrees(before.rows, before.nextId, r);
      } else {
        MoreDisagree(before.rows, before.nextId, r);
      }
    }
  }

  lemma NextIsFree(s: State)
    requires Inv(s)
    ensures s.nextId !in s.rows
  {
  }

  lemma FolderWith(rows: Rows, id: nat, r: Row)
    requires id !in rows
    ensures FolderOf(rows[id := r], r.input, r.library, r.name) <==> FolderOf(rows, r.input, r.library, r.name)
  {
    assert forall j :: j in rows ==> rows[id := r][j] == rows[j];
  }

  lemma MoreDisagree(rows: Rows, id: nat, r: Row)
    requires id !in rows && !PathsAgree(rows)
    ensures !PathsAgree(rows[id := r])
  {
    var i, j :| i in rows && j in rows && Active(rows[i]) && Active(rows[j]) && rows[i].input == rows[j].input
                && !SameBook(rows[i], rows[j]);
    assert rows[id := r][i] == rows[i] && rows[id := r][j] == rows[j];
  }

  lemma ScanAgrees(s: State, library: string, name: string, input: string, output: string,
                   needs: bool, creates: bool, now: nat)
    requires Inv(s) && PathsAgree(s.rows)
    ensures PathsAgree(ScanFolder(s, library, name, input, output, needs, creates, now).rows)
  {
    hide Inv, PathsAgree;
    NextIsFree(s);
    var r := Row(library, name, input, output, Running, "", "", false, false, false, true, "", now);
    InsertAgrees(s.rows, s.nextId, r);
  }

  /** A step keeps the active rows of every folder to one book exactly when it queues nothing into a
      folder of another book; the folder scan never does. */
  lemma StepPathsAgree(s: State, e: Event)
    requires Inv(s) && Enabled(s, e) && PathsAgree(s.rows)
    ensures PathsAgree(Step(s, e).rows) <==> KeepsFolders(s, e)
  {
    hide Inv, PathsAgree, FolderOf, NameTaken, Later;
    hide Finish, Delete, Restart, ReconvertBulk, ScanFolder, Poll, Claim, PauseAll, ResumeAll;
    NextIsFree(s);
    match e
    case Uploaded(_, library, name, input, output, now) =>
      InsertAgrees(s.rows, s.nextId, QueuedRow(library, name, input, output, false, "", now));
    case Reconverted(library, name, input, output, volume, now) =>
      InsertAgrees(s.rows, s.nextId, QueuedRow(library, name, input, output, true, volume, now));
    case BulkReconverted(library, name, input, output, volumes, now) =>
      BulkAgrees(s, library, name, input, output, volumes, now);
    case Scanned(library, name, input, output, needs, creates, now) =>
      ScanAgrees(s, library, name, input, output, needs, creates, now);
    case _ =>
      StepLater(s, e);
      NoneJoins(s, e);
      LaterAgrees(s, Step(s, e));
  }

  lemma NoneJoins(s: State, e: Event)
    requires Inv(s) && Enabled(s, e)
    requires !e.Uploaded? && !e.Reconverted? && !e.BulkReconverted? && !e.Scanned?
    ensures forall id :: id in Step(s, e).rows ==> id < s.nextId
  {
    match e
    case Finished(id, ok, fail, err) =>
      FinishRows(s, id, ok, fail, err);
    case _ =>
  }

  /** Over a whole run the active rows of every folder belong to one book, in every state, exactly when
      nobody ever queued a job into a folder that an active job of another book used. */
  lemma {:induction false} RunPathsAgree(ss: seq<State>, es: seq<Event>, k: nat)
    requires IsRun(ss, es) && ss[0] == Init && k < |ss|
    ensures (forall i :: 0 <= i <= k ==> PathsAgree(ss[i].rows))
       <==> (forall i :: 0 <= i < k ==> KeepsFolders(ss[i], es[i]))
  {
    hide Inv, Step, Enabled, KeepsFolders;
    if k == 0 {
      assert PathsAgree(Init.rows);
    } else {
      hide PathsAgree;
      RunPathsAgree(ss, es, k - 1);
      RunInv(ss, es, k - 1);
      if PathsAgree(ss[k - 1].rows) {
        StepPathsAgree(ss[k - 1], es[k - 1]);
        assert PathsAgree(ss[k].rows) <==> KeepsFolders(ss[k - 1], es[k - 1]);
      }
      assert (forall i :: 0 <= i <= k ==> PathsAgree(ss[i].rows))
        <==> (forall i :: 0 <= i <= k - 1 ==> PathsAgree(ss[i].rows)) && PathsAgree(ss[k].rows);
      assert (forall i :: 0 <= i < k ==> KeepsFolders(ss[i], es[i]))
        <==> (forall i :: 0 <= i < k - 1 ==> KeepsFolders(ss[i], es[i])) && KeepsFolders(ss[k - 1], es[k - 1]);
    }
  }

  /* ---- when input folders are exclusive ---- */

  /** Over a whole run: no state has two running rows on one input folder, the folder scan included, exactly
      when every claim was of a row whose folder was not being converted. */
  lemma {:induction false} RunPathExclusive(ss: seq<State>, es: seq<Event>, k: nat)
    requires IsRun(ss, es) && ss[0] == Init && k < |ss|
    ensures (forall i :: 0 <= i <= k ==> PathExclusive(ss[i].rows))
       <==> (forall i :: 0 <= i < k ==> ClaimsFreeFolder(ss[i], es[i]))
  {
    hide Inv, Step, Enabled, ClaimsFreeFolder;
    if k == 0 {
      assert PathExclusive(Init.rows);
    } else {
      hide PathExclusive;
      RunPathExclusive(ss, es, k - 1);
      RunInv(ss, es, k - 1);
      if PathExclusive(ss[k - 1].rows) {
        StepPathExclusive(ss[k - 1], es[k - 1]);
        assert PathExclusive(ss[k].rows) <==> ClaimsFreeFolder(ss[k - 1], es[k - 1]);
      }
      assert (forall i :: 0 <= i <= k ==> PathExclusive(ss[i].rows))
        <==> (forall i :: 0 <= i <= k - 1 ==> PathExclusive(ss[i].rows)) && PathExclusive(ss[k].rows);
      assert (forall i :: 0 <= i < k ==> ClaimsFreeFolder(ss[i], es[i]))
        <==> (forall i :: 0 <= i < k - 1 ==> ClaimsFreeFolder(ss[i], es[i]))
             && ClaimsFreeFolder(ss[k - 1], es[k - 1]);
    }
  }

  /** It is enough that nobody queues a job into a folder that an active job of another book uses. */
  lemma KeptFoldersAreExclusive(ss: seq<State>, es: seq<Event>, k: nat)
    requires IsRun(ss, es) && ss[0] == Init && k < |ss|
    requires forall i :: 0 <= i < k ==> KeepsFolders(ss[i], es[i])
    ensures forall i :: 0 <= i <= k ==> PathExclusive(ss[i].rows)
  {
    hide Inv, Step, Enabled, PathsAgree, PathExclusive, KeepsFolders, ClaimsFreeFolder;
    RunPathsAgree(ss, es, k);
    RunPathExclusive(ss, es, k);
    forall i | 0 <= i < k ensures ClaimsFreeFolder(ss[i], es[i]) {
      assert PathsAgree(ss[i].rows);
      KeptFolderIsFree(ss[i], es[i]);
    }
  }

  /** Folders are not exclusive in every run: the scan may start the staging folder of an added volume as
      a book of its own before the upload's row is there, and that row is claimed all the same. */
  lemma ScanMayDoubleAFolder() returns (ss: seq<State>, es: seq<Event>)
    ensures IsRun(ss, es) && ss[0] == Init
    ensures var s := ss[|es|];
            && 0 in s.rows && 1 in s.rows && s.rows[0].status == Running && s.rows[1].status == Running
            && s.rows[0].input == s.rows[1].input && !SameBook(s.rows[0], s.rows[1])
  {
    var input := "book-add-1-in";
    es := [Restarted, Scanned("lib", "book-add-1", input, "book-add-1", true, true, 0),
           Uploaded(true, "lib", "book", input, "book", 1), Claimed(1)];
    assert "book-add-1" != "book" by { assert |"book-add-1"| != |"book"|; }
    var s1 := Step(Init, es[0]);
    var s2 := Step(s1, es[1]);
    var s3 := Step(s2, es[2]);
    assert s3.rows.Keys == {0, 1};
    assert Oldest(s3.rows, 1);
    var s4 := Step(s3, es[3]);
    ss := [Init, s1, s2, s3, s4];
  }

  /* ---- when books are exclusive ---- */

  ghost predicate BooksExclusive(rows: Rows) {
    forall i, j :: i in rows && j in rows && i != j ==> !Rivals(rows[i], rows[j])
  }

  /** The folder scan starts a conversion only when no running row is of its book. */
  predicate ScansFreeBook(s: State, e: Event) {
    e.Scanned? && Starts(s, e.input, e.needsConversion, e.creates) ==>
      forall id :: id in s.rows && s.rows[id].status == Running ==>
        !(s.rows[id].library == e.library && s.rows[id].name == e.name)
  }

  predicate Starts(s: State, input: string, needsConversion: bool, creates: bool) {
    s.up && !PathTracked(s.rows, input) && needsConversion && input !in s.inProgress && creates
  }

  lemma StillBooks(s: State, t: State)
    requires BooksExclusive(s.rows) && NoneStarted(s.rows, t.rows) && Later(s, t)
    ensures BooksExclusive(t.rows)
  {
    forall i, j | i in t.rows && j in t.rows && i != j ensures !Rivals(t.rows[i], t.rows[j]) {
      if t.rows[i].status == Running && t.rows[j].status == Running {
        assert LaterRow(s.rows[i], t.rows[i]) && LaterRow(s.rows[j], t.rows[j]);
        assert !Rivals(s.rows[i], s.rows[j]);
      }
    }
  }

  lemma ClaimBooksExclusive(s: State, id: nat)
    requires Claimable(s.rows, id) && BooksExclusive(s.rows)
    ensures BooksExclusive(Claim(s, id).rows)
  {
    var rows := Claim(s, id).rows;
    assert forall j :: j in s.rows && s.rows[j].status == Running ==> !SameBook(s.rows[j], s.rows[id]);
    assert forall j :: j in s.rows && j != id ==> rows[j] == s.rows[j];
  }

  lemma NewBooks(rows: Rows, id: nat, r: Row)
    requires id !in rows && r.status == Running && BooksExclusive(rows)
    ensures BooksExclusive(rows[id := r]) <==>
              forall j :: j in rows && rows[j].status == Running ==> !SameBook(rows[j], r)
  {
    var rows' := rows[id := r];
    assert rows'[id] == r && forall j :: j in rows ==> rows'[j] == rows[j];
  }

  lemma ScanBooksExclusive(s: State, e: Event)
    requires Inv(s) && e.Scanned? && BooksExclusive(s.rows)
    ensures BooksExclusive(Step(s, e).rows) <==> ScansFreeBook(s, e)
  {
    hide Inv, BooksExclusive, PathTracked;
    NextIsFree(s);
    var r := Row(e.library, e.name, e.input, e.output, Running, "", "", false, false, false, true, "", e.now);
    NewBooks(s.rows, s.nextId, r);
  }

  /** One step keeps books exclusive exactly when it is no folder scan that starts a book already running. */
  lemma StepBooksExclusive(s: State, e: Event)
    requires Inv(s) && Enabled(s, e) && BooksExclusive(s.rows)
    ensures BooksExclusive(Step(s, e).rows) <==> ScansFreeBook(s, e)
  {
    hide Inv, BooksExclusive, Step, Later, NoneStarted, Starts;
    if e.Scanned? {
      ScanBooksExclusive(s, e);
    } else if e.Claimed? {
      ClaimedIs(s, e);
      ClaimBooksExclusive(s, e.id);
    } else {
      OthersStartNone(s, e);
      StepLater(s, e);
      StillBooks(s, Step(s, e));
    }
  }

  lemma ClaimedIs(s: State, e: Event)
    requires e.Claimed? && Enabled(s, e)
    ensures Claimable(s.rows, e.id) && Step(s, e) == Claim(s, e.id)
  {
  }

  /** Over a whole run: no state has two running rows of one book exactly when the folder scan never started
      a book that was being converted. */
  lemma {:induction false} RunBooksExclusive(ss: seq<State>, es: seq<Event>, k: nat)
    requires IsRun(ss, es) && ss[0] == Init && k < |ss|
    ensures (forall i :: 0 <= i <= k ==> BooksExclusive(ss[i].rows))
       <==> (forall i :: 0 <= i < k ==> ScansFreeBook(ss[i], es[i]))
  {
    hide Inv, Step, Enabled, ScansFreeBook;
    if k == 0 {
      assert BooksExclusive(Init.rows);
    } else {
      hide BooksExclusive;
      RunBooksExclusive(ss, es, k - 1);
      RunInv(ss, es, k - 1);
      if BooksExclusive(ss[k - 1].rows) {
        StepBooksExclusive(ss[k - 1], es[k - 1]);
        assert BooksExclusive(ss[k].rows) <==> ScansFreeBook(ss[k - 1], es[k - 1]);
      }
      assert (forall i :: 0 <= i <= k ==> BooksExclusive(ss[i].rows))
        <==> (forall i :: 0 <= i <= k - 1 ==> BooksExclusive(ss[i].rows)) && BooksExclusive(ss[k].rows);
      assert (forall i :: 0 <= i < k ==> ScansFreeBook(ss[i], es[i]))
        <==> (forall i :: 0 <= i < k - 1 ==> ScansFreeBook(ss[i], es[i])) && ScansFreeBook(ss[k - 1], es[k - 1]);
    }
  }
}
