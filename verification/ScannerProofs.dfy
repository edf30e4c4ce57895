/**
 The incremental scan agrees with an index from scratch, keeps exactly the right rows, settles,
 and keeps the cover files in step with the rows.
 */
module ScannerProofs {
  import opened Wrappers
  import opened FileNames
  import opened ScannerSpec

  /* ---- cover files ---- */

  ghost predicate Named(books: Books, c: CoverPath) {
    exists p :: p in books && books[p].cover == Some(c)
  }

  /** Rows are filed under their path, each with its own id, and a cover carries its row's id. */
  ghost predicate OwnIds(books: Books, nextId: nat) {
    && (forall p :: p in books ==> books[p].path == p && books[p].id < nextId)
    && (forall p, q :: p in books && q in books && p != q ==> books[p].id != books[q].id)
    && (forall p :: p in books && books[p].cover.Some? ==> books[p].cover.value.id == books[p].id)
  }

  /** The cover files are exactly those that rows name. */
  ghost predicate CoversInStep(s: State) {
    OwnIds(s.books, s.nextId) && forall c :: c in s.covers <==> Named(s.books, c)
  }

  /** No two rows name the same cover file. */
  lemma CoversUnshared(s: State, p: string, q: string)
    requires CoversInStep(s) && p in s.books && q in s.books && p != q
    ensures s.books[p].cover.Some? ==> s.books[p].cover != s.books[q].cover
  {
  }

  function CoverSet(c: Option<CoverPath>): set<CoverPath> {
    if c.Some? then {c.value} else {}
  }

  function CoverIn(books: Books, path: string): Option<CoverPath> {
    if path in books then books[path].cover else None
  }

  lemma ReplaceRow(s: State, t: State, path: string, b: Book)
    requires CoversInStep(s) && s.nextId <= t.nextId
    requires t.books == s.books[path := b] && b.path == path && b.id < t.nextId
    requires if path in s.books then b.id == s.books[path].id else b.id >= s.nextId
    requires b.cover.Some? ==> b.cover.value.id == b.id
    requires t.covers.Keys == s.covers.Keys - CoverSet(CoverIn(s.books, path)) + CoverSet(b.cover)
    ensures CoversInStep(t)
  {
    forall c | Named(t.books, c) ensures c in t.covers {
      var q :| q in t.books && t.books[q].cover == Some(c);
      if q != path {
        assert Named(s.books, c);
        assert c.id == s.books[q].id != b.id;
      }
    }
    forall c | c in t.covers ensures Named(t.books, c) {
      if b.cover == Some(c) {
        assert t.books[path].cover == Some(c);
      } else {
        assert Named(s.books, c);
        var q :| q in s.books && s.books[q].cover == Some(c);
        assert t.books[q].cover == Some(c);
      }
    }
  }

  lemma ReindexCovers(s: State, env: Env, library: string, path: string, f: File, id: nat, p: Parsed)
    requires id < s.nextId
    requires if path in s.books then CoversInStep(s) && s.books[path].id == id
             else id + 1 == s.nextId && CoversInStep(s.(nextId := id))
    ensures CoversInStep(Reindex(s, env, library, path, f, id, p))
  {
    hide CoversInStep;
    var t := Reindex(s, env, library, path, f, id, p);
    var from := if path in s.books then s else s.(nextId := id);
    ReplaceRow(from, t, path, t.books[path]);
  }

  lemma ProcessCovers(s: State, env: Env, library: string, disk: Disk, path: string)
    requires CoversInStep(s)
    ensures CoversInStep(Process(s, env, library, disk, path))
  {
    hide Reindex, CoversInStep, Parse;
    if path in disk {
      var f := disk[path];
      NewIdCovers(s);
      if path in s.books {
        StatsCovers(s, path, s.books[path].(size := f.size, modified := Micros(f.mtime), hash := env.hash(f.content)));
      }
      var id := if path in s.books then s.books[path].id else s.nextId;
      var s1 := if path in s.books then s else s.(nextId := s.nextId + 1);
      var p := Parse(env, library, path, f.content);
      if p.Some? {
        assert path !in s.books ==> s1.(nextId := id) == s;
        ReindexCovers(s1, env, library, path, f, id, p.value);
      }
    }
  }

  lemma NewIdCovers(s: State)
    requires CoversInStep(s)
    ensures CoversInStep(s.(nextId := s.nextId + 1))
    ensures forall p :: p in s.books ==> s.books[p].id < s.nextId && s.books[p].path == p
  {
  }

  lemma StatsCovers(s: State, path: string, b: Book)
    requires CoversInStep(s) && path in s.books && b.path == path
    requires b.id == s.books[path].id && b.cover == s.books[path].cover
    ensures CoversInStep(s.(books := s.books[path := b]))
  {
    var t := s.(books := s.books[path := b]);
    if b.cover.Some? { assert Named(s.books, b.cover.value); }
    assert t.covers.Keys == s.covers.Keys - CoverSet(CoverIn(s.books, path)) + CoverSet(b.cover);
    ReplaceRow(s, t, path, b);
  }

  lemma PurgeCovers(s: State, library: string, found: seq<string>)
    requires CoversInStep(s)
    ensures CoversInStep(Purge(s, library, found))
  {
    var gone := set p | p in s.books && s.books[p].library == library && p !in found;
    var covers := set p | p in gone && s.books[p].cover.Some? :: s.books[p].cover.value;
    var t := Purge(s, library, found);
    forall c | c in t.covers ensures Named(t.books, c) {
      assert Named(s.books, c);
      var q :| q in s.books && s.books[q].cover == Some(c);
      assert forall g :: g in gone && s.books[g].cover.Some? ==> s.books[g].cover.value in covers;
      assert t.books[q].cover == Some(c);
    }
    forall c | Named(t.books, c) ensures c in t.covers {
      var q :| q in t.books && t.books[q].cover == Some(c);
      assert Named(s.books, c);
      assert forall g :: g in gone && s.books[g].cover.Some? ==> s.books[g].cover.value.id != s.books[q].id;
    }
  }

  /* ---- a disk that changes during the scan ---- */

  function Look(disk: Disk, path: string): Option<File> {
    if path in disk then Some(disk[path]) else None
  }

  /** Each file as it looked when the walk came to it. */
  function AsSeen(disks: nat -> Disk, found: seq<string>): Disk {
    if found == [] then map[]
    else
      var n := |found| - 1;
      var before := AsSeen(disks, found[..n]);
      if found[n] in disks(n) then before[found[n] := disks(n)[found[n]]] else before - {found[n]}
  }

  ghost predicate NoRepeats(found: seq<string>) {
    forall j, k :: 0 <= j < k < |found| ==> found[j] != found[k]
  }

  lemma {:induction false} AsSeenLooks(disks: nat -> Disk, found: seq<string>, k: nat)
    requires NoRepeats(found) && k < |found|
    ensures Look(AsSeen(disks, found), found[k]) == Look(disks(k), found[k])
  {
    var n := |found| - 1;
    if k < n {
      AsSeenLooks(disks, found[..n], k);
    }
  }

  lemma ProcessByLook(s: State, env: Env, library: string, d: Disk, e: Disk, path: string)
    requires Look(d, path) == Look(e, path)
    ensures Process(s, env, library, d, path) == Process(s, env, library, e, path)
  {
    hide Reindex, Parse;
  }

  lemma {:induction false} EachByLooks(s: State, env: Env, library: string, disks: nat -> Disk,
                                       disk: Disk, found: seq<string>)
    requires forall k :: 0 <= k < |found| ==> Look(disks(k), found[k]) == Look(disk, found[k])
    ensures ProcessEach(s, env, library, disks, found) == ProcessAll(s, env, library, disk, found)
  {
    hide Process, Look;
    if found != [] {
      var n := |found| - 1;
      EachByLooks(s, env, library, disks, disk, found[..n]);
      ProcessByLook(ProcessAll(s, env, library, disk, found[..n]), env, library, disks(n), disk, found[n]);
    }
  }

  /** A walk comes to each path once, so a scan of a changing disk is the scan of one disk: that of the
      files as they looked when the walk came to them. What follows holds of scans of changing disks. */
  lemma ChangingDisk(s: State, env: Env, library: string, disks: nat -> Disk, walk: seq<Visit>)
    requires NoRepeats(Found(walk))
    ensures ScanEach(s, env, library, disks, walk) == Scan(s, env, library, AsSeen(disks, Found(walk)), walk)
  {
    hide Look;
    var found := Found(walk);
    forall k | 0 <= k < |found| ensures Look(disks(k), found[k]) == Look(AsSeen(disks, found), found[k]) {
      AsSeenLooks(disks, found, k);
    }
    EachByLooks(s, env, library, disks, AsSeen(disks, found), found);
  }

  /** One scan: the root, what each file found was read from, and the walk. */
  datatype Sweep = Sweep(library: string, disks: nat -> Disk, walk: seq<Visit>)

  function After(o: Outcome): State {
    match o case Scanned(t) => t case Refused(t) => t
  }

  ghost function Sweeps(s: State, env: Env, sweeps: seq<Sweep>): State {
    if sweeps == [] then s
    else
      var p := sweeps[|sweeps| - 1];
      After(ScanEach(Sweeps(s, env, sweeps[..|sweeps| - 1]), env, p.library, p.disks, p.walk))
  }

  lemma {:induction false} ProcessEachCovers(s: State, env: Env, library: string, disks: nat -> Disk,
                                             found: seq<string>)
    requires CoversInStep(s)
    ensures CoversInStep(ProcessEach(s, env, library, disks, found))
  {
    hide CoversInStep, Process;
    if found != [] {
      var n := |found| - 1;
      ProcessEachCovers(s, env, library, disks, found[..n]);
      ProcessCovers(ProcessEach(s, env, library, disks, found[..n]), env, library, disks(n), found[n]);
    }
  }

  /** Whatever happens on disk between scans of any libraries, and between the files of one scan, cover
      files and rows agree. */
  lemma {:induction false} CoversConserved(s: State, env: Env, sweeps: seq<Sweep>)
    requires CoversInStep(s)
    ensures CoversInStep(Sweeps(s, env, sweeps))
  {
    hide CoversInStep, Process, Purge;
    if sweeps != [] {
      var p := sweeps[|sweeps| - 1];
      var before := Sweeps(s, env, sweeps[..|sweeps| - 1]);
      CoversConserved(s, env, sweeps[..|sweeps| - 1]);
      ProcessEachCovers(before, env, p.library, p.disks, Found(p.walk));
      PurgeCovers(ProcessEach(before, env, p.library, p.disks, Found(p.walk)), p.library, Found(p.walk));
    }
  }

  /* ---- which files are found ---- */

  predicate Hands(v: Visit) {
    !v.failed && !v.isDir && (HasExt(v.path, ".epub") || HasExt(v.path, ".html") || HasExt(v.path, ".htm"))
  }

  /** found lists the paths of the callbacks at these places, which are all that hand over a file. */
  ghost predicate Places(walk: seq<Visit>, found: seq<string>, at: seq<nat>) {
    && |at| == |found|
    && (forall k :: 0 <= k < |at| ==> at[k] < |walk| && Hands(walk[at[k]]) && found[k] == walk[at[k]].path)
    && (forall j, k :: 0 <= j < k < |at| ==> at[j] < at[k])
    && (forall i :: 0 <= i < |walk| && Hands(walk[i]) ==> i in at)
  }

  lemma PlacesStep(walk: seq<Visit>, v: Visit, found: seq<string>, at: seq<nat>)
    requires Places(walk, found, at)
    ensures Hands(v) ==> Places(walk + [v], found + [v.path], at + [|walk|])
    ensures !Hands(v) ==> Places(walk + [v], found, at)
  {
    hide Hands;
    assert forall i :: i in at ==> i in at + [|walk|];
    assert |walk| in at + [|walk|];
  }

  lemma FoundLast(front: seq<Visit>, v: Visit)
    ensures Found([]) == [] && Places([], [], [])
    ensures Found(front + [v]) == if Hands(v) then Found(front) + [v.path] else Found(front)
  {
    hide HasExt;
    assert (front + [v])[..|front|] == front;
  }

  /** The files found are the paths of the callbacks for supported files, in order, and no others. */
  lemma {:induction false} FoundIsTheWalk(walk: seq<Visit>) returns (at: seq<nat>)
    ensures Places(walk, Found(walk), at)
  {
    hide *;
    at := [];
    if walk == [] {
      FoundLast([], Visit("", true, true));
    } else {
      var front, v := walk[..|walk| - 1], walk[|walk| - 1];
      assert walk == front + [v];
      at := FoundIsTheWalk(front);
      FoundLast(front, v);
      PlacesStep(front, v, Found(front), at);
      if Hands(v) { at := at + [|front|]; }
    }
  }

  /* ---- agreement with an index from scratch ---- */

  /** What each row was made from. */
  type Seen = map<string, string>

  /** Apart from size and timestamp, the row is what indexing this content makes, cover file included. */
  predicate Reflects(b: Book, covers: map<CoverPath, string>, env: Env, content: string) {
    && Parse(env, b.library, b.path, content).Some?
    && var p := Parse(env, b.library, b.path, content).value;
    && b == RowOf(env, b.library, b.path, File(b.size, 0, content), b.id, p).(modified := b.modified)
    && (b.cover.Some? ==> b.cover.value in covers && covers[b.cover.value] == p.cover)
  }

  ghost predicate AllReflect(s: State, env: Env, seen: Seen) {
    forall p :: p in s.books ==> p in seen && Reflects(s.books[p], s.covers, env, seen[p])
  }

  ghost predicate Inv(s: State, env: Env, seen: Seen) {
    CoversInStep(s) && AllReflect(s, env, seen)
  }

  /** For a file and the row of its path: equal size and microsecond timestamp mean equal content, and
      so do equal hashes. */
  predicate Trusted(books: Books, seen: Seen, env: Env, disk: Disk, path: string) {
    path in books && path in disk && path in seen ==>
      && (SameStats(books[path], disk[path]) ==> disk[path].content == seen[path])
      && (env.hash(disk[path].content) == env.hash(seen[path]) ==> disk[path].content == seen[path])
  }

  predicate Owned(books: Books, library: string, path: string) {
    path in books ==> books[path].library == library
  }

  predicate Parses(env: Env, library: string, disk: Disk, path: string) {
    path in disk && Parse(env, library, path, disk[path].content).Some?
  }

  /** The row and cover of a file are what a fresh index would make under the row's id. */
  predicate UpToDate(s: State, env: Env, library: string, disk: Disk, path: string)
    requires Parses(env, library, disk, path)
  {
    && path in s.books
    && Index(env, library, path, disk[path], s.books[path].id) == Some(s.books[path])
    && (s.books[path].cover.Some? ==>
          && s.books[path].cover.value in s.covers
          && s.covers[s.books[path].cover.value] == Parse(env, library, path, disk[path].content).value.cover)
  }

  predicate Current(s: State, env: Env, library: string, disk: Disk, path: string) {
    Parses(env, library, disk, path) ==> UpToDate(s, env, library, disk, path)
  }

  /** The extension a cover of this media type is saved under. */
  predicate CoverExtension(mediaType: string, ext: string) {
    && (mediaType == "image/png" ==> ext == ".png")
    && (mediaType == "image/webp" ==> ext == ".webp")
    && (mediaType == "image/gif" ==> ext == ".gif")
    && (mediaType !in {"image/png", "image/webp", "image/gif"} ==> ext == ".jpg")
  }

  /** The row describes the file: its name, size, hash and time to the microsecond. */
  predicate Describes(b: Book, env: Env, path: string, f: File) {
    && b.path == path && b.filename == Base(path) && b.size == f.size && b.hash == env.hash(f.content)
    && 1000 * b.modified <= f.mtime < 1000 * (b.modified + 1)
  }

  /** The row names a cover file of its own with these bytes, or none if there are none. */
  predicate HasCover(s: State, b: Book, cover: string, mediaType: string) {
    if cover == "" then b.cover == None && b.coverType == ""
    else
      && b.cover.Some? && b.cover.value.id == b.id && CoverExtension(mediaType, b.cover.value.ext)
      && b.coverType == mediaType
      && b.cover.value in s.covers && s.covers[b.cover.value] == cover
  }

  /** An .epub is in the index as the EPUB parser reads it. */
  predicate EpubIndexed(s: State, env: Env, library: string, path: string, f: File) {
    match env.openEpub(path, library, f.content)
    case None => true
    case Some(p) =>
      && path in s.books
      && var b := s.books[path];
      && Describes(b, env, path, f) && b.columns == p.columns && b.format == "epub"
      && HasCover(s, b, p.cover, p.coverType)
  }

  /** An .html or .htm file is in the index as the HTML parser reads it, with its card for a cover. */
  predicate HtmlIndexed(s: State, env: Env, path: string, f: File) {
    match env.openHtml(path, f.content)
    case None => true
    case Some(h) =>
      && path in s.books
      && var b := s.books[path];
      && Describes(b, env, path, f) && b.format == "html"
      && b.columns.title == h.title && b.columns.sortTitle == h.sortTitle && b.columns.authors == h.authors
      && b.columns.language == h.language && b.columns.readingDirection == h.readingDirection
      && b.columns.seriesName + Ext(path) == Base(path) && b.columns.pageCount == 1
      && b.columns.publisher == "" && b.columns.publishedAt == None && b.columns.description == ""
      && b.columns.isbn == "" && b.columns.seriesIndex == None
      && HasCover(s, b, h.card, "image/png")
  }

  /** A file is in the index as the parser for its extension reads it. */
  predicate Indexed(s: State, env: Env, library: string, disk: Disk, path: string) {
    path in disk ==>
      && (HasExt(path, ".epub") ==> EpubIndexed(s, env, library, path, disk[path]))
      && (HasExt(path, ".html") || HasExt(path, ".htm") ==> HtmlIndexed(s, env, path, disk[path]))
  }

  lemma CurrentIsIndexed(s: State, env: Env, library: string, disk: Disk, path: string)
    requires Current(s, env, library, disk, path)
    ensures Indexed(s, env, library, disk, path)
  {
    hide Base, Stem, Ext, Lower;
    StemAndExt(path);
  }

  /** A file just parsed is in the index so, whichever library its row belongs to. */
  lemma ReindexIsIndexed(s: State, env: Env, library: string, disk: Disk, path: string, id: nat, p: Parsed)
    requires path in disk && Parse(env, library, path, disk[path].content) == Some(p)
    requires path in s.books ==> s.books[path].id == id
    ensures Indexed(Reindex(s, env, library, path, disk[path], id, p), env, library, disk, path)
  {
    hide Base, Stem, Ext, Lower;
    StemAndExt(path);
  }

  /** Rows and covers of the other paths are left alone. */
  ghost predicate OthersKept(s: State, t: State, path: string) {
    && (forall q :: q != path ==> (q in t.books <==> q in s.books))
    && (forall q :: q in s.books && q != path ==> t.books[q] == s.books[q])
    && (forall q :: q in s.books && q != path && s.books[q].cover.Some? && s.books[q].cover.value in s.covers ==>
          s.books[q].cover.value in t.covers && t.covers[s.books[q].cover.value] == s.covers[s.books[q].cover.value])
  }

  lemma ReindexOthers(s: State, env: Env, library: string, path: string, f: File, id: nat, p: Parsed)
    requires CoversInStep(s)
    requires if path in s.books then id == s.books[path].id else id >= s.nextId
    ensures forall n: nat :: OthersKept(s, Reindex(s.(nextId := n), env, library, path, f, id, p), path)
  {
  }

  lemma ReindexRow(s: State, env: Env, library: string, path: string, f: File, id: nat, p: Parsed)
    requires path in s.books ==> s.books[path].id == id && s.books[path].library == library
    ensures var t := Reindex(s, env, library, path, f, id, p);
            && path in t.books && t.books[path] == RowOf(env, library, path, f, id, p)
            && (t.books[path].cover.Some? ==>
                  t.books[path].cover.value in t.covers && t.covers[t.books[path].cover.value] == p.cover)
  {
  }

  lemma ProcessOthers(s: State, env: Env, library: string, disk: Disk, path: string)
    requires CoversInStep(s)
    ensures OthersKept(s, Process(s, env, library, disk, path), path)
    ensures path in s.books ==> path in Process(s, env, library, disk, path).books
    ensures path !in s.books ==>
              (path in Process(s, env, library, disk, path).books <==> Parses(env, library, disk, path))
  {
    hide Reindex, Parse, CoversInStep;
    if path in disk && Parse(env, library, path, disk[path].content).Some? {
      NewIdCovers(s);
      var id := if path in s.books then s.books[path].id else s.nextId;
      var p := Parse(env, library, path, disk[path].content).value;
      ReindexOthers(s, env, library, path, disk[path], id, p);
      ReindexKeys(s, env, library, path, disk[path], id, p);
    }
  }

  lemma ReindexKeys(s: State, env: Env, library: string, path: string, f: File, id: nat, p: Parsed)
    ensures forall n: nat :: path in Reindex(s.(nextId := n), env, library, path, f, id, p).books
  {
  }

  /** A row of this library made from the file as it is now. */
  predicate Fresh(s: State, env: Env, library: string, path: string, f: File) {
    && path in s.books && s.books[path].path == path && s.books[path].library == library
    && SameStats(s.books[path], f) && Reflects(s.books[path], s.covers, env, f.content)
  }

  lemma FreshIsCurrent(s: State, env: Env, library: string, disk: Disk, path: string)
    requires path in disk && Fresh(s, env, library, path, disk[path])
    ensures Current(s, env, library, disk, path)
  {
  }

  lemma ReindexFresh(s: State, env: Env, library: string, path: string, f: File, id: nat, p: Parsed)
    requires path in s.books ==> s.books[path].id == id && s.books[path].library == library
    requires Parse(env, library, path, f.content) == Some(p)
    ensures Fresh(Reindex(s, env, library, path, f, id, p), env, library, path, f)
  {
    hide Reindex, Parse;
    ReindexRow(s, env, library, path, f, id, p);
  }

  /** The shortcuts write the new stats, if anything, over a row that reflects the content already. */
  lemma StatsFresh(b: Book, covers: map<CoverPath, string>, env: Env, library: string, f: File)
    requires b.library == library && Reflects(b, covers, env, f.content)
    ensures var c := b.(size := f.size, modified := Micros(f.mtime), hash := env.hash(f.content));
            Reflects(c, covers, env, f.content) && SameStats(c, f) && (SameStats(b, f) ==> c == b)
    ensures Parse(env, library, b.path, f.content).Some?
  {
    hide Parse;
  }

  predicate Shortcut(s: State, env: Env, path: string, f: File) {
    path in s.books && (SameStats(s.books[path], f) || s.books[path].hash == env.hash(f.content))
  }

  lemma ShortcutSeen(s: State, env: Env, disk: Disk, path: string, seen: Seen)
    requires Inv(s, env, seen) && Trusted(s.books, seen, env, disk, path)
    requires path in disk && Shortcut(s, env, path, disk[path])
    ensures s.books[path].path == path && Reflects(s.books[path], s.covers, env, disk[path].content)
  {
    hide Parse;
  }

  /** Exactly when a shortcut misleads: the row it keeps was not made from the content now on disk. */
  lemma CurrentIffShortcutHonest(s: State, env: Env, library: string, disk: Disk, path: string)
    requires path in s.books ==> s.books[path].path == path && s.books[path].library == library
    requires Parses(env, library, disk, path)
    ensures Current(Process(s, env, library, disk, path), env, library, disk, path) <==>
              (Shortcut(s, env, path, disk[path]) ==> Reflects(s.books[path], s.covers, env, disk[path].content))
  {
    hide Reindex, Parse;
    var f := disk[path];
    if !Shortcut(s, env, path, f) {
      hide Reflects;
      var id := if path in s.books then s.books[path].id else s.nextId;
      var s1 := if path in s.books then s else s.(nextId := s.nextId + 1);
      var p := Parse(env, library, path, f.content).value;
      ReindexFresh(s1, env, library, path, f, id, p);
      FreshIsCurrent(Process(s, env, library, disk, path), env, library, disk, path);
    }
  }

  /** Where the shortcuts are trusted, processing leaves a fresh row or none could be made. */
  lemma ProcessFresh(s: State, env: Env, library: string, disk: Disk, path: string, seen: Seen)
    requires Inv(s, env, seen) && path in disk
    requires Trusted(s.books, seen, env, disk, path) && Owned(s.books, library, path)
    ensures var t := Process(s, env, library, disk, path);
            if Parse(env, library, path, disk[path].content).Some? then Fresh(t, env, library, path, disk[path])
            else t.books == s.books && t.covers == s.covers
  {
    hide Reindex, Parse, Inv, Trusted, Reflects;
    var f := disk[path];
    var found := path in s.books;
    if Shortcut(s, env, path, f) {
      ShortcutSeen(s, env, disk, path, seen);
      StatsFresh(s.books[path], s.covers, env, library, f);
    } else {
      var id := if found then s.books[path].id else s.nextId;
      var s1 := if found then s else s.(nextId := s.nextId + 1);
      var p := Parse(env, library, path, f.content);
      if p.Some? {
        ReindexFresh(s1, env, library, path, f, id, p.value);
      }
    }
  }

  /* ---- whole scans ---- */

  function SeenAfter(env: Env, library: string, disk: Disk, path: string, seen: Seen): Seen {
    if Parses(env, library, disk, path) then seen[path := disk[path].content] else seen
  }

  function SeenAfterAll(env: Env, library: string, disk: Disk, found: seq<string>, seen: Seen): Seen {
    if found == [] then seen
    else SeenAfter(env, library, disk, found[|found| - 1], SeenAfterAll(env, library, disk, found[..|found| - 1], seen))
  }

  /** What processing a path does, as far as the proofs below care. */
  ghost predicate Processed(s: State, t: State, env: Env, library: string, disk: Disk, path: string) {
    && OthersKept(s, t, path) && CoversInStep(t)
    && (if Parses(env, library, disk, path) then Fresh(t, env, library, path, disk[path])
        else t.books == s.books && t.covers == s.covers)
  }

  lemma ProcessIsProcessed(s: State, env: Env, library: string, disk: Disk, path: string, seen: Seen)
    requires Inv(s, env, seen)
    requires Trusted(s.books, seen, env, disk, path) && Owned(s.books, library, path)
    ensures Processed(s, Process(s, env, library, disk, path), env, library, disk, path)
  {
    hide CoversInStep, Parse, Trusted, OthersKept, Fresh, AllReflect;
    ProcessCovers(s, env, library, disk, path);
    ProcessOthers(s, env, library, disk, path);
    if path in disk {
      hide Process;
      ProcessFresh(s, env, library, disk, path, seen);
    }
  }

  lemma ProcessedReflects(s: State, t: State, env: Env, library: string, disk: Disk, path: string,
                          seen: Seen, q: string)
    requires Processed(s, t, env, library, disk, path) && AllReflect(s, env, seen) && q in t.books
    ensures var later := SeenAfter(env, library, disk, path, seen);
            q in later && Reflects(t.books[q], t.covers, env, later[q])
  {
    hide Parse, CoversInStep, RowOf;
  }

  /** Other files stay trusted, owned and current, and the processed one becomes current. */
  lemma ProcessedKeeps(s: State, t: State, env: Env, library: string, disk: Disk, path: string, seen: Seen, q: string)
    requires Processed(s, t, env, library, disk, path)
    requires Trusted(s.books, seen, env, disk, q) && Owned(s.books, library, q)
    ensures Trusted(t.books, SeenAfter(env, library, disk, path, seen), env, disk, q) && Owned(t.books, library, q)
    ensures q == path || Current(s, env, library, disk, q) ==> Current(t, env, library, disk, q)
  {
    hide Parse, CoversInStep, RowOf;
    if q == path && Parses(env, library, disk, q) {
      FreshIsCurrent(t, env, library, disk, q);
    }
  }

  ghost predicate AllTrusted(s: State, env: Env, library: string, disk: Disk, found: seq<string>, seen: Seen) {
    forall p :: p in found ==> Trusted(s.books, seen, env, disk, p) && Owned(s.books, library, p)
  }

  lemma {:induction false} ProcessAllAgrees(s: State, env: Env, library: string, disk: Disk, found: seq<string>,
                                            n: nat, seen: Seen)
    requires n <= |found| && Inv(s, env, seen) && AllTrusted(s, env, library, disk, found, seen)
    ensures var t := ProcessAll(s, env, library, disk, found[..n]);
            var later := SeenAfterAll(env, library, disk, found[..n], seen);
            && Inv(t, env, later) && AllTrusted(t, env, library, disk, found, later)
            && forall p :: p in found[..n] ==> Current(t, env, library, disk, p)
  {
    hide Process, CoversInStep, Processed, Current, Trusted, Owned, Reflects, SeenAfter;
    if n > 0 {
      ProcessAllAgrees(s, env, library, disk, found, n - 1, seen);
      var path := found[n - 1];
      assert found[..n][..n - 1] == found[..n - 1] && found[..n][n - 1] == path;
      var s1 := ProcessAll(s, env, library, disk, found[..n - 1]);
      var seen1 := SeenAfterAll(env, library, disk, found[..n - 1], seen);
      var t := Process(s1, env, library, disk, path);
      ProcessIsProcessed(s1, env, library, disk, path, seen1);
      ProcessCovers(s1, env, library, disk, path);
      forall q | q in t.books
        ensures q in SeenAfter(env, library, disk, path, seen1)
                && Reflects(t.books[q], t.covers, env, SeenAfter(env, library, disk, path, seen1)[q])
      {
        ProcessedReflects(s1, t, env, library, disk, path, seen1, q);
      }
      forall q | q in found
        ensures Trusted(t.books, SeenAfter(env, library, disk, path, seen1), env, disk, q) && Owned(t.books, library, q)
        ensures q == path || Current(s1, env, library, disk, q) ==> Current(t, env, library, disk, q)
      {
        ProcessedKeeps(s1, t, env, library, disk, path, seen1, q);
      }
    }
  }

  /** Deleting rows leaves the other rows and their covers alone. */
  lemma PurgeKeeps(s: State, library: string, found: seq<string>, p: string)
    requires CoversInStep(s)
    ensures var t := Purge(s, library, found);
            && (p in t.books <==> p in s.books && (p in found || s.books[p].library != library))
            && (p in t.books ==> t.books[p] == s.books[p])
            && (p in t.books && s.books[p].cover.Some? && s.books[p].cover.value in s.covers ==>
                  var c := s.books[p].cover.value; c in t.covers && t.covers[c] == s.covers[c])
  {
  }

  lemma PurgeInv(s: State, env: Env, library: string, found: seq<string>, seen: Seen)
    requires Inv(s, env, seen)
    ensures Inv(Purge(s, library, found), env, seen)
  {
    hide Purge, CoversInStep, Parse, RowOf;
    PurgeCovers(s, library, found);
    var t := Purge(s, library, found);
    forall q | q in t.books ensures q in seen && Reflects(t.books[q], t.covers, env, seen[q]) {
      PurgeKeeps(s, library, found, q);
    }
  }

  lemma PurgeCurrent(s: State, env: Env, library: string, disk: Disk, found: seq<string>, p: string)
    requires CoversInStep(s) && Current(s, env, library, disk, p) && p in found
    ensures Current(Purge(s, library, found), env, library, disk, p)
  {
    hide Purge, CoversInStep, Parse, RowOf;
    PurgeKeeps(s, library, found, p);
  }

  /** One scan: the root, each file as it looked when the walk came to it, and the walk. */
  datatype Pass = Pass(library: string, disk: Disk, walk: seq<Visit>)

  /** After a scan every file that parses has the row and cover of an index from scratch. */
  lemma ScanAgrees(s: State, env: Env, pass: Pass, seen: Seen)
    requires Inv(s, env, seen) && AllTrusted(s, env, pass.library, pass.disk, Found(pass.walk), seen)
    ensures var t := After(Scan(s, env, pass.library, pass.disk, pass.walk));
            && Inv(t, env, SeenAfterAll(env, pass.library, pass.disk, Found(pass.walk), seen))
            && (forall p :: p in Found(pass.walk) ==> Current(t, env, pass.library, pass.disk, p))
            && forall p :: p in Found(pass.walk) ==> Indexed(t, env, pass.library, pass.disk, p)
  {
    hide Purge, ProcessAll, Inv, AllTrusted, Current, Indexed, SeenAfterAll;
    var found := Found(pass.walk);
    ProcessAllAgrees(s, env, pass.library, pass.disk, found, |found|, seen);
    assert found[..|found|] == found;
    var s1 := ProcessAll(s, env, pass.library, pass.disk, found);
    var later := SeenAfterAll(env, pass.library, pass.disk, found, seen);
    InvCovers(s1, env, later);
    PurgeInv(s1, env, pass.library, found, later);
    forall p | p in found ensures Current(Purge(s1, pass.library, found), env, pass.library, pass.disk, p) {
      PurgeCurrent(s1, env, pass.library, pass.disk, found, p);
    }
    AllIndexed(After(Scan(s, env, pass.library, pass.disk, pass.walk)), env, pass.library, pass.disk, found);
  }

  lemma InvCovers(s: State, env: Env, seen: Seen)
    requires Inv(s, env, seen)
    ensures CoversInStep(s)
  {
  }

  lemma AllIndexed(s: State, env: Env, library: string, disk: Disk, found: seq<string>)
    requires forall p :: p in found ==> Current(s, env, library, disk, p)
    ensures forall p :: p in found ==> Indexed(s, env, library, disk, p)
  {
    hide Current, Indexed;
    forall p | p in found ensures Indexed(s, env, library, disk, p) {
      CurrentIsIndexed(s, env, library, disk, p);
    }
  }

  /* ---- over whole runs, from an empty index ---- */

  function Scans(s: State, env: Env, passes: seq<Pass>): State {
    if passes == [] then s
    else
      var p := passes[|passes| - 1];
      After(Scan(Scans(s, env, passes[..|passes| - 1]), env, p.library, p.disk, p.walk))
  }

  function SeenRun(env: Env, passes: seq<Pass>): Seen {
    if passes == [] then map[]
    else
      var p := passes[|passes| - 1];
      SeenAfterAll(env, p.library, p.disk, Found(p.walk), SeenRun(env, passes[..|passes| - 1]))
  }

  /** In every scan of the run the shortcuts could be trusted, for files no other library holds. */
  ghost predicate TrustedRun(env: Env, passes: seq<Pass>) {
    passes == [] ||
    var n := |passes| - 1;
    TrustedRun(env, passes[..n]) &&
    AllTrusted(Scans(State(map[], map[], 0), env, passes[..n]), env, passes[n].library, passes[n].disk,
               Found(passes[n].walk), SeenRun(env, passes[..n]))
  }

  lemma {:induction false} RunAgrees(env: Env, passes: seq<Pass>)
    requires TrustedRun(env, passes)
    ensures Inv(Scans(State(map[], map[], 0), env, passes), env, SeenRun(env, passes))
    ensures passes != [] ==>
              var last := passes[|passes| - 1];
              forall p :: p in Found(last.walk) ==>
                && Current(Scans(State(map[], map[], 0), env, passes), env, last.library, last.disk, p)
                && Indexed(Scans(State(map[], map[], 0), env, passes), env, last.library, last.disk, p)
  {
    hide Scan, Inv, AllTrusted, Current, Indexed, SeenAfterAll;
    if passes == [] {
      EmptyInv(env);
    } else {
      var n := |passes| - 1;
      RunAgrees(env, passes[..n]);
      ScanAgrees(Scans(State(map[], map[], 0), env, passes[..n]), env, passes[n], SeenRun(env, passes[..n]));
    }
  }

  lemma EmptyInv(env: Env)
    ensures Inv(State(map[], map[], 0), env, map[])
  {
    assert forall c :: !Named(map[], c);
  }

  /* ---- which rows there are ---- */

  lemma {:induction false} ProcessAllRows(s: State, env: Env, library: string, disk: Disk, found: seq<string>,
                                          p: string)
    requires CoversInStep(s)
    ensures var t := ProcessAll(s, env, library, disk, found);
            && CoversInStep(t)
            && (p in t.books <==> p in s.books || (p in found && Parses(env, library, disk, p)))
            && (Owned(s.books, library, p) ==> Owned(t.books, library, p))
            && (p in s.books && p !in found ==> t.books[p] == s.books[p])
  {
    hide Process, Parses, CoversInStep;
    if found != [] {
      var n := |found| - 1;
      ProcessAllRows(s, env, library, disk, found[..n], p);
      var s1 := ProcessAll(s, env, library, disk, found[..n]);
      ProcessOthers(s1, env, library, disk, found[n]);
      ProcessLibrary(s1, env, library, disk, found[n]);
      ProcessCovers(s1, env, library, disk, found[n]);
      assert p in found <==> p in found[..n] || p == found[n];
    }
  }

  lemma ProcessLibrary(s: State, env: Env, library: string, disk: Disk, path: string)
    ensures Owned(s.books, library, path) ==> Owned(Process(s, env, library, disk, path).books, library, path)
  {
  }

  /** The library's rows are exactly the found files that parse or already had one; rows of other
      libraries are not touched. */
  lemma RowsAreFiles(s: State, t: State, env: Env, library: string, disk: Disk, walk: seq<Visit>)
    requires CoversInStep(s) && forall p :: p in Found(walk) ==> Owned(s.books, library, p)
    requires Scan(s, env, library, disk, walk) == Scanned(t)
    ensures OfLibrary(t.books, library)
            == set p | p in Found(walk) && (p in s.books || Parses(env, library, disk, p))
    ensures forall p :: p in s.books && s.books[p].library != library ==> p in t.books && t.books[p] == s.books[p]
  {
    hide ProcessAll, Parses, CoversInStep, Purge;
    var found := Found(walk);
    var s1 := ProcessAll(s, env, library, disk, found);
    forall p
      ensures p in OfLibrary(t.books, library) <==> p in found && (p in s.books || Parses(env, library, disk, p))
    {
      ProcessAllRows(s, env, library, disk, found, p);
      PurgeKeeps(s1, library, found, p);
    }
    forall p | p in s.books && s.books[p].library != library ensures p in t.books && t.books[p] == s.books[p] {
      ProcessAllRows(s, env, library, disk, found, p);
      PurgeKeeps(s1, library, found, p);
    }
  }

  /** An empty walk over a library with books changes nothing at all. */
  lemma RefusalKeepsAll(s: State, env: Env, library: string, disk: Disk, walk: seq<Visit>)
    ensures Scan(s, env, library, disk, walk).Refused? <==> Found(walk) == [] && OfLibrary(s.books, library) != {}
    ensures Scan(s, env, library, disk, walk).Refused? ==> After(Scan(s, env, library, disk, walk)) == s
  {
  }

  /* ---- a second scan ---- */

  /** Processing the file would change no row and no cover. */
  predicate Quiet(s: State, env: Env, library: string, disk: Disk, path: string) {
    var t := Process(s, env, library, disk, path);
    t.books == s.books && t.covers == s.covers
  }

  lemma ProcessQuiets(s: State, env: Env, library: string, disk: Disk, path: string)
    requires Owned(s.books, library, path) && (path in s.books ==> s.books[path].path == path)
    ensures Quiet(Process(s, env, library, disk, path), env, library, disk, path)
  {
    hide Parse, Reindex;
    if path in disk && Parse(env, library, path, disk[path].content).Some? {
      var p := Parse(env, library, path, disk[path].content).value;
      var id := if path in s.books then s.books[path].id else s.nextId;
      var s1 := if path in s.books then s else s.(nextId := s.nextId + 1);
      ReindexRow(s1, env, library, path, disk[path], id, p);
    }
  }

  /** Whether a file is quiet depends on its row alone. */
  lemma QuietByRow(s: State, t: State, env: Env, library: string, disk: Disk, path: string)
    requires Quiet(s, env, library, disk, path) && Owned(s.books, library, path)
    requires path in t.books <==> path in s.books
    requires path in s.books ==> t.books[path] == s.books[path]
    ensures Quiet(t, env, library, disk, path)
  {
    hide Parse, Reindex;
    if path in disk && Parse(env, library, path, disk[path].content).Some? {
      var p := Parse(env, library, path, disk[path].content).value;
      var id := if path in s.books then s.books[path].id else s.nextId;
      var s1 := if path in s.books then s else s.(nextId := s.nextId + 1);
      ReindexRow(s1, env, library, path, disk[path], id, p);
    }
  }

  lemma {:induction false} QuietAll(s: State, env: Env, library: string, disk: Disk, found: seq<string>)
    requires forall p :: p in found ==> Quiet(s, env, library, disk, p) && Owned(s.books, library, p)
    ensures var t := ProcessAll(s, env, library, disk, found); t.books == s.books && t.covers == s.covers
  {
    hide Quiet, Process;
    if found != [] {
      var n := |found| - 1;
      QuietAll(s, env, library, disk, found[..n]);
      var s1 := ProcessAll(s, env, library, disk, found[..n]);
      QuietByRow(s, s1, env, library, disk, found[n]);
      QuietMeans(s1, env, library, disk, found[n]);
    }
  }

  lemma QuietMeans(s: State, env: Env, library: string, disk: Disk, path: string)
    requires Quiet(s, env, library, disk, path)
    ensures Process(s, env, library, disk, path).books == s.books
    ensures Process(s, env, library, disk, path).covers == s.covers
  {
  }

  lemma {:induction false} ProcessAllQuiets(s: State, env: Env, library: string, disk: Disk, found: seq<string>,
                                            p: string)
    requires CoversInStep(s) && Owned(s.books, library, p) && p in found
    ensures Quiet(ProcessAll(s, env, library, disk, found), env, library, disk, p)
  {
    hide Quiet, Process, CoversInStep;
    var n := |found| - 1;
    var s1 := ProcessAll(s, env, library, disk, found[..n]);
    ProcessAllRows(s, env, library, disk, found[..n], p);
    if p == found[n] {
      OwnIdsOf(s1, p);
      ProcessQuiets(s1, env, library, disk, p);
    } else {
      ProcessAllQuiets(s, env, library, disk, found[..n], p);
      ProcessOthers(s1, env, library, disk, found[n]);
      QuietByRow(s1, Process(s1, env, library, disk, found[n]), env, library, disk, p);
    }
  }

  lemma OwnIdsOf(s: State, p: string)
    requires CoversInStep(s)
    ensures p in s.books ==> s.books[p].path == p
  {
  }

  /** Scanning again with every file looking as it did changes no row and no cover file, trusted shortcuts or not. */
  lemma SecondScanIsQuiet(s: State, t: State, env: Env, library: string, disk: Disk, walk: seq<Visit>)
    requires CoversInStep(s) && forall p :: p in Found(walk) ==> Owned(s.books, library, p)
    requires Scan(s, env, library, disk, walk) == Scanned(t)
    ensures var again := Scan(t, env, library, disk, walk);
            again.Scanned? && After(again).books == t.books && After(again).covers == t.covers
  {
    hide Quiet, ProcessAll, CoversInStep, Purge;
    var found := Found(walk);
    var s1 := ProcessAll(s, env, library, disk, found);
    forall p | p in found ensures Quiet(t, env, library, disk, p) && Owned(t.books, library, p) {
      ProcessAllRows(s, env, library, disk, found, p);
      ProcessAllQuiets(s, env, library, disk, found, p);
      PurgeKeeps(s1, library, found, p);
      QuietByRow(s1, t, env, library, disk, p);
    }
    QuietAll(t, env, library, disk, found);
    PurgeTwice(s1, ProcessAll(t, env, library, disk, found), library, found);
  }

  lemma PurgeTwice(s: State, t: State, library: string, found: seq<string>)
    requires t.books == Purge(s, library, found).books && t.covers == Purge(s, library, found).covers
    ensures Purge(t, library, found).books == t.books && Purge(t, library, found).covers == t.covers
    ensures found == [] ==> OfLibrary(t.books, library) == {}
  {
  }
}
