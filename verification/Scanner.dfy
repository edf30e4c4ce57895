/**
 The scanner of internal/scanner/scanner.go over the tables and files it changes.
 */
module Scanner {
  import opened Wrappers
  import opened FileNames
  import opened ScannerSpec
  import opened ScannerProofs

  datatype Report = Done(total: nat, updated: nat) | WalkFailed | RefusedToDelete

  /** The place of the first callback that reports the root itself unreadable, or the end. */
  function RootFailure(walk: seq<Visit>, library: string): (k: nat)
    ensures k <= |walk|
    ensures k < |walk| ==> walk[k].failed && walk[k].path == library
    ensures forall i :: 0 <= i < k ==> !(walk[i].failed && walk[i].path == library)
  {
    if walk == [] || (walk[0].failed && walk[0].path == library) then 0 else 1 + RootFailure(walk[1..], library)
  }

  lemma WalkStep(s: ScannerSpec.State, env: Env, library: string, disks: nat -> Disk, walk: seq<Visit>, i: nat)
    requires i < |walk|
    ensures var v := walk[i];
            var found, later := Found(walk[..i]), Found(walk[..i + 1]);
            if !v.failed && !v.isDir && Supported(v.path) then
              later == found + [v.path] &&
              ProcessEach(s, env, library, disks, later)
              == Process(ProcessEach(s, env, library, disks, found), env, library, disks(|found|), v.path)
            else later == found
  {
    hide Process, Supported;
    assert walk[..i + 1][..i] == walk[..i];
    assert (Found(walk[..i]) + [walk[i].path])[..|Found(walk[..i])|] == Found(walk[..i]);
  }

  lemma WalkStart(s: ScannerSpec.State, env: Env, library: string, disks: nat -> Disk, walk: seq<Visit>)
    ensures Found(walk[..0]) == [] && ProcessEach(s, env, library, disks, []) == s
  {
  }

  class Scanner {
    const env: Env
    /** The books table. */
    var books: Books
    /** The covers directory. */
    var covers: map<CoverPath, string>
    /** The next UUID. */
    var nextId: nat

    constructor (env: Env)
      ensures this.env == env && State() == ScannerSpec.State(map[], map[], 0)
    {
      this.env := env;
      books, covers, nextId := map[], map[], 0;
    }

    function State(): ScannerSpec.State
      reads this
    {
      ScannerSpec.State(books, covers, nextId)
    }

    /** Writes a cover under its book's id; no cover of another book is touched. */
    method SaveCover(id: nat, data: string, mediaType: string) returns (path: Option<CoverPath>, kept: string)
      modifies this`covers
      ensures path == (if data == "" then None else Some(CoverPath(id, CoverExt(mediaType))))
      ensures kept == (if data == "" then "" else mediaType)
      ensures covers == if data == "" then old(covers) else old(covers)[CoverPath(id, CoverExt(mediaType)) := data]
      ensures path.Some? ==> path.value.id == id && path.value in covers && covers[path.value] == data
      ensures forall c :: c in old(covers) && c.id != id ==> c in covers && covers[c] == old(covers)[c]
      ensures forall c :: c in covers && c !in old(covers) ==> path == Some(c)
    {
      if |data| == 0 { return None, ""; }
      var p := CoverPath(id, CoverExt(mediaType));
      covers := covers[p := data];
      return Some(p), mediaType;
    }

    /** The row has the size of the file and its time to the microsecond. */
    static predicate Unchanged(b: Book, f: File) {
      b.size == f.size && 1000 * b.modified <= f.mtime < 1000 * (b.modified + 1)
    }

    /** Brings the row of one file up to date; None is an error, Some(false) a skipped file. A file whose size
        and time are those of its row is skipped; one with the same hash only gets the new size and time; and any
        other goes to the parser for its extension, whose failure changes no row and no cover. */
    method ProcessFile(library: string, disk: Disk, path: string) returns (changed: Option<bool>)
      modifies this
      ensures State() == Process(old(State()), env, library, disk, path)
      ensures changed == Some(false) <==> path in disk && path in old(books) && Unchanged(old(books)[path], disk[path])
      ensures changed != Some(true) ==> books == old(books) && covers == old(covers)
      ensures changed == Some(true) ==>
                && path in books
                && (if path in old(books)
                    then books[path].id == old(books)[path].id && books[path].library == old(books)[path].library
                    else books[path].id == old(nextId) && books[path].library == library && nextId == old(nextId) + 1)
      ensures changed != Some(false) && path in disk ==>
                var f := disk[path];
                if path in old(books) && old(books)[path].hash == env.hash(f.content)
                then
                  && changed == Some(true) && covers == old(covers)
                  && path in books && Unchanged(books[path], f)
                  && books == old(books)[path := old(books)[path].(size := f.size, modified := books[path].modified)]
                else
                  && (HasExt(path, ".html") || HasExt(path, ".htm") ==>
                        (changed == Some(true) <==> env.openHtml(path, f.content).Some?))
                  && (HasExt(path, ".epub") ==>
                        (changed == Some(true) <==> env.openEpub(path, library, f.content).Some?))
                  && (changed == Some(true) ==> Indexed(State(), env, library, disk, path))
    {
      hide Reindex, HasExt, Indexed;
      if path !in disk { return None; }
      var f := disk[path];
      var found := path in books;
      if found && SameStats(books[path], f) { return Some(false); }
      var hash := env.hash(f.content);
      if found && books[path].hash == hash {
        books := books[path := books[path].(size := f.size, modified := Micros(f.mtime), hash := hash)];
        return Some(true);
      }
      WhichParser(env, library, path, f.content);
      hide Parse;
      var id := nextId;
      if found { id := books[path].id; } else { nextId := nextId + 1; }
      var parsed := Parse(env, library, path, f.content);
      if parsed == None { return None; }
      ReindexIsIndexed(State(), env, library, disk, path, id, parsed.value);
      StoredUnder(State(), env, library, path, f, id, parsed.value);
      Store(library, path, f, id, parsed.value, hash);
      return Some(true);
    }

    /** A row keeps its id and library; a new one gets those given. */
    static lemma StoredUnder(s: ScannerSpec.State, env: Env, library: string, path: string, f: File, id: nat, p: Parsed)
      ensures var t := Reindex(s, env, library, path, f, id, p);
              && path in t.books && t.nextId == s.nextId
              && (if path in s.books
                  then t.books[path].id == s.books[path].id && t.books[path].library == s.books[path].library
                  else t.books[path].id == id && t.books[path].library == library)
    {
      hide Base, Stem, Ext, Lower;
    }

    static lemma WhichParser(env: Env, library: string, path: string, content: string)
      ensures HasExt(path, ".html") || HasExt(path, ".htm") ==>
                (Parse(env, library, path, content).Some? <==> env.openHtml(path, content).Some?)
      ensures HasExt(path, ".epub") ==>
                (Parse(env, library, path, content).Some? <==> env.openEpub(path, library, content).Some?)
    {
      hide Stem, Ext, Lower;
    }

    /** Saves the cover and the row of a parsed file and removes the cover it supersedes. */
    method Store(library: string, path: string, f: File, id: nat, p: Parsed, hash: string)
      requires hash == env.hash(f.content)
      modifies this`books, this`covers
      ensures State() == Reindex(old(State()), env, library, path, f, id, p)
    {
      var superseded := if path in books then books[path].cover else None;
      var cover, coverType := SaveCover(id, p.cover, p.coverType);
      books := Upsert(books, Book(id, library, path, Base(path), f.size, hash, Micros(f.mtime), p.columns, cover,
                                  coverType, if IsHtml(path) then "html" else "epub"));
      if superseded.Some? && superseded != cover { covers := covers - {superseded.value}; }
    }

    /** Visits the library, indexes what it finds and forgets what is gone; the kth file found is read from
        disks(k). */
    method ScanLibrary(library: string, disks: nat -> Disk, walk: seq<Visit>) returns (report: Report)
      modifies this
      ensures report == WalkFailed <==> RootFailure(walk, library) < |walk|
      ensures report == WalkFailed ==>
                State() == ProcessEach(old(State()), env, library, disks, Found(walk[..RootFailure(walk, library)]))
      ensures report == RefusedToDelete ==> ScanEach(old(State()), env, library, disks, walk) == Refused(State())
      ensures report.Done? ==> ScanEach(old(State()), env, library, disks, walk) == Scanned(State())
      ensures report.Done? ==> report.updated <= report.total == |Found(walk)|
      ensures report.Done? && report.updated == 0 ==>
                forall p :: p in books ==> p in old(books) && books[p] == old(books)[p]
    {
      hide Process, Purge, ProcessEach, Found, Supported, RootFailure, OfLibrary;
      var found: seq<string>, updated := [], 0;
      var i := 0;
      WalkStart(State(), env, library, disks, walk);
      while i < |walk|
        invariant 0 <= i <= RootFailure(walk, library)
        invariant found == Found(walk[..i]) && updated <= |found|
        invariant State() == ProcessEach(old(State()), env, library, disks, found)
        invariant updated == 0 ==> books == old(books)
      {
        var v := walk[i];
        WalkStep(old(State()), env, library, disks, walk, i);
        if v.failed {
          if v.path == library { return WalkFailed; }
        } else if !v.isDir && Supported(v.path) {
          found := found + [v.path];
          var changed := ProcessFile(library, disks(|found| - 1), v.path);
          if changed == Some(true) { updated := updated + 1; }
        }
        i := i + 1;
      }
      assert walk[..|walk|] == walk;
      var existing := |OfLibrary(books, library)|;
      if |found| == 0 && existing > 0 { return RefusedToDelete; }
      DeleteBooksNotIn(library, found);
      return Done(|found|, updated);
    }

    /** Deletes the library's rows of other paths, and then the cover files they named. */
    method DeleteBooksNotIn(library: string, paths: seq<string>)
      modifies this`books, this`covers
      ensures State() == Purge(old(State()), library, paths)
      ensures forall p :: p in books ==> p in old(books) && books[p] == old(books)[p]
    {
      var gone := set p | p in books && books[p].library == library && p !in paths;
      var removed := set p | p in gone && books[p].cover.Some? :: books[p].cover.value;
      books := books - gone;
      covers := covers - removed;
    }
  }
}
