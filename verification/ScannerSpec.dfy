/**
 The library index of internal/scanner/scanner.go and internal/db/books.go on values: what
 processing one file and scanning a library do to the table of books and to the cover files.
 */
module ScannerSpec {
  import opened Wrappers
  import opened FileNames

  /** A file on disk; mtime counts nanoseconds. */
  datatype File = File(size: nat, mtime: int, content: string)

  type Disk = map<string, File>

  /** The columns a parser fills in. */
  datatype Columns = Columns(title: string, sortTitle: string, authors: seq<string>, language: string,
                             publisher: string, publishedAt: Option<string>, description: string, isbn: string,
                             seriesName: string, seriesIndex: Option<real>, pageCount: int, readingDirection: string)

  /** What parsing yields: columns, tags and a cover (empty if there is none). */
  datatype Parsed = Parsed(columns: Columns, cover: string, coverType: string)

  /** htmlbook.Open's result; card is the rendered thumbnail. */
  datatype HtmlBook = HtmlBook(title: string, sortTitle: string, authors: seq<string>, language: string,
                               readingDirection: string, card: string)

  /** The libraries the scanner rests on: a content hash and the two parsers. */
  datatype Env = Env(hash: string -> string,
                     openEpub: (string, string, string) -> Option<Parsed>,
                     openHtml: (string, string) -> Option<HtmlBook>)

  /** dataDir/covers/<uuid><ext>: a UUID prints as 36 characters without a dot, so the pair is the path. */
  datatype CoverPath = CoverPath(id: nat, ext: string)

  datatype Book = Book(id: nat, library: string, path: string, filename: string, size: nat, hash: string,
                       modified: int, columns: Columns, cover: Option<CoverPath>, coverType: string, format: string)

  type Books = map<string, Book>

  /** books is keyed by path, which is UNIQUE; ids below nextId may be in use. */
  datatype State = State(books: Books, covers: map<CoverPath, string>, nextId: nat)

  predicate IsEpub(path: string) {
    HasExt(path, ".epub")
  }

  predicate IsHtml(path: string) {
    HasExt(path, ".html") || HasExt(path, ".htm")
  }

  predicate Supported(path: string) {
    IsEpub(path) || IsHtml(path)
  }

  /** A timestamp as the database keeps it: microseconds. */
  function Micros(mtime: int): int {
    mtime / 1000
  }

  function CoverExt(mediaType: string): string {
    if mediaType == "image/jpeg" then ".jpg"
    else if mediaType == "image/png" then ".png"
    else if mediaType == "image/webp" then ".webp"
    else if mediaType == "image/gif" then ".gif"
    else ".jpg"
  }

  /** Either parser, with the fixed columns of the HTML branch. */
  function Parse(env: Env, library: string, path: string, content: string): Option<Parsed> {
    if IsHtml(path) then
      match env.openHtml(path, content)
      case None => None
      case Some(b) =>
        Some(Parsed(Columns(b.title, b.sortTitle, b.authors, b.language, "", None, "", "", Stem(path), None, 1,
                            b.readingDirection), b.card, "image/png"))
    else env.openEpub(path, library, content)
  }

  /* ---- an index from scratch ---- */

  function CoverOf(id: nat, p: Parsed): Option<CoverPath> {
    if p.cover == "" then None else Some(CoverPath(id, CoverExt(p.coverType)))
  }

  function RowOf(env: Env, library: string, path: string, f: File, id: nat, p: Parsed): Book {
    Book(id, library, path, Base(path), f.size, env.hash(f.content), Micros(f.mtime), p.columns,
         CoverOf(id, p), if p.cover == "" then "" else p.coverType, if IsHtml(path) then "html" else "epub")
  }

  /** The row a fresh index of the file would hold, under the given id. */
  function Index(env: Env, library: string, path: string, f: File, id: nat): Option<Book> {
    match Parse(env, library, path, f.content)
    case None => None
    case Some(p) => Some(RowOf(env, library, path, f, id, p))
  }

  /* ---- processFile ---- */

  predicate SameStats(b: Book, f: File) {
    b.size == f.size && b.modified == Micros(f.mtime)
  }

  /** ON CONFLICT (path): every column but id and library is overwritten. */
  function Upsert(books: Books, b: Book): Books {
    if b.path in books then books[b.path := b.(id := books[b.path].id, library := books[b.path].library)]
    else books[b.path := b]
  }

  /** os.Remove of the cover a re-parsed book no longer has. */
  function DropSuperseded(covers: map<CoverPath, string>, was: Option<CoverPath>, now: Option<CoverPath>)
    : map<CoverPath, string> {
    if was.Some? && was != now then covers - {was.value} else covers
  }

  function Reindex(s: State, env: Env, library: string, path: string, f: File, id: nat, p: Parsed): State {
    var b := RowOf(env, library, path, f, id, p);
    var written := if b.cover.Some? then s.covers[b.cover.value := p.cover] else s.covers;
    var was := if path in s.books then s.books[path].cover else None;
    s.(books := Upsert(s.books, b), covers := DropSuperseded(written, was, b.cover))
  }

  function Process(s: State, env: Env, library: string, disk: Disk, path: string): State {
    if path !in disk then s
    else
      var f := disk[path];
      var found := path in s.books;
      if found && SameStats(s.books[path], f) then s
      else if found && s.books[path].hash == env.hash(f.content) then
        var b := s.books[path].(size := f.size, modified := Micros(f.mtime), hash := env.hash(f.content));
        s.(books := s.books[path := b])
      else
        var id := if found then s.books[path].id else s.nextId;
        var s1 := if found then s else s.(nextId := s.nextId + 1);
        match Parse(env, library, path, f.content)
        case None => s1
        case Some(p) => Reindex(s1, env, library, path, f, id, p)
  }

  function ProcessAll(s: State, env: Env, library: string, disk: Disk, found: seq<string>): State {
    if found == [] then s
    else Process(ProcessAll(s, env, library, disk, found[..|found| - 1]), env, library, disk, found[|found| - 1])
  }

  /* ---- ScanLibrary ---- */

  /** One callback of WalkDir; failed: it was called with an error. */
  datatype Visit = Visit(path: string, isDir: bool, failed: bool)

  /** The files the walk hands to processFile. */
  function Found(walk: seq<Visit>): seq<string> {
    if walk == [] then []
    else
      var v := walk[|walk| - 1];
      Found(walk[..|walk| - 1]) + (if !v.failed && !v.isDir && Supported(v.path) then [v.path] else [])
  }

  function OfLibrary(books: Books, library: string): set<string> {
    set p | p in books && books[p].library == library
  }

  /** DeleteBooksNotIn and the removal of the covers it returns. */
  function Purge(s: State, library: string, found: seq<string>): State {
    var gone := set p | p in s.books && s.books[p].library == library && p !in found;
    var covers := set p | p in gone && s.books[p].cover.Some? :: s.books[p].cover.value;
    s.(books := s.books - gone, covers := s.covers - covers)
  }

  datatype Outcome = Scanned(State) | Refused(State)

  /** A scan whose root could be read: refused if nothing was found although books exist. */
  function Scan(s: State, env: Env, library: string, disk: Disk, walk: seq<Visit>): Outcome {
    var found := Found(walk);
    var s1 := ProcessAll(s, env, library, disk, found);
    if found == [] && OfLibrary(s1.books, library) != {} then Refused(s1)
    else Scanned(Purge(s1, library, found))
  }

  /* ---- a disk that changes during the scan ---- */

  /** Processing while the disk changes: disks(k) is what the kth file found is read from. */
  function ProcessEach(s: State, env: Env, library: string, disks: nat -> Disk, found: seq<string>): State {
    if found == [] then s
    else
      var n := |found| - 1;
      Process(ProcessEach(s, env, library, disks, found[..n]), env, library, disks(n), found[n])
  }

  /** ScanLibrary while the disk changes. */
  function ScanEach(s: State, env: Env, library: string, disks: nat -> Disk, walk: seq<Visit>): Outcome {
    var found := Found(walk);
    var s1 := ProcessEach(s, env, library, disks, found);
    if found == [] && OfLibrary(s1.books, library) != {} then Refused(s1)
    else Scanned(Purge(s1, library, found))
  }
}
