/**
 A reader for single-section PDF files, by ISO 32000-1:2008: it finds the cross-reference
 table through "startxref" (7.5.5), reads its 20-byte entries (7.5.4), resolves indirect
 references through them, cuts stream data by /Length (7.3.8) and walks the page tree from
 /Root (7.7.2, 7.7.3). It knows nothing about the exporter.
 */
module PdfReader {
  import opened Wrappers
  import opened Decimal
  import opened PdfSyntax
  import opened PdfContent

  datatype XrefEntry = XrefEntry(offset: nat, gen: nat, inUse: bool)

  datatype Object = Object(val: Val, stream: Option<string>)

  /** An image as a viewer decodes it. */
  datatype SeenImage = SeenImage(width: int, height: int, colorSpace: string, bits: int, filter: string, data: string)

  /** One page as a viewer sees it: its box from the origin, and the image it draws with its placement. */
  datatype SeenPage = SeenPage(boxWidth: int, boxHeight: int, placement: Matrix, image: SeenImage)

  function Expect(s: string, keyword: string): (r: Option<string>)
    ensures r.Some? ==> s == keyword + r.value
  {
    if keyword <= s then Some(s[|keyword|..]) else None
  }

  function Get(v: Val, key: string): Option<Val> {
    if v.Dict? then Lookup(v.entries, key) else None
  }

  /* ---- indirect objects and streams ---- */

  function ReadStream(v: Val, s: string): Option<Object> {
    match Get(v, "Length")
    case Some(Int(n)) =>
      if 0 <= n <= |s| && Expect(s[n..], "\nendstream\nendobj").Some? then
        Some(Object(v, Some(s[..n])))
      else None
    case _ => None
  }

  function ReadObjectAt(file: string, offset: nat, num: nat): Option<Object> {
    if offset > |file| then None else
    match ParseNat(file[offset..])
    case None => None
    case Some((n, s1)) =>
      if n != num then None else
      match Expect(s1, " 0 obj\n")
      case None => None
      case Some(s2) =>
        match ParseVal(s2)
        case None => None
        case Some((v, s3)) =>
          match Expect(s3, "\nstream\n")
          case Some(s4) => ReadStream(v, s4)
          case None => if Expect(s3, "\nendobj").Some? then Some(Object(v, None)) else None
  }

  function Resolve(file: string, table: seq<XrefEntry>, ref: Option<Val>): Option<Object> {
    match ref
    case Some(Ref(num, gen)) =>
      if num < |table| && table[num].inUse && table[num].gen == gen then
        ReadObjectAt(file, table[num].offset, num)
      else None
    case _ => None
  }

  /* ---- cross-reference table ---- */

  predicate DigitsOnly(s: string) {
    forall i :: 0 <= i < |s| ==> IsDigit(s[i])
  }

  /** The fixed 20-byte form: ten digits, space, five digits, space, 'n' or 'f', space, newline. */
  function ReadEntry(s: string): Option<XrefEntry>
    requires |s| == 20
  {
    if && DigitsOnly(s[..10]) && s[10] == ' ' && DigitsOnly(s[11..16]) && s[16] == ' '
       && (s[17] == 'n' || s[17] == 'f') && s[18] == ' ' && s[19] == '\n'
    then Some(XrefEntry(Value(s[..10]), Value(s[11..16]), s[17] == 'n'))
    else None
  }

  function ReadEntries(s: string, count: nat): Option<(seq<XrefEntry>, string)> {
    if count == 0 then Some(([], s))
    else if |s| < 20 then None
    else
      match ReadEntry(s[..20])
      case None => None
      case Some(e) =>
        match ReadEntries(s[20..], count - 1)
        case None => None
        case Some((es, rest)) => Some(([e] + es, rest))
  }

  function ReadXref(s: string): Option<(seq<XrefEntry>, string)> {
    match Expect(s, "xref\n0 ")
    case None => None
    case Some(s1) =>
      match ParseNat(s1)
      case None => None
      case Some((count, s2)) =>
        match Expect(s2, "\n")
        case None => None
        case Some(s3) => ReadEntries(s3, count)
  }

  function TrailingDigits(s: string): (k: nat)
    ensures k <= |s|
    ensures forall i :: |s| - k <= i < |s| ==> IsDigit(s[i])
    ensures k < |s| ==> !IsDigit(s[|s| - k - 1])
  {
    if s == "" || !IsDigit(s[|s| - 1]) then 0 else 1 + TrailingDigits(s[..|s| - 1])
  }

  predicate EndsWith(s: string, t: string) {
    |t| <= |s| && s[|s| - |t|..] == t
  }

  /** The offset announced by "startxref" at the end of the file. */
  function StartXref(file: string): Option<nat> {
    if !EndsWith(file, "\n%%EOF") then None else
    var body := file[..|file| - 6];
    var k := TrailingDigits(body);
    if k == 0 || !EndsWith(body[..|body| - k], "startxref\n") then None
    else Some(Value(body[|body| - k..]))
  }

  /* ---- page tree ---- */

  function ReadBox(v: Option<Val>): Option<(int, int)> {
    match v
    case Some(Arr(Vals(Int(0), Vals(Int(0), Vals(Int(w), Vals(Int(h), NoVals)))))) => Some((w, h))
    case _ => None
  }

  function ReadImage(v: Val, data: string): Option<SeenImage> {
    if Get(v, "Type") != Some(Name("XObject")) || Get(v, "Subtype") != Some(Name("Image")) then None else
    match (Get(v, "Width"), Get(v, "Height"), Get(v, "ColorSpace"), Get(v, "BitsPerComponent"), Get(v, "Filter"))
    case (Some(Int(w)), Some(Int(h)), Some(Name(space)), Some(Int(bits)), Some(Name(filter))) =>
      Some(SeenImage(w, h, space, bits, filter, data))
    case _ => None
  }

  /** The image of that name among a page's resources. */
  function FindImage(file: string, table: seq<XrefEntry>, page: Val, name: string): Option<SeenImage> {
    match Get(page, "Resources")
    case None => None
    case Some(resources) =>
      match Get(resources, "XObject")
      case None => None
      case Some(xobjects) =>
        match Resolve(file, table, Get(xobjects, name))
        case Some(Object(v, Some(data))) => ReadImage(v, data)
        case _ => None
  }

  function ReadPage(file: string, table: seq<XrefEntry>, parent: Val, kid: Val): Option<SeenPage> {
    match Resolve(file, table, Some(kid))
    case None => None
    case Some(Object(page, _)) =>
      if Get(page, "Type") != Some(Name("Page")) || Get(page, "Parent") != Some(parent) then None else
      match (ReadBox(Get(page, "MediaBox")), Resolve(file, table, Get(page, "Contents")))
      case (Some((bw, bh)), Some(Object(_, Some(content)))) =>
        (match ReadDrawing(content)
         case None => None
         case Some(Drawing(m, name)) =>
           match FindImage(file, table, page, name)
           case None => None
           case Some(image) => Some(SeenPage(bw, bh, m, image)))
      case _ => None
  }

  function ReadKids(file: string, table: seq<XrefEntry>, parent: Val, kids: Vals): Option<seq<SeenPage>> {
    match kids
    case NoVals => Some([])
    case Vals(kid, more) =>
      match (ReadPage(file, table, parent, kid), ReadKids(file, table, parent, more))
      case (Some(p), Some(ps)) => Some([p] + ps)
      case _ => None
  }

  function ReadPageTree(file: string, table: seq<XrefEntry>, trailer: Val): Option<seq<SeenPage>> {
    match Resolve(file, table, Get(trailer, "Root"))
    case None => None
    case Some(Object(catalog, _)) =>
      if Get(catalog, "Type") != Some(Name("Catalog")) then None else
      match Resolve(file, table, Get(catalog, "Pages"))
      case None => None
      case Some(Object(tree, _)) =>
        var root := Get(catalog, "Pages").value;
        match (Get(tree, "Type"), Get(tree, "Kids"), Get(tree, "Count"))
        case (Some(Name("Pages")), Some(Arr(kids)), Some(Int(count))) =>
          (match ReadKids(file, table, root, kids)
           case Some(ps) => if |ps| == count then Some(ps) else None
           case None => None)
        case _ => None
  }

  /** The pages of a file, or None when the file does not follow the format. */
  function ReadPdf(file: string): Option<seq<SeenPage>> {
    if Expect(file, "%PDF-1.4\n").None? then None else
    match StartXref(file)
    case None => None
    case Some(start) =>
      if start > |file| then None else
      match ReadXref(file[start..])
      case None => None
      case Some((table, s1)) =>
        match Expect(s1, "trailer\n")
        case None => None
        case Some(s2) =>
          match ParseVal(s2)
          case None => None
          case Some((trailer, _)) =>
            if Get(trailer, "Size") != Some(Int(|table|)) then None
            else ReadPageTree(file, table, trailer)
  }
}
