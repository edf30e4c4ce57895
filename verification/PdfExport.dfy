/**
 internal/api/pdf_export.go: the hand-written PDF of full-page images and the method that
 writes it. PdfRoundTrip shows when a PDF reader recovers every page from it.

 A char stands for one byte. The text of an object header is the printed form of its PDF
 value: PdfSyntax.Print puts the same single spaces as the format strings of the source.
 */
module PdfExport {
  import opened Wrappers
  import opened Decimal
  import opened PdfSyntax

  /** jpegData is None where the source's slice is nil. */
  datatype PdfPage = PdfPage(jpegData: Option<string>, width: int, height: int)

  const CATALOG: nat := 1
  const PAGES: nat := 2

  const XREF_LIMIT: nat := 10_000_000_000

  const MAGIC: string := "%PDF-1.4\n%\U{00E2}\U{00E3}\U{00CF}\U{00D3}\n"

  /* ---- object headers ---- */

  /** "<< /Type /Catalog /Pages 2 0 R >>" */
  function CatalogVal(): Val {
    Dict(Entry("Type", Name("Catalog"), Entry("Pages", Ref(PAGES, 0), NoEntries)))
  }

  /** References to the page objects of pages i..n: "3+3i 0 R 3+3(i+1) 0 R ..." */
  function Kids(i: nat, n: nat): Vals
    decreases n - i
  {
    if i >= n then NoVals else Vals(Ref(3 + 3 * i, 0), Kids(i + 1, n))
  }

  /** "<< /Type /Pages /Kids [...] /Count n >>" */
  function PagesVal(n: nat): Val {
    Dict(Entry("Type", Name("Pages"), Entry("Kids", Arr(Kids(0, n)), Entry("Count", Int(n), NoEntries))))
  }

  /** "<< /Length n >>" */
  function ContentVal(length: nat): Val {
    Dict(Entry("Length", Int(length), NoEntries))
  }

  function BoxVal(w: int, h: int): Val {
    Arr(Vals(Int(0), Vals(Int(0), Vals(Int(w), Vals(Int(h), NoVals)))))
  }

  /** "<< /Type /Page /Parent 2 0 R /MediaBox [0 0 w h] /Resources << /XObject << /Im0 i 0 R >> >>
      /Contents c 0 R >>" */
  function PageVal(w: int, h: int, content: nat, image: nat): Val {
    Dict(Entry("Type", Name("Page"),
         Entry("Parent", Ref(PAGES, 0),
         Entry("MediaBox", BoxVal(w, h),
         Entry("Resources", Dict(Entry("XObject", Dict(Entry("Im0", Ref(image, 0), NoEntries)), NoEntries)),
         Entry("Contents", Ref(content, 0), NoEntries))))))
  }

  /** "<< /Type /XObject /Subtype /Image /Width w /Height h /ColorSpace /DeviceRGB
       /BitsPerComponent 8 /Filter /DCTDecode /Length n >>" */
  function ImageVal(w: int, h: int, length: nat): Val {
    Dict(Entry("Type", Name("XObject"),
         Entry("Subtype", Name("Image"),
         Entry("Width", Int(w),
         Entry("Height", Int(h), ImageTail(length))))))
  }

  function ImageTail(length: nat): Entries {
    Entry("ColorSpace", Name("DeviceRGB"),
    Entry("BitsPerComponent", Int(8),
    Entry("Filter", Name("DCTDecode"),
    Entry("Length", Int(length), NoEntries))))
  }

  /** "<< /Size n /Root 1 0 R >>" */
  function TrailerVal(size: nat): Val {
    Dict(Entry("Size", Int(size), Entry("Root", Ref(CATALOG, 0), NoEntries)))
  }

  /** The drawing commands of a page: the image scaled to the page box. */
  function ContentStream(w: int, h: int): string {
    "q " + IntText(w) + " 0 0 " + IntText(h) + " 0 0 cm /Im0 Do Q"
  }

  /* ---- the file ---- */

  /** What one call of writeObj appends. */
  function ObjText(num: nat, header: string, stream: Option<string>): string {
    Digits(num) + " 0 obj\n" + header
    + (if stream.Some? then "\nstream\n" + stream.value + "\nendstream" else "")
    + "\nendobj\n"
  }

  function Bytes(data: Option<string>): string {
    if data.Some? then data.value else ""
  }

  function ContentObj(p: PdfPage, i: nat): string {
    var content := ContentStream(p.width, p.height);
    ObjText(4 + 3 * i, Print(ContentVal(|content|)), Some(content))
  }

  function PageObj(p: PdfPage, i: nat): string {
    ObjText(3 + 3 * i, Print(PageVal(p.width, p.height, 4 + 3 * i, 5 + 3 * i)), None)
  }

  function ImageObj(p: PdfPage, i: nat): string {
    ObjText(5 + 3 * i, Print(ImageVal(p.width, p.height, |Bytes(p.jpegData)|)), p.jpegData)
  }

  function CatalogObj(): string {
    ObjText(CATALOG, Print(CatalogVal()), None)
  }

  function PagesObj(n: nat): string {
    ObjText(PAGES, Print(PagesVal(n)), None)
  }

  /** The three objects of a page, in the order they are written. */
  function PageText(p: PdfPage, i: nat): string {
    ContentObj(p, i) + PageObj(p, i) + ImageObj(p, i)
  }

  function Head(n: nat): string {
    MAGIC + CatalogObj() + PagesObj(n)
  }

  /** Everything before the cross-reference table once i pages are written. */
  function Body(pages: seq<PdfPage>, i: nat): string
    requires i <= |pages|
  {
    if i == 0 then Head(|pages|) else Body(pages, i - 1) + PageText(pages[i - 1], i - 1)
  }

  /** Offsets of the page, content and image objects (3+3i, 4+3i, 5+3i) of a page written at start. */
  function PageOffsets(p: PdfPage, i: nat, start: nat): (r: seq<nat>)
    ensures |r| == 3
  {
    var afterContent := start + |ContentObj(p, i)|;
    [afterContent, start, afterContent + |PageObj(p, i)|]
  }

  /** The offsets of objects 0, 1, ..., 2+3i (index 0 is unused). */
  function Offsets(pages: seq<PdfPage>, i: nat): (r: seq<nat>)
    requires i <= |pages|
    ensures |r| == 3 + 3 * i
  {
    if i == 0 then [0, |MAGIC|, |MAGIC + CatalogObj()|]
    else Offsets(pages, i - 1) + PageOffsets(pages[i - 1], i - 1, |Body(pages, i - 1)|)
  }

  function EntryText(offset: nat): string {
    Padded(offset, 10) + " 00000 n \n"
  }

  function EntriesText(offsets: seq<nat>): string {
    if offsets == [] then "" else EntryText(offsets[0]) + EntriesText(offsets[1..])
  }

  const FREE_ENTRY: string := "0000000000 65535 f \n"

  function XrefText(offsets: seq<nat>): string
    requires |offsets| >= 1
  {
    "xref\n0 " + Digits(|offsets|) + "\n" + FREE_ENTRY + EntriesText(offsets[1..])
  }

  function TailText(size: nat, xrefStart: nat): string {
    "trailer\n" + Print(TrailerVal(size)) + "\nstartxref\n" + Digits(xrefStart) + "\n%%EOF"
  }

  function FileText(pages: seq<PdfPage>): string {
    var body := Body(pages, |pages|);
    var offsets := Offsets(pages, |pages|);
    body + XrefText(offsets) + TailText(|offsets|, |body|)
  }

  /* ---- the exporter ---- */

  class PdfWriter {
    var buf: string
    const offsets: array<nat>

    constructor (totalObjs: nat)
      ensures buf == "" && fresh(offsets) && offsets.Length == totalObjs + 1
      ensures forall k :: 0 <= k < offsets.Length ==> offsets[k] == 0
    {
      buf := "";
      offsets := new nat[totalObjs + 1](_ => 0);
    }

    method WriteString(s: string)
      modifies this`buf
      ensures buf == old(buf) + s
    {
      buf := buf + s;
    }

    method WriteObj(num: nat, header: string, stream: Option<string>)
      requires num < offsets.Length
      modifies this`buf, offsets
      ensures buf == old(buf) + ObjText(num, header, stream)
      ensures offsets[..] == old(offsets[..])[num := |old(buf)|]
    {
      offsets[num] := |buf|;
      WriteString(Digits(num) + " 0 obj\n" + header);
      if stream.Some? {
        WriteString("\nstream\n");
        WriteString(stream.value);
        WriteString("\nendstream");
      }
      WriteString("\nendobj\n");
    }
  }

  method BuildImagesPDF(pages: seq<PdfPage>) returns (out: string)
    ensures out == FileText(pages)
  {
    hide Head, PageText, PageOffsets, XrefText, TailText;
    var n := |pages|;
    var totalObjs := 2 + 3 * n;
    var w := new PdfWriter(totalObjs);
    WriteHead(w, n);
    assert w.offsets[..3] == Offsets(pages, 0);

    for i := 0 to n
      invariant w.offsets.Length == totalObjs + 1
      invariant w.buf == Body(pages, i)
      invariant w.offsets[..3 + 3 * i] == Offsets(pages, i)
    {
      WritePage(w, pages[i], i);
    }

    assert w.offsets[..] == w.offsets[..3 + 3 * n];
    var xrefStart := |w.buf|;
    WriteXref(w, totalObjs);
    w.WriteString(TailText(totalObjs + 1, xrefStart));
    out := w.buf;
  }

  method WriteHead(w: PdfWriter, n: nat)
    requires w.buf == "" && w.offsets.Length >= 3 && w.offsets[0] == 0
    modifies w, w.offsets
    ensures w.buf == Head(n)
    ensures w.offsets[..3] == [0, |MAGIC|, |MAGIC + CatalogObj()|]
  {
    hide Print, ObjText;
    w.WriteString(MAGIC);
    w.WriteObj(CATALOG, Print(CatalogVal()), None);
    w.WriteObj(PAGES, Print(PagesVal(n)), None);
  }

  method WritePage(w: PdfWriter, p: PdfPage, i: nat)
    requires w.offsets.Length >= 6 + 3 * i
    modifies w, w.offsets
    ensures w.buf == old(w.buf) + PageText(p, i)
    ensures w.offsets[..6 + 3 * i] == old(w.offsets[..3 + 3 * i]) + PageOffsets(p, i, |old(w.buf)|)
  {
    hide Print, ObjText, ContentStream;
    var pageNum, contentNum, imageNum := 3 + 3 * i, 4 + 3 * i, 5 + 3 * i;
    var content := ContentStream(p.width, p.height);
    w.WriteObj(contentNum, Print(ContentVal(|content|)), Some(content));
    w.WriteObj(pageNum, Print(PageVal(p.width, p.height, contentNum, imageNum)), None);
    w.WriteObj(imageNum, Print(ImageVal(p.width, p.height, |Bytes(p.jpegData)|)), p.jpegData);
  }

  method WriteXref(w: PdfWriter, totalObjs: nat)
    requires w.offsets.Length == totalObjs + 1
    modifies w`buf
    ensures w.buf == old(w.buf) + XrefText(w.offsets[..])
  {
    hide EntryText;
    w.WriteString("xref\n0 " + Digits(totalObjs + 1) + "\n");
    w.WriteString(FREE_ENTRY);
    ghost var start := w.buf;
    for i := 1 to totalObjs + 1
      invariant w.buf == start + EntriesText(w.offsets[1..i])
    {
      EntriesSnoc(w.offsets[1..i], w.offsets[i]);
      assert w.offsets[1..i + 1] == w.offsets[1..i] + [w.offsets[i]];
      w.WriteString(EntryText(w.offsets[i]));
    }
    assert w.offsets[1..totalObjs + 1] == w.offsets[..][1..];
  }

  lemma {:induction false} EntriesSnoc(offsets: seq<nat>, x: nat)
    ensures EntriesText(offsets + [x]) == EntriesText(offsets) + EntryText(x)
  {
    hide EntryText;
    if offsets == [] {
      assert EntriesText([x]) == EntryText(x) + EntriesText([]);
    } else {
      EntriesSnoc(offsets[1..], x);
      assert (offsets + [x])[1..] == offsets[1..] + [x];
    }
  }
}
