/**
 The exporter and the reader meet: the reader recovers exactly the exported pages, whatever
 bytes their image data holds, if and only if every page carries data and every object starts
 within the ten digits of a cross-reference entry.
 */
module PdfRoundTrip {
  import opened Wrappers
  import opened Decimal
  import opened PdfSyntax
  import opened PdfContent
  import opened PdfReader
  import opened PdfExport

  /** What a viewer should see of an exported page: its image in RGB, 8 bits a component, JPEG-coded, in a box
      of its own size, which it fills. */
  function Seen(p: PdfPage): SeenPage {
    SeenPage(p.width, p.height, Matrix(p.width, 0, 0, p.height, 0, 0),
             SeenImage(p.width, p.height, "DeviceRGB", 8, "DCTDecode",
                       if p.jpegData.Some? then p.jpegData.value else ""))
  }

  /** Where a placement takes a point of the unit square. */
  function PlaceX(m: Matrix, x: real, y: real): real {
    m.a as real * x + m.c as real * y + m.e as real
  }

  function PlaceY(m: Matrix, x: real, y: real): real {
    m.b as real * x + m.d as real * y + m.f as real
  }

  predicate InBox(page: SeenPage, x: real, y: real) {
    0.0 <= x <= page.boxWidth as real && 0.0 <= y <= page.boxHeight as real
  }

  /** The image of an exported page covers exactly its box: every point of the image lies in it, and every
      point of it shows one point of the image. */
  lemma ImageFillsBox(p: PdfPage, x: real, y: real) returns (u: real, v: real)
    requires p.width > 0 && p.height > 0
    ensures 0.0 <= x <= 1.0 && 0.0 <= y <= 1.0 ==>
              InBox(Seen(p), PlaceX(Seen(p).placement, x, y), PlaceY(Seen(p).placement, x, y))
    ensures InBox(Seen(p), x, y) ==>
              && 0.0 <= u <= 1.0 && 0.0 <= v <= 1.0
              && PlaceX(Seen(p).placement, u, v) == x && PlaceY(Seen(p).placement, u, v) == y
  {
    hide PlaceX, PlaceY;
    Scaled(p.width, x);
    Scaled(p.height, y);
    u := x / p.width as real;
    v := y / p.height as real;
    Placed(p.width, p.height, x, y);
    Placed(p.width, p.height, u, v);
  }

  lemma Placed(w: int, h: int, x: real, y: real)
    ensures PlaceX(Matrix(w, 0, 0, h, 0, 0), x, y) == w as real * x
    ensures PlaceY(Matrix(w, 0, 0, h, 0, 0), x, y) == h as real * y
  {
  }

  lemma Scaled(n: int, x: real)
    requires n > 0
    ensures 0.0 <= x <= 1.0 ==> 0.0 <= n as real * x <= n as real
    ensures n as real * (x / n as real) == x
    ensures 0.0 <= x <= n as real ==> 0.0 <= x / n as real <= 1.0
  {
    var q := x / n as real;
    if 0.0 <= x <= n as real {
      assert q < 0.0 ==> n as real * q < 0.0;
      assert q > 1.0 ==> n as real * q > n as real;
    }
  }

  function AllSeen(pages: seq<PdfPage>): (r: seq<SeenPage>)
    ensures |r| == |pages|
  {
    seq(|pages|, i requires 0 <= i < |pages| => Seen(pages[i]))
  }

  ghost predicate AllHaveData(pages: seq<PdfPage>) {
    forall i :: 0 <= i < |pages| ==> pages[i].jpegData.Some?
  }

  /** Where the last object written starts: the last image, or the page tree of an empty file. */
  function LastOffset(pages: seq<PdfPage>): nat {
    var offsets := Offsets(pages, |pages|);
    offsets[|offsets| - 1]
  }

  /* ---- one object ---- */

  lemma ExpectDrops(keyword: string, rest: string)
    ensures Expect(keyword + rest, keyword) == Some(rest)
  {
    assert keyword <= keyword + rest;
    assert (keyword + rest)[|keyword|..] == rest;
  }

  lemma ObjParts(num: nat, header: string, stream: Option<string>, rest: string)
    ensures ObjText(num, header, stream) + rest
         == Digits(num) + (" 0 obj\n" + (header + AfterHeader(stream, rest)))
  {
    hide Digits;
    var tail := if stream.Some? then "\nstream\n" + stream.value + "\nendstream" else "";
    StreamParts(stream, rest);
    ObjGlue(Digits(num), header, tail, rest);
  }

  lemma StreamParts(stream: Option<string>, rest: string)
    ensures (if stream.Some? then "\nstream\n" + stream.value + "\nendstream" else "") + ("\nendobj\n" + rest)
         == AfterHeader(stream, rest)
  {
    assert "\nendobj\n" + rest == "\nendobj" + ("\n" + rest);
  }

  lemma ObjGlue(num: string, header: string, tail: string, rest: string)
    ensures num + " 0 obj\n" + header + tail + "\nendobj\n" + rest
         == num + (" 0 obj\n" + (header + (tail + ("\nendobj\n" + rest))))
  {
  }

  function AfterHeader(stream: Option<string>, rest: string): string {
    if stream.Some? then "\nstream\n" + (stream.value + ("\nendstream\nendobj" + ("\n" + rest)))
    else "\nendobj" + ("\n" + rest)
  }

  lemma NoTailAfterNewline(t: string)
    requires |t| >= 2 && t[0] == '\n' && !IsSpace(t[1]) && !IsDigit(t[1])
    ensures Ends(t) && ParseRefTail(t) == None
  {
    assert t == "\n" + t[1..];
    SpanIs("\n", t[1..], Space);
  }

  /** An object written at an offset is read back from it, and its stream is cut by /Length
      alone: the data may contain any bytes. */
  lemma ObjectReadsBack(file: string, offset: nat, num: nat, v: Val, stream: Option<string>, rest: string)
    requires offset <= |file| && file[offset..] == ObjText(num, Print(v), stream) + rest
    requires WellFormed(v) && v.Dict?
    requires stream.Some? ==> Get(v, "Length") == Some(Int(|stream.value|))
    ensures ReadObjectAt(file, offset, num) == Some(Object(v, stream))
  {
    hide Print, ObjText, WellFormed, ParseVal, Digits, Get;
    var after := AfterHeader(stream, rest);
    var s2 := Print(v) + after;
    ObjParts(num, Print(v), stream, rest);
    NatReadsBack(num, " 0 obj\n" + s2);
    ExpectDrops(" 0 obj\n", s2);
    NoTailAfterNewline(after);
    ValReadsBack(v, after);
    AfterObject(v, stream, rest);
  }

  lemma AfterObject(v: Val, stream: Option<string>, rest: string)
    requires stream.Some? ==> Get(v, "Length") == Some(Int(|stream.value|))
    ensures var after := AfterHeader(stream, rest);
            match Expect(after, "\nstream\n")
            case Some(s4) => stream.Some? && ReadStream(v, s4) == Some(Object(v, stream))
            case None => stream.None? && Expect(after, "\nendobj").Some?
  {
    hide Get;
    if stream.Some? {
      var tail := "\nendstream\nendobj" + ("\n" + rest);
      var data := stream.value;
      ExpectDrops("\nstream\n", data + tail);
      assert (data + tail)[..|data|] == data && (data + tail)[|data|..] == tail;
      ExpectDrops("\nendstream\nendobj", "\n" + rest);
    } else {
      var after := "\nendobj" + ("\n" + rest);
      ExpectDrops("\nendobj", "\n" + rest);
      assert after[1] == 'e' && "\nstream\n"[1] == 's';
    }
  }

  /* ---- cross-reference table ---- */

  function Table(offsets: seq<nat>): (r: seq<XrefEntry>) {
    seq(|offsets|, k requires 0 <= k < |offsets| => XrefEntry(offsets[k], 0, true))
  }

  ghost predicate Narrow(offsets: seq<nat>) {
    forall k :: 0 <= k < |offsets| ==> offsets[k] < XREF_LIMIT
  }

  lemma TenDigits()
    ensures Pow10(10) == XREF_LIMIT
  {
    assert Pow10(5) == 100_000;
    assert Pow10(7) == 100 * Pow10(5);
    assert Pow10(9) == 100 * Pow10(7);
    assert Pow10(10) == 10 * Pow10(9);
  }

  lemma EntryReadsBack(offset: nat)
    requires offset < XREF_LIMIT
    ensures |EntryText(offset)| == 20
    ensures ReadEntry(EntryText(offset)) == Some(XrefEntry(offset, 0, true))
  {
    TenDigits();
    PaddedLength(offset, 10);
    var s := EntryText(offset);
    assert s[..10] == Padded(offset, 10);
    assert s[11..16] == "00000";
    ZeroValue();
  }

  lemma ZeroValue()
    ensures Value("00000") == 0
  {
    assert "00000"[..4] == "0000" && "0000"[..3] == "000" && "000"[..2] == "00" && "00"[..1] == "0" && "0"[..0] == "";
  }

  lemma WideEntryFails(offset: nat, rest: string)
    requires offset >= XREF_LIMIT
    ensures var s := EntryText(offset) + rest; |s| >= 20 && ReadEntry(s[..20]) == None
  {
    TenDigits();
    PaddedLength(offset, 10);
    var d := Padded(offset, 10);
    assert |d| >= 11 && IsDigit(d[10]);
    var s := EntryText(offset) + rest;
    assert s[..20][10] == d[10];
  }

  /** The entries read back when all are narrow, and the table is unreadable when one is not. */
  lemma {:induction false} EntriesReadBack(offsets: seq<nat>, rest: string)
    ensures ReadEntries(EntriesText(offsets) + rest, |offsets|)
         == if Narrow(offsets) then Some((Table(offsets), rest)) else None
  {
    hide EntryText, ReadEntry;
    var s := EntriesText(offsets) + rest;
    if offsets == [] {
      assert s == rest;
      assert Table(offsets) == [];
    } else {
      var x, more := offsets[0], offsets[1..];
      var s' := EntriesText(more) + rest;
      assert s == EntryText(x) + s';
      EntriesReadBack(more, rest);
      if x < XREF_LIMIT {
        EntryReadsBack(x);
        assert s[..20] == EntryText(x) && s[20..] == s';
        assert Narrow(offsets) <==> Narrow(more) by {
          assert forall k :: 0 <= k < |more| ==> more[k] == offsets[k + 1];
          assert forall k :: 0 < k < |offsets| ==> offsets[k] == more[k - 1];
        }
        assert [XrefEntry(x, 0, true)] + Table(more) == Table(offsets);
      } else {
        WideEntryFails(x, s');
      }
    }
  }

  /** The whole table, with the free entry of object 0 first. */
  function FullTable(offsets: seq<nat>): seq<XrefEntry>
    requires |offsets| >= 1
  {
    [XrefEntry(0, 65535, false)] + Table(offsets[1..])
  }

  lemma FullTableLength(offsets: seq<nat>)
    requires |offsets| >= 1
    ensures |FullTable(offsets)| == |offsets|
  {
  }

  lemma FreeEntry()
    ensures |FREE_ENTRY| == 20 && ReadEntry(FREE_ENTRY) == Some(XrefEntry(0, 65535, false))
  {
    assert FREE_ENTRY[..10] == "00000" + "00000";
    ZeroValue();
    ZerosKeepValue(5, "00000");
    assert Zeros(5) == "00000";
    assert FREE_ENTRY[11..16] == "65535";
    assert "65535"[..4] == "6553" && "6553"[..3] == "655" && "655"[..2] == "65" && "65"[..1] == "6" && "6"[..0] == "";
    assert Value("65") == 65;
    assert Value("655") == 655;
  }

  lemma XrefReadsBack(offsets: seq<nat>, rest: string)
    requires |offsets| >= 1
    ensures ReadXref(XrefText(offsets) + rest)
         == if Narrow(offsets[1..]) then Some((FullTable(offsets), rest)) else None
  {
    hide EntriesText, ReadEntry, ReadEntries, Digits;
    var es := EntriesText(offsets[1..]) + rest;
    var s3 := FREE_ENTRY + es;
    var s2 := "\n" + s3;
    var s1 := Digits(|offsets|) + s2;
    XrefParts(Digits(|offsets|), EntriesText(offsets[1..]), rest);
    ExpectDrops("xref\n0 ", s1);
    NatReadsBack(|offsets|, s2);
    ExpectDrops("\n", s3);
    FreeEntry();
    EntriesReadBack(offsets[1..], rest);
    FirstEntry(s3, es, offsets);
  }

  lemma XrefParts(count: string, entries: string, rest: string)
    ensures "xref\n0 " + count + "\n" + FREE_ENTRY + entries + rest
         == "xref\n0 " + (count + ("\n" + (FREE_ENTRY + (entries + rest))))
  {
  }

  lemma FirstEntry(s: string, es: string, offsets: seq<nat>)
    requires |offsets| >= 1 && s == FREE_ENTRY + es
    ensures ReadEntries(s, |offsets|) ==
            match ReadEntries(es, |offsets| - 1)
            case None => None
            case Some((t, rest)) => Some(([XrefEntry(0, 65535, false)] + t, rest))
  {
    FreeEntry();
    assert s[..20] == FREE_ENTRY && s[20..] == es;
  }

  /* ---- trailer ---- */

  lemma StartXrefReadsBack(before: string, xrefStart: nat)
    ensures StartXref(before + "\nstartxref\n" + Digits(xrefStart) + "\n%%EOF") == Some(xrefStart)
  {
    hide Digits;
    var file := before + "\nstartxref\n" + Digits(xrefStart) + "\n%%EOF";
    var body := file[..|file| - 6];
    var head := before + "\nstartxref\n";
    assert file[|file| - 6..] == "\n%%EOF";
    assert body == head + Digits(xrefStart);
    TrailingIs(head, Digits(xrefStart));
    assert head[|head| - 10..] == "startxref\n";
  }

  lemma {:induction false} TrailingIs(head: string, digits: string)
    requires head != "" && !IsDigit(head[|head| - 1])
    requires AllDigits(digits)
    ensures TrailingDigits(head + digits) == |digits|
    ensures (head + digits)[..|head|] == head && (head + digits)[|head|..] == digits
  {
    if digits == "" {
      assert head + digits == head;
    } else {
      var k := |digits| - 1;
      TrailingIs(head, digits[..k]);
      assert (head + digits)[..|head| + k] == head + digits[..k];
    }
  }

  lemma TailParts(size: nat, xrefStart: nat)
    ensures TailText(size, xrefStart)
         == "trailer\n" + (Print(TrailerVal(size)) + ("\nstartxref\n" + Digits(xrefStart) + "\n%%EOF"))
  {
    hide Print, Digits;
  }

  lemma TrailerReadsBack(size: nat, xrefStart: nat) returns (rest: string)
    ensures var s := TailText(size, xrefStart);
            Expect(s, "trailer\n").Some?
            && ParseVal(Expect(s, "trailer\n").value) == Some((TrailerVal(size), rest))
  {
    hide Print, Digits, ParseVal, WellFormed;
    TrailerFacts(size);
    rest := "\nstartxref\n" + Digits(xrefStart) + "\n%%EOF";
    TailParts(size, xrefStart);
    ExpectDrops("trailer\n", Print(TrailerVal(size)) + rest);
    NoTailAfterNewline(rest);
    ValReadsBack(TrailerVal(size), rest);
  }

  /* ---- the objects of the file ---- */

  lemma KidsAreWellFormed(i: nat, n: nat)
    ensures WellFormedItems(Kids(i, n))
    decreases n - i
  {
    if i < n {
      KidsAreWellFormed(i + 1, n);
    }
  }

  predicate IsKey(key: string) {
    forall i :: 0 <= i < |key| ==> IsRegular(key[i])
  }

  /** Adding an entry in front keeps a dictionary well-formed and hides only its own key. */
  lemma Wrap(key: string, v: Val, more: Entries)
    requires IsKey(key)
    requires WellFormed(v) && (more == NoEntries || WellFormedEntries(more))
    ensures WellFormedEntries(Entry(key, v, more))
    ensures Lookup(Entry(key, v, more), key) == Some(v)
    ensures forall k {:trigger Lookup(Entry(key, v, more), k)} :: k != key ==>
              Lookup(Entry(key, v, more), k) == Lookup(more, k)
  {
  }

  lemma Keys()
    ensures IsKey("Type") && IsKey("Pages") && IsKey("Kids") && IsKey("Count") && IsKey("Length") && IsKey("Page")
    ensures IsKey("Parent") && IsKey("MediaBox") && IsKey("Resources") && IsKey("XObject") && IsKey("Im0")
            && IsKey("Contents")
  {
  }

  lemma ImageKeys()
    ensures IsKey("Subtype") && IsKey("Image") && IsKey("Width") && IsKey("Height") && IsKey("ColorSpace")
    ensures IsKey("DeviceRGB") && IsKey("BitsPerComponent") && IsKey("Filter") && IsKey("DCTDecode")
  {
  }

  lemma CatalogFacts()
    ensures var v := CatalogVal();
            WellFormed(v) && Get(v, "Type") == Some(Name("Catalog")) && Get(v, "Pages") == Some(Ref(PAGES, 0))
  {
    var e1 := Entry("Pages", Ref(PAGES, 0), NoEntries);
    Wrap("Pages", Ref(PAGES, 0), NoEntries);
    Wrap("Type", Name("Catalog"), e1);
  }

  lemma PagesFacts(n: nat)
    ensures var v := PagesVal(n);
            && WellFormed(v)
            && Get(v, "Type") == Some(Name("Pages"))
            && Get(v, "Kids") == Some(Arr(Kids(0, n)))
            && Get(v, "Count") == Some(Int(n))
  {
    Keys();
    hide Kids, Lookup, WellFormedEntries, IsKey;
    KidsAreWellFormed(0, n);
    var e2 := Entry("Count", Int(n), NoEntries);
    var e1 := Entry("Kids", Arr(Kids(0, n)), e2);
    Wrap("Count", Int(n), NoEntries);
    Wrap("Kids", Arr(Kids(0, n)), e2);
    Wrap("Type", Name("Pages"), e1);
  }

  lemma ContentFacts(length: nat)
    ensures WellFormed(ContentVal(length)) && Get(ContentVal(length), "Length") == Some(Int(length))
  {
    Wrap("Length", Int(length), NoEntries);
  }

  lemma TrailerFacts(size: nat)
    ensures var v := TrailerVal(size);
            WellFormed(v) && Get(v, "Size") == Some(Int(size)) && Get(v, "Root") == Some(Ref(CATALOG, 0))
  {
    Wrap("Root", Ref(CATALOG, 0), NoEntries);
    Wrap("Size", Int(size), Entry("Root", Ref(CATALOG, 0), NoEntries));
  }

  lemma ItemAdded(v: Val, more: Vals)
    requires WellFormed(v) && (more == NoVals || WellFormedItems(more))
    ensures WellFormedItems(Vals(v, more)) && WellFormed(Arr(Vals(v, more)))
  {
  }

  lemma BoxWellFormed(w: int, h: int)
    ensures WellFormed(BoxVal(w, h))
  {
    hide WellFormedItems;
    ItemAdded(Int(h), NoVals);
    ItemAdded(Int(w), Vals(Int(h), NoVals));
    ItemAdded(Int(0), Vals(Int(w), Vals(Int(h), NoVals)));
    ItemAdded(Int(0), Vals(Int(0), Vals(Int(w), Vals(Int(h), NoVals))));
  }

  lemma PageFacts(w: int, h: int, content: nat, image: nat)
    ensures var v := PageVal(w, h, content, image);
            && WellFormed(v)
            && Get(v, "Type") == Some(Name("Page"))
            && Get(v, "Parent") == Some(Ref(PAGES, 0))
            && Get(v, "MediaBox") == Some(BoxVal(w, h))
            && Get(v, "Contents") == Some(Ref(content, 0))
            && Get(v, "Resources").Some?
            && Get(Get(v, "Resources").value, "XObject").Some?
            && Get(Get(Get(v, "Resources").value, "XObject").value, "Im0") == Some(Ref(image, 0))
  {
    Keys();
    hide BoxVal, Lookup, WellFormedEntries, IsKey;
    BoxWellFormed(w, h);
    var im := Entry("Im0", Ref(image, 0), NoEntries);
    Wrap("Im0", Ref(image, 0), NoEntries);
    var res := Entry("XObject", Dict(im), NoEntries);
    Wrap("XObject", Dict(im), NoEntries);
    var e4 := Entry("Contents", Ref(content, 0), NoEntries);
    Wrap("Contents", Ref(content, 0), NoEntries);
    var e3 := Entry("Resources", Dict(res), e4);
    Wrap("Resources", Dict(res), e4);
    var e2 := Entry("MediaBox", BoxVal(w, h), e3);
    Wrap("MediaBox", BoxVal(w, h), e3);
    var e1 := Entry("Parent", Ref(PAGES, 0), e2);
    Wrap("Parent", Ref(PAGES, 0), e2);
    Wrap("Type", Name("Page"), e1);
  }

  lemma ImageFacts(w: int, h: int, length: nat)
    ensures var v := ImageVal(w, h, length);
            && WellFormed(v)
            && Get(v, "Length") == Some(Int(length))
            && Get(v, "Type") == Some(Name("XObject"))
            && Get(v, "ColorSpace") == Some(Name("DeviceRGB"))
            && Get(v, "BitsPerComponent") == Some(Int(8))
            && Get(v, "Filter") == Some(Name("DCTDecode"))
            && Get(v, "Subtype") == Some(Name("Image"))
            && Get(v, "Width") == Some(Int(w))
            && Get(v, "Height") == Some(Int(h))
  {
    Keys();
    ImageKeys();
    hide Lookup, WellFormedEntries, IsKey;
    var e4 := ImageTail(length);
    ImageTailFacts(length);
    var e3 := Entry("Height", Int(h), e4);
    Wrap("Height", Int(h), e4);
    var e2 := Entry("Width", Int(w), e3);
    Wrap("Width", Int(w), e3);
    var e1 := Entry("Subtype", Name("Image"), e2);
    Wrap("Subtype", Name("Image"), e2);
    Wrap("Type", Name("XObject"), e1);
  }

  lemma ImageTailFacts(length: nat)
    ensures WellFormedEntries(ImageTail(length)) && Lookup(ImageTail(length), "Length") == Some(Int(length))
    ensures Lookup(ImageTail(length), "ColorSpace") == Some(Name("DeviceRGB"))
    ensures Lookup(ImageTail(length), "BitsPerComponent") == Some(Int(8))
    ensures Lookup(ImageTail(length), "Filter") == Some(Name("DCTDecode"))
  {
    Keys();
    ImageKeys();
    hide Lookup, WellFormedEntries, IsKey;
    var e7 := Entry("Length", Int(length), NoEntries);
    Wrap("Length", Int(length), NoEntries);
    var e6 := Entry("Filter", Name("DCTDecode"), e7);
    Wrap("Filter", Name("DCTDecode"), e7);
    var e5 := Entry("BitsPerComponent", Int(8), e6);
    Wrap("BitsPerComponent", Int(8), e6);
    Wrap("ColorSpace", Name("DeviceRGB"), e5);
  }

  lemma {:induction false} BodyGrows(pages: seq<PdfPage>, i: nat, j: nat)
    requires i <= j <= |pages|
    ensures Body(pages, i) <= Body(pages, j)
    decreases j
  {
    hide PageText, Head;
    if i < j {
      BodyGrows(pages, i, j - 1);
    }
  }

  lemma {:induction false} OffsetsGrow(pages: seq<PdfPage>, i: nat, j: nat)
    requires i <= j <= |pages|
    ensures Offsets(pages, i) <= Offsets(pages, j)
    decreases j
  {
    hide Body, PageOffsets;
    if i < j {
      OffsetsGrow(pages, i, j - 1);
    }
  }

  lemma HeadAt(pages: seq<PdfPage>, file: string) returns (afterCatalog: string, afterPages: string)
    requires Body(pages, |pages|) <= file
    ensures var offsets := Offsets(pages, |pages|);
            && offsets[1] <= |file| && offsets[2] <= |file|
            && file[offsets[1]..] == CatalogObj() + afterCatalog
            && file[offsets[2]..] == PagesObj(|pages|) + afterPages
  {
    hide CatalogObj, PagesObj, Offsets, Body;
    BodyGrows(pages, 0, |pages|);
    OffsetsGrow(pages, 0, |pages|);
    FirstParts(pages);
    var cat, tree := CatalogObj(), PagesObj(|pages|);
    afterPages := file[|MAGIC| + |cat| + |tree|..];
    afterCatalog := tree + afterPages;
    TwoParts(file, MAGIC, cat, tree);
  }

  lemma TwoParts(file: string, a: string, b: string, c: string)
    requires a + b + c <= file
    ensures file[|a|..] == b + (c + file[|a| + |b| + |c|..])
    ensures file[|a + b|..] == c + file[|a| + |b| + |c|..]
  {
    var rest := file[|a| + |b| + |c|..];
    assert file == a + b + c + rest;
    assert a + b + c + rest == a + (b + (c + rest));
  }

  lemma FirstParts(pages: seq<PdfPage>)
    ensures Body(pages, 0) == MAGIC + CatalogObj() + PagesObj(|pages|)
    ensures Offsets(pages, 0) == [0, |MAGIC|, |MAGIC + CatalogObj()|]
  {
    hide CatalogObj, PagesObj;
  }

  /** The three objects of page i stand in the file at the offsets of the table. */
  lemma PageObjectsAt(pages: seq<PdfPage>, file: string, i: nat)
    returns (afterPage: string, afterContent: string, afterImage: string)
    requires i < |pages| && Body(pages, |pages|) <= file
    ensures var offsets := Offsets(pages, |pages|);
            && offsets[3 + 3 * i] <= |file| && offsets[4 + 3 * i] <= |file| && offsets[5 + 3 * i] <= |file|
            && file[offsets[3 + 3 * i]..] == PageObj(pages[i], i) + afterPage
            && file[offsets[4 + 3 * i]..] == ContentObj(pages[i], i) + afterContent
            && file[offsets[5 + 3 * i]..] == ImageObj(pages[i], i) + afterImage
  {
    hide PageObj, ContentObj, ImageObj, Head, Body, Offsets;
    BodyGrows(pages, i + 1, |pages|);
    OffsetsGrow(pages, i + 1, |pages|);
    PageOffsetsAt(pages, i);
    BodyStep(pages, i);
    var start := Body(pages, i);
    var c, p, im := ContentObj(pages[i], i), PageObj(pages[i], i), ImageObj(pages[i], i);
    afterImage := file[|start| + |c| + |p| + |im|..];
    afterPage := im + afterImage;
    afterContent := p + afterPage;
    PartsAt(file, start, c, p, im);
  }

  lemma BodyStep(pages: seq<PdfPage>, i: nat)
    requires i < |pages|
    ensures Body(pages, i + 1)
         == Body(pages, i) + (ContentObj(pages[i], i) + PageObj(pages[i], i) + ImageObj(pages[i], i))
  {
    hide PageObj, ContentObj, ImageObj, Head;
  }

  lemma PartsAt(file: string, start: string, c: string, p: string, im: string)
    requires start + (c + p + im) <= file
    ensures var rest := file[|start| + |c| + |p| + |im|..];
            && file[|start|..] == c + (p + (im + rest))
            && file[|start| + |c|..] == p + (im + rest)
            && file[|start| + |c| + |p|..] == im + rest
  {
    var rest := file[|start| + |c| + |p| + |im|..];
    assert start + (c + p + im) + rest == start + c + p + (im + rest);
    assert file == start + (c + p + im) + rest;
  }

  lemma PageOffsetsAt(pages: seq<PdfPage>, i: nat)
    requires i < |pages|
    ensures var offsets, start := Offsets(pages, i + 1), |Body(pages, i)|;
            && offsets[4 + 3 * i] == start
            && offsets[3 + 3 * i] == start + |ContentObj(pages[i], i)|
            && offsets[5 + 3 * i] == start + |ContentObj(pages[i], i)| + |PageObj(pages[i], i)|
  {
    hide PageObj, ContentObj, Body;
  }

  lemma TableEntry(file: string, offsets: seq<nat>, num: nat)
    requires 1 <= num < |offsets|
    ensures Resolve(file, FullTable(offsets), Some(Ref(num, 0))) == ReadObjectAt(file, offsets[num], num)
  {
    hide ReadObjectAt;
    assert FullTable(offsets)[num] == XrefEntry(offsets[num], 0, true);
  }

  /* ---- pages ---- */

  lemma Pieces(a: string, b: string)
    ensures "q " + a + " 0 0 " + b + " 0 0 cm /Im0 Do Q"
         == "q" + (" " + (a + (" " + ("0" + (" " + ("0" + (" " + (b + (" " + ("0" +
            (" " + ("0" + (" " + ("cm" + (" " + ("/Im0" + (" " + ("Do" + (" " + "Q")))))))))))))))))))
  {
    Tail();
    assert " 0 0 " == " " + ("0" + (" " + ("0" + " ")));
  }

  lemma Tail()
    ensures " 0 0 cm /Im0 Do Q"
         == " " + ("0" + (" " + ("0" + (" " + ("cm" + (" " + ("/Im0" + (" " + ("Do" + (" " + "Q"))))))))))
  {
  }

  lemma Unroll(ts: seq<Token>, k: nat)
    requires k < |ts|
    ensures TokensText(ts[k..]) ==
            if k == |ts| - 1 then TokenText(ts[k]) else TokenText(ts[k]) + (" " + TokensText(ts[k + 1..]))
  {
    hide TokenText;
    assert ts[k..][0] == ts[k] && ts[k..][1..] == ts[k + 1..];
  }

  function DrawTokens(w: int, h: int): seq<Token> {
    [Operator("q"), Number(w), Number(0), Number(0), Number(h), Number(0), Number(0), Operator("cm"),
     Named("Im0"), Operator("Do"), Operator("Q")]
  }

  lemma FirstFive(ts: seq<Token>)
    requires |ts| == 11
    ensures TokensText(ts) == TokenText(ts[0]) + (" " + (TokenText(ts[1]) + (" " + (TokenText(ts[2]) +
            (" " + (TokenText(ts[3]) + (" " + (TokenText(ts[4]) + (" " + TokensText(ts[5..]))))))))))
  {
    hide TokensText, TokenText;
    Unroll(ts, 0);
    Unroll(ts, 1);
    Unroll(ts, 2);
    Unroll(ts, 3);
    Unroll(ts, 4);
    assert ts[0..] == ts;
  }

  lemma LastSix(ts: seq<Token>)
    requires |ts| == 11
    ensures TokensText(ts[5..]) == TokenText(ts[5]) + (" " + (TokenText(ts[6]) + (" " + (TokenText(ts[7]) +
            (" " + (TokenText(ts[8]) + (" " + (TokenText(ts[9]) + (" " + TokenText(ts[10]))))))))))
  {
    hide TokensText, TokenText;
    Unroll(ts, 5);
    Unroll(ts, 6);
    Unroll(ts, 7);
    Unroll(ts, 8);
    Unroll(ts, 9);
    Unroll(ts, 10);
  }

  lemma DrawText(w: int, h: int)
    ensures TokensText(DrawTokens(w, h)) == ContentStream(w, h)
  {
    hide TokensText, IntText;
    var ts := DrawTokens(w, h);
    FirstFive(ts);
    LastSix(ts);
    ZeroText();
    Pieces(IntText(w), IntText(h));
  }

  /** The drawing commands read back as the image Im0 scaled by the page's width and height. */
  lemma ContentDraws(w: int, h: int)
    ensures ReadDrawing(ContentStream(w, h)) == Some(Drawing(Matrix(w, 0, 0, h, 0, 0), "Im0"))
  {
    hide ReadTokens, TokensText, ContentStream;
    var ts := DrawTokens(w, h);
    DrawText(w, h);
    TokensReadBack(ts);
    assert ts[1..7] == [Number(w), Number(0), Number(0), Number(h), Number(0), Number(0)];
  }

  lemma ZeroText()
    ensures IntText(0) == "0"
  {
  }

  lemma PageReadsBack(pages: seq<PdfPage>, file: string, i: nat)
    requires i < |pages| && Body(pages, |pages|) <= file
    ensures ReadPage(file, FullTable(Offsets(pages, |pages|)), Ref(PAGES, 0), Ref(3 + 3 * i, 0))
         == if pages[i].jpegData.Some? then Some(Seen(pages[i])) else None
  {
    hide Body, Offsets, ContentStream, Print, ObjText, ReadObjectAt, WellFormed, FullTable;
    hide PageObj, ContentObj, ImageObj, Resolve, ReadPage;
    var p, offsets := pages[i], Offsets(pages, |pages|);
    var table := FullTable(offsets);
    var r0, r1, r2 := PageObjectsAt(pages, file, i);
    PageObjReadsBack(file, offsets[3 + 3 * i], p, i, r0);
    TableEntry(file, offsets, 3 + 3 * i);
    ContentReadsBack(file, offsets[4 + 3 * i], p, i, r1);
    TableEntry(file, offsets, 4 + 3 * i);
    ImageReadsBack(file, offsets[5 + 3 * i], p, i, r2);
    TableEntry(file, offsets, 5 + 3 * i);
    PageFromObjects(file, table, p, i);
  }

  lemma PageObjReadsBack(file: string, offset: nat, p: PdfPage, i: nat, rest: string)
    requires offset <= |file| && file[offset..] == PageObj(p, i) + rest
    ensures ReadObjectAt(file, offset, 3 + 3 * i)
         == Some(Object(PageVal(p.width, p.height, 4 + 3 * i, 5 + 3 * i), None))
  {
    hide ReadObjectAt, ObjText, Print, WellFormed;
    PageFacts(p.width, p.height, 4 + 3 * i, 5 + 3 * i);
    ObjectReadsBack(file, offset, 3 + 3 * i, PageVal(p.width, p.height, 4 + 3 * i, 5 + 3 * i), None, rest);
  }

  lemma ContentReadsBack(file: string, offset: nat, p: PdfPage, i: nat, rest: string)
    requires offset <= |file| && file[offset..] == ContentObj(p, i) + rest
    ensures var content := ContentStream(p.width, p.height);
            ReadObjectAt(file, offset, 4 + 3 * i) == Some(Object(ContentVal(|content|), Some(content)))
  {
    hide ReadObjectAt, ObjText, Print, ContentStream;
    var content := ContentStream(p.width, p.height);
    ContentFacts(|content|);
    ObjectReadsBack(file, offset, 4 + 3 * i, ContentVal(|content|), Some(content), rest);
  }

  lemma ImageReadsBack(file: string, offset: nat, p: PdfPage, i: nat, rest: string)
    requires offset <= |file| && file[offset..] == ImageObj(p, i) + rest
    ensures ReadObjectAt(file, offset, 5 + 3 * i)
         == Some(Object(ImageVal(p.width, p.height, |Bytes(p.jpegData)|), p.jpegData))
  {
    hide ReadObjectAt, ObjText, Print, WellFormed;
    var v := ImageVal(p.width, p.height, |Bytes(p.jpegData)|);
    ImageFacts(p.width, p.height, |Bytes(p.jpegData)|);
    ObjectReadsBack(file, offset, 5 + 3 * i, v, p.jpegData, rest);
  }

  lemma PageFromObjects(file: string, table: seq<XrefEntry>, p: PdfPage, i: nat)
    requires Resolve(file, table, Some(Ref(3 + 3 * i, 0)))
          == Some(Object(PageVal(p.width, p.height, 4 + 3 * i, 5 + 3 * i), None))
    requires var content := ContentStream(p.width, p.height);
             Resolve(file, table, Some(Ref(4 + 3 * i, 0))) == Some(Object(ContentVal(|content|), Some(content)))
    requires Resolve(file, table, Some(Ref(5 + 3 * i, 0)))
          == Some(Object(ImageVal(p.width, p.height, |Bytes(p.jpegData)|), p.jpegData))
    ensures ReadPage(file, table, Ref(PAGES, 0), Ref(3 + 3 * i, 0))
         == if p.jpegData.Some? then Some(Seen(p)) else None
  {
    hide Resolve, PageVal, ImageVal, Get, ContentStream, ReadDrawing;
    ContentDraws(p.width, p.height);
    PageFacts(p.width, p.height, 4 + 3 * i, 5 + 3 * i);
    ImageFacts(p.width, p.height, |Bytes(p.jpegData)|);
  }

  lemma {:induction false} KidsReadBack(pages: seq<PdfPage>, file: string, i: nat)
    requires i <= |pages| && Body(pages, |pages|) <= file
    ensures ReadKids(file, FullTable(Offsets(pages, |pages|)), Ref(PAGES, 0), Kids(i, |pages|))
         == if AllHaveData(pages[i..]) then Some(AllSeen(pages[i..])) else None
    decreases |pages| - i
  {
    hide Body, Offsets, ReadPage, FullTable, Seen;
    if i < |pages| {
      PageReadsBack(pages, file, i);
      KidsReadBack(pages, file, i + 1);
      assert pages[i..] == [pages[i]] + pages[i + 1..];
      assert AllSeen(pages[i..]) == [Seen(pages[i])] + AllSeen(pages[i + 1..]);
      HaveDataFrom(pages[i], pages[i + 1..]);
    }
  }

  lemma HaveDataFrom(p: PdfPage, more: seq<PdfPage>)
    ensures AllHaveData([p] + more) <==> p.jpegData.Some? && AllHaveData(more)
  {
    var all := [p] + more;
    assert all[0] == p;
    assert forall k :: 0 <= k < |more| ==> more[k] == all[k + 1];
    assert forall k :: 0 <= k < |all| ==> all[k] == if k == 0 then p else more[k - 1];
  }

  lemma TreeReadsBack(pages: seq<PdfPage>, file: string)
    requires Body(pages, |pages|) <= file
    ensures ReadPageTree(file, FullTable(Offsets(pages, |pages|)), TrailerVal(3 + 3 * |pages|))
         == if AllHaveData(pages) then Some(AllSeen(pages)) else None
  {
    hide Body, Offsets, ObjText, Print, ReadObjectAt, WellFormed, FullTable, ReadKids, Kids, Resolve;
    var n, offsets := |pages|, Offsets(pages, |pages|);
    var r1, r2 := HeadAt(pages, file);
    CatalogFacts();
    PagesFacts(n);
    TrailerFacts(3 + 3 * n);
    ObjectReadsBack(file, offsets[1], CATALOG, CatalogVal(), None, r1);
    TableEntry(file, offsets, CATALOG);
    ObjectReadsBack(file, offsets[2], PAGES, PagesVal(n), None, r2);
    TableEntry(file, offsets, PAGES);
    KidsReadBack(pages, file, 0);
    assert pages[0..] == pages;
  }

  /* ---- the file ---- */

  lemma {:induction false} OffsetsBelow(pages: seq<PdfPage>, i: nat)
    requires i <= |pages|
    ensures forall k :: 0 <= k < |Offsets(pages, i)| ==>
              Offsets(pages, i)[k] <= Offsets(pages, i)[|Offsets(pages, i)| - 1] <= |Body(pages, i)|
  {
    hide CatalogObj, PagesObj, ContentObj, PageObj, ImageObj;
    if i > 0 {
      OffsetsBelow(pages, i - 1);
    }
  }

  lemma NarrowByLargest(offsets: seq<nat>, n: nat)
    requires 0 < n == |offsets| - 1
    requires forall k :: 0 <= k < |offsets| ==> offsets[k] <= offsets[n]
    ensures Narrow(offsets[1..]) <==> offsets[n] < XREF_LIMIT
  {
    var listed := offsets[1..];
    assert forall k :: 0 <= k < |listed| ==> listed[k] == offsets[k + 1];
    assert listed[n - 1] == offsets[n];
  }

  /** The table is readable exactly when the last object starts below ten digits. */
  lemma NarrowWhenLastIs(pages: seq<PdfPage>)
    ensures Narrow(Offsets(pages, |pages|)[1..]) <==> LastOffset(pages) < XREF_LIMIT
  {
    hide Offsets, Body, Narrow;
    OffsetsBelow(pages, |pages|);
    NarrowByLargest(Offsets(pages, |pages|), 2 + 3 * |pages|);
  }

  lemma FileParts(pages: seq<PdfPage>)
    ensures var body, offsets := Body(pages, |pages|), Offsets(pages, |pages|);
            && body <= FileText(pages)
            && FileText(pages)[|body|..] == XrefText(offsets) + TailText(|offsets|, |body|)
            && StartXref(FileText(pages)) == Some(|body|)
            && Expect(FileText(pages), "%PDF-1.4\n").Some?
  {
    hide Body, Offsets, XrefText, TailText, StartXref, Digits;
    var body, offsets := Body(pages, |pages|), Offsets(pages, |pages|);
    var xref, tail := XrefText(offsets), TailText(|offsets|, |body|);
    assert FileText(pages) == body + (xref + tail);
    var before := TailEnds(|offsets|, |body|);
    EndParts(body + xref, before, Digits(|body|));
    StartXrefReadsBack(body + xref + before, |body|);
    StartsWithMagic(pages);
  }

  lemma TailEnds(size: nat, xrefStart: nat) returns (before: string)
    ensures TailText(size, xrefStart) == before + "\nstartxref\n" + Digits(xrefStart) + "\n%%EOF"
  {
    hide Print, Digits;
    before := "trailer\n" + Print(TrailerVal(size));
  }

  lemma EndParts(a: string, before: string, digits: string)
    ensures a + (before + "\nstartxref\n" + digits + "\n%%EOF") == (a + before) + "\nstartxref\n" + digits + "\n%%EOF"
  {
  }

  lemma StartsWithMagic(pages: seq<PdfPage>)
    ensures "%PDF-1.4\n" <= Body(pages, |pages|)
  {
    hide CatalogObj, PagesObj, Body;
    BodyGrows(pages, 0, |pages|);
    FirstParts(pages);
    assert "%PDF-1.4\n" <= MAGIC;
  }

  /** The round trip, exactly: reading the exported file yields the pages it was made from if
      every page has data and the last object starts below 10^10, and fails otherwise. */
  lemma RoundTrip(pages: seq<PdfPage>)
    ensures ReadPdf(FileText(pages))
         == if AllHaveData(pages) && LastOffset(pages) < XREF_LIMIT then Some(AllSeen(pages)) else None
  {
    hide Body, Offsets, XrefText, TailText, StartXref, ReadXref, FileText;
    hide FullTable, TrailerVal, ReadPageTree, ParseVal;
    var body, offsets := Body(pages, |pages|), Offsets(pages, |pages|);
    var file, tail := FileText(pages), TailText(|offsets|, |body|);
    FileParts(pages);
    XrefReadsBack(offsets, tail);
    NarrowWhenLastIs(pages);
    var _ := TrailerReadsBack(|offsets|, |body|);
    TrailerFacts(|offsets|);
    assert |FullTable(offsets)| == |offsets| by { FullTableLength(offsets); }
    TreeReadsBack(pages, file);
  }
}
