/**
 converter/epub.go: the loops that size and write the lines of a page.
 */
module OcrPage {
  import opened Wrappers
  import opened Medians
  import opened OcrLines
  import opened OcrBlocks

  /** A positioned <div>; its place on the page is not modelled. */
  datatype Div = Div(text: string, size: real)

  /* ---- what a block is written as ---- */

  /** The sizes of the first n lines that count and are not duplicates. */
  function KeptSizes(length: Length, blk: Block, n: nat): seq<real>
    requires Aligned(blk) && n <= |blk.lines|
  {
    if n == 0 then []
    else
      KeptSizes(length, blk, n - 1) +
      if Counts(length, blk, n - 1) && !IsDuplicate(length, blk, n - 1) then [SizeOf(length, blk, n - 1).value] else []
  }

  /** The median of at least three sizes, or 0. */
  function BlockRef(length: Length, blk: Block, ocr: bool): real
    requires Aligned(blk)
  {
    var sizes := KeptSizes(length, blk, |blk.lines|);
    if !ocr || |sizes| < 3 then 0.0 else Median(sizes).value
  }

  function Clamp(fs: real, blockRef: real): real {
    if blockRef > 0.0 && fs > 1.15 * blockRef then blockRef
    else if blockRef > 0.0 && fs < blockRef / 1.15 then blockRef
    else fs
  }

  /** The line has text and its quad an area. */
  predicate Writable(text: string, coords: seq<Point>) {
    && TrimSpace(text) != "" && coords != []
    && var e := ExtentOf(coords);
    && e.maxX - e.minX > 0.0 && e.maxY - e.minY > 0.0
  }

  function LineDiv(length: Length, text: string, coords: seq<Point>, vertical: bool, ocr: bool,
                   blockRef: real): seq<Div> {
    if !Writable(text, coords) then []
    else
      var t := TrimSpace(text);
      var fit := LineSize(length, coords, text, vertical);
      if ocr && fit.Some? then [Div(t, Clamp(fit.value, blockRef))]
      else
        var e := ExtentOf(coords);
        var extent := if vertical then e.maxY - e.minY else e.maxX - e.minX;
        [Div(t, extent / |t| as real)]
  }

  function LineDivs(length: Length, blk: Block, ocr: bool, n: nat): seq<Div>
    requires Aligned(blk) && n <= |blk.lines|
  {
    if n == 0 then []
    else
      LineDivs(length, blk, ocr, n - 1) +
      if ocr && IsDuplicate(length, blk, n - 1) then []
      else LineDiv(length, blk.lines[n - 1], blk.linesCoords[n - 1], blk.vertical, ocr, BlockRef(length, blk, ocr))
  }

  function Join(lines: seq<string>): string {
    if lines == [] then "" else Join(lines[..|lines| - 1]) + lines[|lines| - 1]
  }

  function BlockDivs(length: Length, blk: Block, ocr: bool): seq<Div> {
    if Aligned(blk) && blk.lines != [] then LineDivs(length, blk, ocr, |blk.lines|)
    else
      var text := TrimSpace(Join(blk.lines));
      if text == "" || blk.box.x2 - blk.box.x1 <= 0 || blk.box.y2 - blk.box.y1 <= 0 then []
      else [Div(text, if blk.fontSize <= 0.0 then 16.0 else blk.fontSize)]
  }

  function PageDivs(length: Length, blocks: seq<Block>, ocr: bool): seq<Div> {
    if blocks == [] then []
    else PageDivs(length, blocks[..|blocks| - 1], ocr) + BlockDivs(length, blocks[|blocks| - 1], ocr)
  }

  /* ---- the loops ---- */

  /** How far the text runs: in a column from between the upper corners to between the lower ones, in a row from
      between the left corners to between the right ones. */
  function TextRun(length: Length, coords: seq<Point>, vertical: bool): real
    requires |coords| == 4
  {
    var (ul, ur, lr, ll) := (coords[0], coords[1], coords[2], coords[3]);
    if vertical then length((lr.x + ll.x - ul.x - ur.x) / 2.0, (lr.y + ll.y - ul.y - ur.y) / 2.0)
    else length((ur.x + lr.x - ul.x - ll.x) / 2.0, (ur.y + lr.y - ul.y - ll.y) / 2.0)
  }

  lemma RunIsAxis(length: Length, coords: seq<Point>, vertical: bool)
    requires |coords| == 4
    ensures TextRun(length, coords, vertical) == Axis(length, coords, vertical)
  {
    assert coords == [coords[0], coords[1], coords[2], coords[3]];
    AxisOfQuad(length, coords[0], coords[1], coords[2], coords[3]);
  }

  method LineGeometry(length: Length, coords: seq<Point>, text: string, vertical: bool) returns (fs: real, ok: bool)
    ensures LineSize(length, coords, text, vertical) == if ok then Some(fs) else None
    ensures ok <==> |coords| == 4 && TrimSpace(text) != "" && TextRun(length, coords, vertical) > 0.0
    ensures ok ==> 0.0 < fs <= TextRun(length, coords, vertical) / 0.06
    ensures ok ==> Span(TrimSpace(text), vertical) * fs == TextRun(length, coords, vertical)
  {
    hide AdvanceOf, OcrSpanSlack, TrimSpace, Axis, TextRun;
    FittedSize(length, coords, text, vertical);
    NothingSpans();
    if |coords| == 4 {
      RunIsAxis(length, coords, vertical);
    }
    if |coords| != 4 { return 0.0, false; }
    var t := TrimSpace(text);
    var adv := AdvanceEm(t);
    if adv <= 0.0 { return 0.0, false; }
    var main := Axis(length, coords, vertical);
    if main <= 0.0 { return 0.0, false; }
    SpanIsPositive(t, vertical);
    fs := main / (adv + OcrSpanSlack(t, vertical));
    ok := fs > 0.0;
  }

  method SiblingMedianFs(length: Length, blk: Block, idx: nat) returns (fs: real, ok: bool)
    requires Aligned(blk)
    ensures SiblingMedian(length, blk, idx) == if ok then Some(fs) else None
  {
    hide LineSize, Substantial, Sort;
    var sizes: seq<real> := [];
    for i := 0 to |blk.lines|
      invariant sizes == SiblingSizes(length, blk, idx, i)
    {
      if i == idx { continue; }
      if !Substantial(blk.lines[i]) { continue; }
      var size, fits := LineGeometry(length, blk.linesCoords[i], blk.lines[i], blk.vertical);
      if fits { sizes := sizes + [size]; }
    }
    if |sizes| == 0 { return 0.0, false; }
    return Sort(sizes)[|sizes| / 2], true;
  }

  method IsDuplicateBlockLine(length: Length, blk: Block, idx: nat) returns (duplicate: bool)
    requires Aligned(blk) && idx < |blk.lines|
    ensures duplicate == IsDuplicate(length, blk, idx)
  {
    hide LineSize, SiblingMedian, Coverage;
    if |blk.lines| < 3 { return false; }
    var coords := blk.linesCoords[idx];
    if |coords| == 0 { return false; }
    var w, h := blk.box.x2 - blk.box.x1, blk.box.y2 - blk.box.y1;
    if w <= 0 || h <= 0 { return false; }
    var e := Measure(coords);
    var area := (w * h) as real;
    if area <= 0.0 || Coverage(e, area) < 0.8 { return false; }
    var reference, hasRef := SiblingMedianFs(length, blk, idx);
    if !hasRef { return false; }
    var fs, ok := LineGeometry(length, coords, blk.lines[idx], blk.vertical);
    return ok && fs < 0.6 * reference;
  }

  method BlockRefFontSize(length: Length, blk: Block, ocr: bool) returns (size: real)
    requires Aligned(blk)
    ensures size == BlockRef(length, blk, ocr)
  {
    hide LineSize, IsDuplicate, Substantial, Sort;
    if !ocr { return 0.0; }
    var sizes: seq<real> := [];
    for i := 0 to |blk.lines|
      invariant sizes == KeptSizes(length, blk, i)
    {
      if !Substantial(blk.lines[i]) { continue; }
      var duplicate := IsDuplicateBlockLine(length, blk, i);
      if duplicate { continue; }
      var fs, ok := LineGeometry(length, blk.linesCoords[i], blk.lines[i], blk.vertical);
      if ok { sizes := sizes + [fs]; }
    }
    if |sizes| < 3 { return 0.0; }
    return Sort(sizes)[|sizes| / 2];
  }

  method WriteLineDiv(b: seq<Div>, length: Length, text: string, coords: seq<Point>, vertical: bool, ocr: bool,
                      blockRef: real)
    returns (out: seq<Div>)
    ensures out == b + LineDiv(length, text, coords, vertical, ocr, blockRef)
  {
    hide LineSize, ExtentOf, TrimSpace;
    var t := TrimSpace(text);
    if |t| == 0 || |coords| == 0 { return b; }
    var e := Measure(coords);
    var w, h := e.maxX - e.minX, e.maxY - e.minY;
    if w <= 0.0 || h <= 0.0 { return b; }
    var fs, ok := LineGeometry(length, coords, t, vertical);
    SameFit(length, coords, text, vertical);
    if ocr && ok {
      if blockRef > 0.0 && fs > 1.15 * blockRef {
        fs := blockRef;
      } else if blockRef > 0.0 && fs < blockRef / 1.15 {
        fs := blockRef;
      }
      return b + [Div(t, fs)];
    }
    fs := if vertical then h / |t| as real else w / |t| as real;
    SharePositive(if vertical then h else w, |t|);
    if fs <= 0.0 { fs := 16.0; }
    return b + [Div(t, fs)];
  }

  /** Trimming first does not change the fit. */
  lemma SameFit(length: Length, coords: seq<Point>, text: string, vertical: bool)
    ensures LineSize(length, coords, TrimSpace(text), vertical) == LineSize(length, coords, text, vertical)
  {
    TrimTwice(text);
  }

  lemma SharePositive(extent: real, n: nat)
    requires extent > 0.0 && n > 0
    ensures extent / n as real > 0.0
  {
  }

  method WriteBlockDiv(b: seq<Div>, text: string, box: Box, fontSize: real) returns (out: seq<Div>)
    ensures out == b + var t := TrimSpace(text);
                       if t == "" || box.x2 - box.x1 <= 0 || box.y2 - box.y1 <= 0 then []
                       else [Div(t, if fontSize <= 0.0 then 16.0 else fontSize)]
  {
    var t := TrimSpace(text);
    if t == "" { return b; }
    if box.x2 - box.x1 <= 0 || box.y2 - box.y1 <= 0 { return b; }
    return b + [Div(t, if fontSize <= 0.0 then 16.0 else fontSize)];
  }

  /** The loop over the lines of an aligned block. */
  method WriteLines(was: seq<Div>, length: Length, blk: Block, ocr: bool) returns (b: seq<Div>)
    requires Aligned(blk)
    ensures b == was + LineDivs(length, blk, ocr, |blk.lines|)
  {
    hide LineDiv, IsDuplicate, BlockRef, TrimSpace;
    b := was;
    var reference := BlockRefFontSize(length, blk, ocr);
    for i := 0 to |blk.lines|
      invariant b == was + LineDivs(length, blk, ocr, i)
    {
      if ocr {
        var duplicate := IsDuplicateBlockLine(length, blk, i);
        if duplicate { continue; }
      }
      b := WriteLineDiv(b, length, blk.lines[i], blk.linesCoords[i], blk.vertical, ocr, reference);
    }
  }

  /** The blocks loop of pageXHTML. */
  method PageLines(length: Length, blocks: seq<Block>, ocr: bool) returns (b: seq<Div>)
    ensures b == PageDivs(length, blocks, ocr)
  {
    hide LineDivs, TrimSpace;
    b := [];
    for k := 0 to |blocks|
      invariant b == PageDivs(length, blocks[..k], ocr)
    {
      var blk := blocks[k];
      assert blocks[..k + 1][..k] == blocks[..k];
      if |blk.linesCoords| == |blk.lines| && |blk.lines| > 0 {
        b := WriteLines(b, length, blk, ocr);
      } else {
        b := WriteBlockDiv(b, Join(blk.lines), blk.box, blk.fontSize);
      }
    }
    assert blocks[..|blocks|] == blocks;
  }

  /* ---- what a page promises ---- */

  /** A fitted size within a factor of 1.15 of the block's is not touched; any other becomes the block's. */
  lemma ClampBounds(fs: real, blockRef: real)
    requires fs > 0.0 && blockRef > 0.0
    ensures blockRef / 1.15 <= Clamp(fs, blockRef) <= 1.15 * blockRef
    ensures blockRef / 1.15 <= fs <= 1.15 * blockRef ==> Clamp(fs, blockRef) == fs
    ensures !(blockRef / 1.15 <= fs <= 1.15 * blockRef) ==> Clamp(fs, blockRef) == blockRef != fs
  {
  }

  /** Everything written is visible: trimmed text of positive size. */
  lemma LineDivPositive(length: Length, text: string, coords: seq<Point>, vertical: bool, ocr: bool, blockRef: real)
    ensures Writable(text, coords) <==> LineDiv(length, text, coords, vertical, ocr, blockRef) != []
    ensures forall d :: d in LineDiv(length, text, coords, vertical, ocr, blockRef) ==>
              d.size > 0.0 && d.text == TrimSpace(text) != ""
  {
    FittedSize(length, coords, text, vertical);
  }

  lemma {:induction false} LineDivsPositive(length: Length, blk: Block, ocr: bool, n: nat)
    requires Aligned(blk) && n <= |blk.lines|
    ensures forall d :: d in LineDivs(length, blk, ocr, n) ==> d.size > 0.0 && d.text != ""
  {
    hide LineDiv, IsDuplicate, TrimSpace, BlockRef;
    if n > 0 {
      LineDivsPositive(length, blk, ocr, n - 1);
      LineDivPositive(length, blk.lines[n - 1], blk.linesCoords[n - 1], blk.vertical, ocr, BlockRef(length, blk, ocr));
    }
  }

  /** "%.1f": the nearest number of tenths, the even one of two. */
  function Tenths(x: real): int {
    var f := (10.0 * x).Floor;
    var rest := 10.0 * x - f as real;
    if rest < 0.5 || (rest == 0.5 && f % 2 == 0) then f else f + 1
  }

  lemma TenthsShow(x: real)
    requires x > 0.0
    ensures Tenths(x) > 0 <==> x > 0.05
    ensures -0.5 <= 10.0 * x - Tenths(x) as real <= 0.5
  {
  }

  /** All that a page writes has text and a positive size, and prints with a size other than 0.0 exactly
      when it is above 0.05. */
  lemma {:induction false} PageIsVisible(length: Length, blocks: seq<Block>, ocr: bool)
    ensures forall d :: d in PageDivs(length, blocks, ocr) ==>
              d.size > 0.0 && d.text != "" && (Tenths(d.size) > 0 <==> d.size > 0.05)
  {
    hide LineDivs, TrimSpace, Tenths;
    if blocks != [] {
      PageIsVisible(length, blocks[..|blocks| - 1], ocr);
      var blk := blocks[|blocks| - 1];
      if Aligned(blk) && blk.lines != [] {
        LineDivsPositive(length, blk, ocr, |blk.lines|);
      }
      forall d | d in BlockDivs(length, blk, ocr)
        ensures d.size > 0.0 && d.text != "" && (Tenths(d.size) > 0 <==> d.size > 0.05)
      {
        TenthsShow(d.size);
      }
    }
  }

  /** Two fitted lines of an OCR block with a reference size are written within 1.3225 of each other. */
  lemma SizesAgree(length: Length, blk: Block, i: nat, j: nat)
    requires Aligned(blk) && i < |blk.lines| && j < |blk.lines| && BlockRef(length, blk, true) > 0.0
    requires SizeOf(length, blk, i).Some? && SizeOf(length, blk, j).Some?
    requires Writable(blk.lines[i], blk.linesCoords[i]) && Writable(blk.lines[j], blk.linesCoords[j])
    ensures var r := BlockRef(length, blk, true);
            var a := LineDiv(length, blk.lines[i], blk.linesCoords[i], blk.vertical, true, r);
            var b := LineDiv(length, blk.lines[j], blk.linesCoords[j], blk.vertical, true, r);
            |a| == |b| == 1 && a[0].size <= 1.3225 * b[0].size
  {
    hide LineSize, BlockRef, TrimSpace, ExtentOf;
    var r := BlockRef(length, blk, true);
    FittedSize(length, blk.linesCoords[i], blk.lines[i], blk.vertical);
    FittedSize(length, blk.linesCoords[j], blk.lines[j], blk.vertical);
    ClampBounds(SizeOf(length, blk, i).value, r);
    ClampBounds(SizeOf(length, blk, j).value, r);
  }

  lemma {:induction false} KeptSizesAreKept(length: Length, blk: Block, n: nat, x: real) returns (i: nat)
    requires Aligned(blk) && n <= |blk.lines| && x in KeptSizes(length, blk, n)
    ensures i in Kept(length, blk) && SizeOf(length, blk, i) == Some(x)
  {
    hide LineSize, IsDuplicate, Substantial;
    if x in KeptSizes(length, blk, n - 1) {
      i := KeptSizesAreKept(length, blk, n - 1, x);
    } else {
      i := n - 1;
    }
  }

  /** A reference size is that of a kept line, with at least half of the kept sizes on either side. */
  lemma RefIsAKeptSize(length: Length, blk: Block) returns (i: nat)
    requires Aligned(blk) && BlockRef(length, blk, true) != 0.0
    ensures i in Kept(length, blk) && SizeOf(length, blk, i) == Some(BlockRef(length, blk, true))
    ensures var sizes := KeptSizes(length, blk, |blk.lines|);
            var r := BlockRef(length, blk, true);
            |sizes| >= 3 && r > 0.0 && 2 * Count(sizes, r, true) >= |sizes| && 2 * Count(sizes, r, false) >= |sizes|
  {
    hide LineSize, IsDuplicate, Substantial, KeptSizes, Count;
    var sizes := KeptSizes(length, blk, |blk.lines|);
    var r := BlockRef(length, blk, true);
    MedianSplits(sizes, r);
    i := KeptSizesAreKept(length, blk, |blk.lines|, r);
    CountsPositive(length, blk, i);
  }

  lemma NothingKept(length: Length, blk: Block)
    requires Aligned(blk)
    ensures KeptSizes(length, blk, 0) == []
  {
  }

  lemma KeptUnfold(length: Length, blk: Block, n: nat)
    requires Aligned(blk) && n < |blk.lines|
    ensures var sizes := KeptSizes(length, blk, n);
            KeptSizes(length, blk, n + 1) ==
            if n !in Duplicates(length, blk) && Measured(length, blk, n)
            then sizes + [LineSize(length, blk.linesCoords[n], blk.lines[n], blk.vertical).value] else sizes
  {
    hide LineSize, TrimSpace, IsDuplicate;
  }

  /** The sizes behind a reference are those of the measured lines that are not duplicates. */
  lemma {:induction false} KeptSizesAreMeasured(length: Length, blk: Block, n: nat) returns (at: seq<nat>)
    requires Aligned(blk) && n <= |blk.lines|
    ensures ListsSizes(length, blk, KeptSizes(length, blk, n), at, n, Duplicates(length, blk))
  {
    hide *;
    at := [];
    if n == 0 {
      NothingListed(length, blk, 0, Duplicates(length, blk));
      NothingKept(length, blk);
    } else {
      at := KeptSizesAreMeasured(length, blk, n - 1);
      ListsOneMore(length, blk, KeptSizes(length, blk, n - 1), at, n - 1, Duplicates(length, blk));
      KeptUnfold(length, blk, n - 1);
      if n - 1 !in Duplicates(length, blk) && Measured(length, blk, n - 1) { at := at + [n - 1]; }
    }
  }

  function Duplicates(length: Length, blk: Block): set<nat>
    requires Aligned(blk)
  {
    set i: nat | i < |blk.lines| && IsDuplicate(length, blk, i)
  }

  /** A block has a reference size exactly with OCR and three such lines. */
  lemma RefNeedsThree(length: Length, blk: Block, ocr: bool)
    requires Aligned(blk)
    ensures BlockRef(length, blk, ocr) > 0.0 <==> ocr && |KeptSizes(length, blk, |blk.lines|)| >= 3
    ensures BlockRef(length, blk, ocr) >= 0.0
  {
    hide KeptSizes, LineSize, IsDuplicate, Sort, Count;
    var sizes := KeptSizes(length, blk, |blk.lines|);
    if ocr && |sizes| >= 3 {
      var m := Median(sizes).value;
      MedianSplits(sizes, m);
      var i := KeptSizesAreKept(length, blk, |blk.lines|, m);
      CountsPositive(length, blk, i);
    }
  }

  /** How a line that can be written is written: with OCR and a fit at its clamped size, and otherwise so that its
      characters, one em each, fill the height of a column or the width of a row. */
  lemma LineDivMeans(length: Length, text: string, coords: seq<Point>, vertical: bool, ocr: bool, blockRef: real)
    requires Writable(text, coords)
    ensures var divs, e := LineDiv(length, text, coords, vertical, ocr, blockRef), ExtentOf(coords);
            var fit, t := LineSize(length, coords, text, vertical), TrimSpace(text);
            && |divs| == 1 && divs[0].text == t
            && (ocr && fit.Some? ==> divs[0].size == Clamp(fit.value, blockRef))
            && (!ocr || fit.None? ==>
                  divs[0].size * |t| as real == if vertical then e.maxY - e.minY else e.maxX - e.minX)
  {
    hide LineSize, TrimSpace, ExtentOf, Clamp;
    var e, t := ExtentOf(coords), TrimSpace(text);
    Share(if vertical then e.maxY - e.minY else e.maxX - e.minX, |t| as real);
  }

  lemma Share(extent: real, n: real)
    requires n > 0.0
    ensures extent / n * n == extent
  {
  }

  /** A block without a quad for each line is written whole, in its own size or 16. */
  lemma WholeBlock(length: Length, blk: Block, ocr: bool)
    requires |blk.linesCoords| != |blk.lines| || blk.lines == []
    ensures var divs, t := BlockDivs(length, blk, ocr), TrimSpace(Join(blk.lines));
            if t == "" || blk.box.x1 >= blk.box.x2 || blk.box.y1 >= blk.box.y2 then divs == []
            else |divs| == 1 && divs[0].text == t
                 && divs[0].size == if blk.fontSize > 0.0 then blk.fontSize else 16.0
  {
    hide TrimSpace, Join;
  }

  lemma JoinOne(line: string)
    ensures Join([]) == "" && Join([line]) == line
  {
    assert [line][..0] == [];
  }

  lemma JoinLast(a: seq<string>, line: string)
    ensures Join(a + [line]) == Join(a) + line
  {
    assert (a + [line])[..|a|] == a;
  }

  lemma {:induction false} JoinInOrder(a: seq<string>, b: seq<string>)
    ensures Join(a + b) == Join(a) + Join(b)
  {
    hide Join;
    if b == [] {
      assert a + b == a;
      JoinOne("");
    } else {
      var front, line := b[..|b| - 1], b[|b| - 1];
      JoinInOrder(a, front);
      JoinLast(a + front, line);
      JoinLast(front, line);
      assert b == front + [line] && a + b == (a + front) + [line];
    }
  }

  lemma OneBlock(length: Length, blk: Block, ocr: bool)
    ensures PageDivs(length, [blk], ocr) == BlockDivs(length, blk, ocr)
  {
    hide BlockDivs;
    assert [blk][..0] == [];
  }

  /** Blocks are written one after the other. */
  lemma {:induction false} PageInOrder(length: Length, a: seq<Block>, b: seq<Block>, ocr: bool)
    ensures PageDivs(length, a + b, ocr) == PageDivs(length, a, ocr) + PageDivs(length, b, ocr)
  {
    hide BlockDivs;
    if b == [] {
      assert a + b == a;
    } else {
      PageInOrder(length, a, b[..|b| - 1], ocr);
      assert (a + b)[..|a + b| - 1] == a + b[..|b| - 1];
    }
  }

  /** The line is written: it can be, and is not dropped. */
  predicate Shown(length: Length, blk: Block, ocr: bool, i: nat)
    requires Aligned(blk) && i < |blk.lines|
  {
    Writable(blk.lines[i], blk.linesCoords[i]) && !(ocr && IsDuplicate(length, blk, i))
  }

  /** The texts of the lines shown, in order. */
  function ShownTexts(length: Length, blk: Block, ocr: bool, n: nat): seq<string>
    requires Aligned(blk) && n <= |blk.lines|
  {
    if n == 0 then []
    else
      ShownTexts(length, blk, ocr, n - 1) +
      if Shown(length, blk, ocr, n - 1) then [TrimSpace(blk.lines[n - 1])] else []
  }

  /** The texts of the lines written are those of the lines shown. */
  ghost predicate WritesShown(length: Length, blk: Block, ocr: bool, n: nat)
    requires Aligned(blk) && n <= |blk.lines|
  {
    && SameTexts(LineDivs(length, blk, ocr, n), ShownTexts(length, blk, ocr, n))
    && (LineDivs(length, blk, ocr, n) != [] <==> exists i :: 0 <= i < n && Shown(length, blk, ocr, i))
  }

  ghost predicate SameTexts(divs: seq<Div>, texts: seq<string>) {
    |divs| == |texts| && forall k :: 0 <= k < |divs| ==> divs[k].text == texts[k]
  }

  /** Line n adds itself if it is shown, and nothing otherwise. */
  lemma LineAdds(length: Length, blk: Block, ocr: bool, n: nat) returns (more: seq<Div>)
    requires Aligned(blk) && n < |blk.lines|
    ensures LineDivs(length, blk, ocr, n + 1) == LineDivs(length, blk, ocr, n) + more
    ensures if Shown(length, blk, ocr, n) then |more| == 1 && more[0].text == TrimSpace(blk.lines[n]) else more == []
  {
    hide LineDiv, IsDuplicate, TrimSpace, Writable, BlockRef;
    OneLine(length, blk.lines[n], blk.linesCoords[n], blk.vertical, ocr, BlockRef(length, blk, ocr));
    more := if ocr && IsDuplicate(length, blk, n) then []
            else LineDiv(length, blk.lines[n], blk.linesCoords[n], blk.vertical, ocr, BlockRef(length, blk, ocr));
  }

  lemma TextAdds(length: Length, blk: Block, ocr: bool, n: nat)
    requires Aligned(blk) && n < |blk.lines|
    ensures ShownTexts(length, blk, ocr, n + 1) == ShownTexts(length, blk, ocr, n)
              + if Shown(length, blk, ocr, n) then [TrimSpace(blk.lines[n])] else []
  {
    hide Shown, TrimSpace;
  }

  lemma WritesOneMore(length: Length, blk: Block, ocr: bool, n: nat)
    requires Aligned(blk) && n < |blk.lines| && WritesShown(length, blk, ocr, n)
    ensures WritesShown(length, blk, ocr, n + 1)
  {
    hide LineDivs, ShownTexts, Shown, TrimSpace;
    var more := LineAdds(length, blk, ocr, n);
    TextAdds(length, blk, ocr, n);
  }

  lemma NothingWritten(length: Length, blk: Block, ocr: bool)
    requires Aligned(blk)
    ensures WritesShown(length, blk, ocr, 0)
  {
  }

  /** A block is written as exactly its shown lines, in order. */
  lemma {:induction false} LineDivsAreShown(length: Length, blk: Block, ocr: bool, n: nat)
    requires Aligned(blk) && n <= |blk.lines|
    ensures WritesShown(length, blk, ocr, n)
  {
    hide *;
    if n == 0 {
      NothingWritten(length, blk, ocr);
    } else {
      LineDivsAreShown(length, blk, ocr, n - 1);
      WritesOneMore(length, blk, ocr, n - 1);
    }
  }

  lemma OneLine(length: Length, text: string, coords: seq<Point>, vertical: bool, ocr: bool, blockRef: real)
    ensures var d := LineDiv(length, text, coords, vertical, ocr, blockRef);
            if Writable(text, coords) then |d| == 1 && d[0].text == TrimSpace(text) else d == []
  {
  }

  /** Dropping never empties a block that shows something without it, provided that every line serving
      as a size reference can be written. */
  lemma BlockShowsALine(length: Length, blk: Block, w: nat)
    requires Aligned(blk) && w < |blk.lines| && Writable(blk.lines[w], blk.linesCoords[w])
    requires forall i :: i in References(length, blk) ==> Writable(blk.lines[i], blk.linesCoords[i])
    ensures BlockDivs(length, blk, true) != []
  {
    hide Writable, LineDivs, IsDuplicate;
    LineDivsAreShown(length, blk, true, |blk.lines|);
    if References(length, blk) == {} {
      NoDuplicateWithoutReferences(length, blk, w);
      assert Shown(length, blk, true, w);
    } else {
      HalfIsKept(length, blk);
      var i :| i in Kept(length, blk);
      assert i in References(length, blk);
      assert Shown(length, blk, true, i);
    }
  }

  lemma NoDuplicateWithoutReferences(length: Length, blk: Block, i: nat)
    requires Aligned(blk) && i < |blk.lines| && References(length, blk) == {}
    ensures !IsDuplicate(length, blk, i)
  {
    hide CoversBox, SizeOf, References;
    NoReferencesNoMedian(length, blk, i);
  }

  /* ---- a block that dropping does empty ---- */

  function Plain(n: nat): (s: string)
    ensures |s| == n && forall i :: 0 <= i < n ==> s[i] == 'あ'
  {
    seq(n, _ => 'あ')
  }

  lemma {:induction false} PlainAdvance(n: nat)
    ensures AdvanceOf(Plain(n)) == n as real
  {
    if n > 0 {
      PlainAdvance(n - 1);
      assert Plain(n)[..n - 1] == Plain(n - 1);
    }
  }

  lemma PlainText(n: nat)
    requires n > 0
    ensures TrimSpace(Plain(n)) == Plain(n) && OcrSpanSlack(Plain(n), true) == 0.10
  {
    var c := Plain(n)[0];
    assert c == 'あ' && Plain(n)[n - 1] == c;
    assert c !in Heads && c !in Tails;
  }

  /** The size of n full-width characters in a column of length 10. */
  function PlainFit(n: nat): real {
    10.0 / (n as real + 0.10)
  }

  lemma TwentyAgainstSix()
    ensures PlainFit(20) < 0.6 * PlainFit(6)
  {
    assert PlainFit(20) == 10.0 / 20.10 && PlainFit(6) == 10.0 / 6.10;
  }

  lemma PlainSize(length: Length, coords: seq<Point>, n: nat)
    requires n > 0 && |coords| == 4 && Axis(length, coords, true) == 10.0
    ensures LineSize(length, coords, Plain(n), true) == Some(PlainFit(n))
  {
    PlainAdvance(n);
    PlainText(n);
    QuotientBounds(10.0, n as real + 0.10, 0.10);
  }

  const Wide := [Point(0.0, 0.0), Point(10.0, 0.0), Point(10.0, 10.0), Point(0.0, 10.0)]
  const Flat := [Point(5.0, 0.0), Point(5.0, 0.0), Point(5.0, 10.0), Point(5.0, 10.0)]

  /** A long line over the whole box beside two shorter ones in quads without width: it is dropped for
      being smaller than they, and they cannot be written. */
  function Emptied(): Block {
    Block(Box(0, 0, 10, 10), true, 0.0, [Wide, Flat, Flat], [Plain(20), Plain(6), Plain(6)])
  }

  lemma DroppingMayEmptyABlock(length: Length)
    requires length(0.0, 10.0) == 10.0
    ensures Aligned(Emptied()) && Writable(Emptied().lines[0], Emptied().linesCoords[0])
    ensures BlockDivs(length, Emptied(), true) == [] && BlockDivs(length, Emptied(), false) != []
  {
    hide IsDuplicate, Writable, LineDivs, Emptied, Plain;
    EmptiedLines();
    FirstIsDuplicate(length);
    var blk := Emptied();
    ThreeLines();
    LineDivsAreShown(length, blk, true, 3);
    LineDivsAreShown(length, blk, false, 3);
    assert Shown(length, blk, false, 0);
  }

  lemma EmptiedLines()
    ensures Writable(Emptied().lines[0], Wide)
    ensures !Writable(Emptied().lines[1], Flat) && !Writable(Emptied().lines[2], Flat)
  {
    hide TrimSpace, ExtentOf;
    PlainText(20);
    WideAndFlat();
  }

  lemma WideAndFlat()
    ensures ExtentOf(Wide) == Extent(0.0, 0.0, 10.0, 10.0)
    ensures ExtentOf(Flat).minX == ExtentOf(Flat).maxX
  {
    var l, t, r, b := ExtentIsTight(Wide);
    assert Wide[0] in Wide && Wide[2] in Wide;
    var l', t', r', b' := ExtentIsTight(Flat);
  }

  lemma EmptiedSizes(length: Length)
    requires length(0.0, 10.0) == 10.0
    ensures SizeOf(length, Emptied(), 0) == Some(PlainFit(20))
    ensures Counts(length, Emptied(), 1) && SizeOf(length, Emptied(), 1) == Some(PlainFit(6))
    ensures Counts(length, Emptied(), 2) && SizeOf(length, Emptied(), 2) == Some(PlainFit(6))
  {
    hide LineSize, TrimSpace, Plain, PlainFit;
    assert Axis(length, Wide, true) == 10.0 && Axis(length, Flat, true) == 10.0;
    PlainSize(length, Wide, 20);
    PlainSize(length, Flat, 6);
    PlainText(6);
  }

  lemma EmptiedMedian(length: Length)
    requires length(0.0, 10.0) == 10.0
    ensures SiblingMedian(length, Emptied(), 0) == Some(PlainFit(6))
  {
    hide SizeOf, Counts, Median, Emptied;
    var blk, x := Emptied(), PlainFit(6);
    EmptiedSizes(length);
    assert Aligned(blk) && |blk.lines| == 3 by { ThreeLines(); }
    assert SiblingSizes(length, blk, 0, 0) == [];
    assert SiblingSizes(length, blk, 0, 1) == [];
    assert SiblingSizes(length, blk, 0, 2) == [x];
    assert SiblingSizes(length, blk, 0, 3) == [x, x];
    MedianOfTwo(x);
  }

  lemma ThreeLines()
    ensures Aligned(Emptied()) && |Emptied().lines| == 3 && Emptied().linesCoords == [Wide, Flat, Flat]
  {
  }

  lemma MedianOfTwo(x: real)
    ensures Median([x, x]) == Some(x)
  {
    assert Sort([x, x])[1] in Sort([x, x]);
  }

  lemma FirstIsDuplicate(length: Length)
    requires length(0.0, 10.0) == 10.0
    ensures IsDuplicate(length, Emptied(), 0)
  {
    hide SizeOf, SiblingMedian, ExtentOf, PlainFit;
    TwentyAgainstSix();
    EmptiedSizes(length);
    EmptiedMedian(length);
    WideAndFlat();
    assert Coverage(ExtentOf(Wide), 100.0) == 1.0;
  }
}
