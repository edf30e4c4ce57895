/**
 converter/epub.go: duplicate lines, the reference size of a block and what a page writes for it.
 */
module OcrBlocks {
  import opened Wrappers
  import opened Medians
  import opened OcrLines

  predicate Aligned(blk: Block) {
    |blk.linesCoords| == |blk.lines|
  }

  /** Furigana and stray punctuation are too short for a reliable size. */
  predicate Substantial(text: string) {
    |TrimSpace(text)| >= 6
  }

  function SizeOf(length: Length, blk: Block, i: nat): Option<real>
    requires Aligned(blk) && i < |blk.lines|
  {
    LineSize(length, blk.linesCoords[i], blk.lines[i], blk.vertical)
  }

  /** The line is used as a size reference. */
  predicate Counts(length: Length, blk: Block, i: nat)
    requires Aligned(blk) && i < |blk.lines|
  {
    Substantial(blk.lines[i]) && SizeOf(length, blk, i).Some?
  }

  /** The sizes of the first n lines that count, without line idx. */
  function SiblingSizes(length: Length, blk: Block, idx: nat, n: nat): seq<real>
    requires Aligned(blk) && n <= |blk.lines|
  {
    if n == 0 then []
    else
      SiblingSizes(length, blk, idx, n - 1) +
      if n - 1 != idx && Counts(length, blk, n - 1) then [SizeOf(length, blk, n - 1).value] else []
  }

  function SiblingMedian(length: Length, blk: Block, idx: nat): Option<real>
    requires Aligned(blk)
  {
    Median(SiblingSizes(length, blk, idx, |blk.lines|))
  }

  /** The extent of a quad. */
  datatype Extent = Extent(minX: real, minY: real, maxX: real, maxY: real) {
    predicate Holds(p: Point) {
      minX <= p.x <= maxX && minY <= p.y <= maxY
    }
  }

  function Min(a: real, b: real): real { if a <= b then a else b }
  function Max(a: real, b: real): real { if a >= b then a else b }

  function ExtentOf(coords: seq<Point>): Extent
    requires coords != []
  {
    var p := coords[|coords| - 1];
    if |coords| == 1 then Extent(p.x, p.y, p.x, p.y)
    else
      var e := ExtentOf(coords[..|coords| - 1]);
      Extent(Min(e.minX, p.x), Min(e.minY, p.y), Max(e.maxX, p.x), Max(e.maxY, p.y))
  }

  /** The extent holds every point, and each of its sides touches one. */
  lemma {:induction false} ExtentIsTight(coords: seq<Point>) returns (l: Point, t: Point, r: Point, b: Point)
    requires coords != []
    ensures var e := ExtentOf(coords);
            && (forall p :: p in coords ==> e.Holds(p))
            && {l, t, r, b} <= (set p | p in coords)
            && e == Extent(l.x, t.y, r.x, b.y)
  {
    var n := |coords| - 1;
    var p := coords[n];
    l, t, r, b := p, p, p, p;
    if n > 0 {
      var e := ExtentOf(coords[..n]);
      var l', t', r', b' := ExtentIsTight(coords[..n]);
      assert coords == coords[..n] + [p];
      if e.minX <= p.x { l := l'; }
      if e.minY <= p.y { t := t'; }
      if e.maxX >= p.x { r := r'; }
      if e.maxY >= p.y { b := b'; }
    }
  }

  method Measure(coords: seq<Point>) returns (e: Extent)
    requires coords != []
    ensures e == ExtentOf(coords)
  {
    e := Extent(coords[0].x, coords[0].y, coords[0].x, coords[0].y);
    assert coords[..1][0] == coords[0];
    var i := 1;
    while i < |coords|
      invariant 1 <= i <= |coords| && e == ExtentOf(coords[..i])
    {
      assert coords[..i + 1][..i] == coords[..i];
      var p := coords[i];
      e := Extent(Min(e.minX, p.x), Min(e.minY, p.y), Max(e.maxX, p.x), Max(e.maxY, p.y));
      i := i + 1;
    }
    assert coords[..|coords|] == coords;
  }

  function Coverage(e: Extent, boxArea: real): real
    requires boxArea > 0.0
  {
    (e.maxX - e.minX) * (e.maxY - e.minY) / boxArea
  }

  /** The quad covers at least 0.8 of the block's own box. */
  predicate CoversBox(box: Box, coords: seq<Point>) {
    && coords != []
    && var w, h := box.x2 - box.x1, box.y2 - box.y1;
    && w > 0 && h > 0
    && var e := ExtentOf(coords);
    && var area := (w * h) as real;
    && area > 0.0
    && Coverage(e, area) >= 0.8
  }

  predicate IsDuplicate(length: Length, blk: Block, idx: nat)
    requires Aligned(blk) && idx < |blk.lines|
  {
    && |blk.lines| >= 3
    && CoversBox(blk.box, blk.linesCoords[idx])
    && SiblingMedian(length, blk, idx).Some?
    && SizeOf(length, blk, idx).Some?
    && SizeOf(length, blk, idx).value < 0.6 * SiblingMedian(length, blk, idx).value
  }

  /* ---- dropping keeps half ---- */

  /** The lines below n, other than idx, that count with a size of at least m. */
  function Others(length: Length, blk: Block, idx: nat, n: nat, m: real): set<nat>
    requires Aligned(blk) && n <= |blk.lines|
  {
    set i: nat | i < n && i != idx && Counts(length, blk, i) && SizeOf(length, blk, i).value >= m
  }

  lemma OthersStep(length: Length, blk: Block, idx: nat, n: nat, m: real)
    requires Aligned(blk) && n < |blk.lines|
    ensures Others(length, blk, idx, n + 1, m) ==
            if n != idx && Counts(length, blk, n) && SizeOf(length, blk, n).value >= m
            then Others(length, blk, idx, n, m) + {n} else Others(length, blk, idx, n, m)
    ensures n !in Others(length, blk, idx, n, m)
  {
    hide Substantial, SizeOf;
  }

  lemma CountsPositive(length: Length, blk: Block, i: nat)
    requires Aligned(blk) && i < |blk.lines| && Counts(length, blk, i)
    ensures SizeOf(length, blk, i).Some? && SizeOf(length, blk, i).value > 0.0
  {
    FittedSize(length, blk.linesCoords[i], blk.lines[i], blk.vertical);
  }

  lemma SiblingStep(length: Length, blk: Block, idx: nat, n: nat, m: real)
    requires Aligned(blk) && n < |blk.lines|
    ensures var s, t := SiblingSizes(length, blk, idx, n), SiblingSizes(length, blk, idx, n + 1);
            if n != idx && Counts(length, blk, n) then
              var x := SizeOf(length, blk, n).value;
              t == s + [x] && Count(t, m, true) == Count(s, m, true) + if x >= m then 1 else 0
            else t == s
  {
    hide Substantial, SizeOf;
    var s := SiblingSizes(length, blk, idx, n);
    if n != idx && Counts(length, blk, n) {
      assert (s + [SizeOf(length, blk, n).value])[..|s|] == s;
    }
  }

  lemma NoLinesYet(length: Length, blk: Block, idx: nat, m: real)
    requires Aligned(blk)
    ensures SiblingSizes(length, blk, idx, 0) == [] && Others(length, blk, idx, 0, m) == {} && Count([], m, true) == 0
  {
  }

  lemma {:induction false} SiblingsAreOthers(length: Length, blk: Block, idx: nat, n: nat, m: real)
    requires Aligned(blk) && n <= |blk.lines|
    ensures Count(SiblingSizes(length, blk, idx, n), m, true) == |Others(length, blk, idx, n, m)|
  {
    hide *;
    if n == 0 {
      NoLinesYet(length, blk, idx, m);
    } else {
      SiblingsAreOthers(length, blk, idx, n - 1, m);
      SiblingStep(length, blk, idx, n - 1, m);
      OthersStep(length, blk, idx, n - 1, m);
    }
  }

  lemma {:induction false} SiblingsArePositive(length: Length, blk: Block, idx: nat, n: nat)
    requires Aligned(blk) && n <= |blk.lines|
    ensures forall x :: x in SiblingSizes(length, blk, idx, n) ==> x > 0.0
    ensures |SiblingSizes(length, blk, idx, n)| == |Others(length, blk, idx, n, 0.0)|
  {
    hide *;
    if n == 0 {
      NoLinesYet(length, blk, idx, 0.0);
    } else {
      SiblingsArePositive(length, blk, idx, n - 1);
      SiblingStep(length, blk, idx, n - 1, 0.0);
      OthersStep(length, blk, idx, n - 1, 0.0);
      if Counts(length, blk, n - 1) {
        CountsPositive(length, blk, n - 1);
      }
    }
  }

  /** The lines whose sizes serve as references. */
  function References(length: Length, blk: Block): set<nat>
    requires Aligned(blk)
  {
    set i: nat | i < |blk.lines| && Counts(length, blk, i)
  }

  function Kept(length: Length, blk: Block): set<nat>
    requires Aligned(blk)
  {
    set i: nat | i < |blk.lines| && Counts(length, blk, i) && !IsDuplicate(length, blk, i)
  }

  /** A duplicate is smaller than at least half of the other references. */
  lemma DuplicateIsSmall(length: Length, blk: Block, d: nat, m: real)
    requires Aligned(blk) && d < |blk.lines| && IsDuplicate(length, blk, d)
    requires SiblingMedian(length, blk, d) == Some(m)
    ensures var k := |Others(length, blk, d, |blk.lines|, 0.0)|;
            |Others(length, blk, d, |blk.lines|, m)| >= k - k / 2 && k > 0
    ensures SizeOf(length, blk, d).value < m
  {
    hide SizeOf, Others, CoversBox, Count;
    var s := SiblingSizes(length, blk, d, |blk.lines|);
    SiblingsAreOthers(length, blk, d, |blk.lines|, m);
    SiblingsArePositive(length, blk, d, |blk.lines|);
    MedianSplits(s, m);
  }

  lemma {:induction false} LargestOf(length: Length, blk: Block, s: set<nat>) returns (d: nat)
    requires Aligned(blk) && s != {} && s <= References(length, blk)
    ensures d in s && forall i :: i in s ==> SizeOf(length, blk, i).value <= SizeOf(length, blk, d).value
    decreases |s|
  {
    hide SizeOf, Substantial;
    d :| d in s;
    if s != {d} {
      var rest := s - {d};
      var e := LargestOf(length, blk, rest);
      if SizeOf(length, blk, e).value > SizeOf(length, blk, d).value { d := e; }
    }
  }

  /** At least half of the reference lines are kept, and one of them if there is any. */
  lemma HalfIsKept(length: Length, blk: Block)
    requires Aligned(blk)
    ensures |Kept(length, blk)| >= |References(length, blk)| / 2
    ensures References(length, blk) != {} ==> Kept(length, blk) != {}
  {
    var refs, kept, n := References(length, blk), Kept(length, blk), |blk.lines|;
    var dropped := refs - kept;
    hide *;
    KeptAreReferences(length, blk);
    assert refs == kept + dropped;
    if dropped != {} {
      var d := LargestOf(length, blk, dropped);
      var m := SiblingMedianOf(length, blk, d);
      DuplicateIsSmall(length, blk, d, m);
      var bigger := Others(length, blk, d, n, m);
      OthersAreReferences(length, blk, d);
      BiggerAreKept(length, blk, d, m);
      SubsetSize(bigger, kept);
      assert kept != {};
    }
  }

  lemma KeptAreReferences(length: Length, blk: Block)
    requires Aligned(blk)
    ensures Kept(length, blk) <= References(length, blk)
    ensures forall i :: i in References(length, blk) ==> i < |blk.lines| && SizeOf(length, blk, i).Some?
    ensures forall i :: i in References(length, blk) - Kept(length, blk) ==> IsDuplicate(length, blk, i)
  {
    hide SizeOf, Substantial, IsDuplicate;
  }

  /** Where d is a largest duplicate, a line above it is kept. */
  lemma BiggerAreKept(length: Length, blk: Block, d: nat, m: real)
    requires Aligned(blk) && d in References(length, blk) && SizeOf(length, blk, d).value < m
    requires forall i :: i in References(length, blk) - Kept(length, blk) ==>
               SizeOf(length, blk, i).value <= SizeOf(length, blk, d).value
    ensures Others(length, blk, d, |blk.lines|, m) <= Kept(length, blk)
  {
    hide SizeOf, Substantial, IsDuplicate;
  }

  lemma SiblingMedianOf(length: Length, blk: Block, d: nat) returns (m: real)
    requires Aligned(blk) && d < |blk.lines| && IsDuplicate(length, blk, d)
    ensures SiblingMedian(length, blk, d) == Some(m)
  {
    m := SiblingMedian(length, blk, d).value;
  }

  lemma OthersAreReferences(length: Length, blk: Block, d: nat)
    requires Aligned(blk) && d in References(length, blk)
    ensures |Others(length, blk, d, |blk.lines|, 0.0)| == |References(length, blk)| - 1
  {
    hide SizeOf, Substantial;
    forall i | i in References(length, blk) ensures SizeOf(length, blk, i).value >= 0.0 {
      CountsPositive(length, blk, i);
    }
    assert Others(length, blk, d, |blk.lines|, 0.0) == References(length, blk) - {d};
  }

  lemma NoReferencesNoMedian(length: Length, blk: Block, idx: nat)
    requires Aligned(blk) && References(length, blk) == {}
    ensures SiblingMedian(length, blk, idx) == None
  {
    hide SizeOf, Counts;
    var n := |blk.lines|;
    SiblingsArePositive(length, blk, idx, n);
    assert Others(length, blk, idx, n, 0.0) <= References(length, blk);
  }

  lemma SubsetSize(a: set<nat>, b: set<nat>)
    requires a <= b
    ensures |a| <= |b|
  {
    assert b == a + (b - a);
  }

  /** Dropping duplicates never empties a block. */
  lemma NeverEmptied(length: Length, blk: Block) returns (idx: nat)
    requires Aligned(blk) && blk.lines != []
    ensures idx < |blk.lines| && !IsDuplicate(length, blk, idx)
  {
    if References(length, blk) == {} {
      idx := 0;
      NoReferencesNoMedian(length, blk, 0);
    } else {
      HalfIsKept(length, blk);
      idx :| idx in Kept(length, blk);
    }
  }

  /* ---- what duplicates and references are ---- */

  /** A line of at least six characters, white space at the ends aside, in a quad that fits it. */
  predicate Measured(length: Length, blk: Block, i: nat)
    requires Aligned(blk) && i < |blk.lines|
  {
    |TrimSpace(blk.lines[i])| >= 6 && LineSize(length, blk.linesCoords[i], blk.lines[i], blk.vertical).Some?
  }

  /** sizes lists, in order, the fitted sizes of the measured lines that are not left out. */
  ghost predicate ListsSizes(length: Length, blk: Block, sizes: seq<real>, at: seq<nat>, n: nat, out: set<nat>)
    requires Aligned(blk) && n <= |blk.lines|
  {
    && |at| == |sizes|
    && (forall k :: 0 <= k < |at| ==>
          && at[k] < n && at[k] !in out && Measured(length, blk, at[k])
          && LineSize(length, blk.linesCoords[at[k]], blk.lines[at[k]], blk.vertical) == Some(sizes[k]))
    && (forall j, k :: 0 <= j < k < |at| ==> at[j] < at[k])
    && (forall i: nat :: i < n && i !in out && Measured(length, blk, i) ==> i in at)
  }

  lemma ListsOneMore(length: Length, blk: Block, sizes: seq<real>, at: seq<nat>, n: nat, out: set<nat>)
    requires Aligned(blk) && n < |blk.lines| && ListsSizes(length, blk, sizes, at, n, out)
    ensures if n !in out && Measured(length, blk, n)
            then ListsSizes(length, blk,
                            sizes + [LineSize(length, blk.linesCoords[n], blk.lines[n], blk.vertical).value],
                            at + [n], n + 1, out)
            else ListsSizes(length, blk, sizes, at, n + 1, out)
  {
    hide LineSize, TrimSpace;
    assert n in at + [n] && forall i :: i in at ==> i in at + [n];
  }

  lemma NothingListed(length: Length, blk: Block, idx: nat, out: set<nat>)
    requires Aligned(blk)
    ensures ListsSizes(length, blk, [], [], 0, out) && SiblingSizes(length, blk, idx, 0) == []
  {
  }

  lemma SiblingUnfold(length: Length, blk: Block, idx: nat, n: nat)
    requires Aligned(blk) && n < |blk.lines|
    ensures var sizes := SiblingSizes(length, blk, idx, n);
            SiblingSizes(length, blk, idx, n + 1) ==
            if n !in {idx} && Measured(length, blk, n)
            then sizes + [LineSize(length, blk.linesCoords[n], blk.lines[n], blk.vertical).value] else sizes
  {
    hide LineSize, TrimSpace;
  }

  /** The siblings of a line are all other measured lines. */
  lemma {:induction false} SiblingsAreMeasured(length: Length, blk: Block, idx: nat, n: nat) returns (at: seq<nat>)
    requires Aligned(blk) && n <= |blk.lines|
    ensures ListsSizes(length, blk, SiblingSizes(length, blk, idx, n), at, n, {idx})
  {
    hide *;
    at := [];
    if n == 0 {
      NothingListed(length, blk, idx, {idx});
    } else {
      at := SiblingsAreMeasured(length, blk, idx, n - 1);
      ListsOneMore(length, blk, SiblingSizes(length, blk, idx, n - 1), at, n - 1, {idx});
      SiblingUnfold(length, blk, idx, n - 1);
      if n - 1 !in {idx} && Measured(length, blk, n - 1) { at := at + [n - 1]; }
    }
  }

  lemma CoverageMeans(area: real, box: real)
    requires box > 0.0
    ensures area / box >= 0.8 <==> area >= 0.8 * box
  {
    var q := area / box;
    assert q * box == area;
    if q >= 0.8 { assert (q - 0.8) * box >= 0.0; }
    if q < 0.8 { assert (q - 0.8) * box < 0.0; }
  }

  /** A line is a duplicate exactly if its block has three lines, its quad covers 0.8 of the block's box and it
      is smaller than 0.6 of the median size of its siblings. */
  lemma DuplicateMeans(length: Length, blk: Block, idx: nat)
    requires Aligned(blk) && idx < |blk.lines|
    ensures var coords := blk.linesCoords[idx];
            var fit := LineSize(length, coords, blk.lines[idx], blk.vertical);
            var w, h := blk.box.x2 - blk.box.x1, blk.box.y2 - blk.box.y1;
            var siblings := SiblingSizes(length, blk, idx, |blk.lines|);
            IsDuplicate(length, blk, idx) <==>
              && |blk.lines| >= 3 && coords != [] && w > 0 && h > 0
              && var e := ExtentOf(coords);
              && (e.maxX - e.minX) * (e.maxY - e.minY) >= 0.8 * (w * h) as real
              && fit.Some? && siblings != [] && fit.value < 0.6 * Median(siblings).value
  {
    hide LineSize, ExtentOf, SiblingSizes, Sort;
    var w, h := blk.box.x2 - blk.box.x1, blk.box.y2 - blk.box.y1;
    if blk.linesCoords[idx] != [] && w > 0 && h > 0 {
      var e := ExtentOf(blk.linesCoords[idx]);
      BoxArea(w, h);
      CoverageMeans((e.maxX - e.minX) * (e.maxY - e.minY), (w * h) as real);
    }
  }

  lemma BoxArea(w: int, h: int)
    requires w > 0 && h > 0
    ensures w * h > 0
  {
  }
}
