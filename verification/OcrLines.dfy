/**
 converter/epub.go: sizing the OCR lines of a block and dropping its duplicate lines, over the
 reals. The length of a segment is any function of its two differences.
 */
module OcrLines {
  import opened Wrappers

  datatype Point = Point(x: real, y: real)

  datatype Box = Box(x1: int, y1: int, x2: int, y2: int)

  /** MokuroBlock; linesCoords is index-aligned with lines when both have the same length. */
  datatype Block = Block(box: Box, vertical: bool, fontSize: real, linesCoords: seq<seq<Point>>, lines: seq<string>)

  type Length = (real, real) -> real

  /* ---- strings.TrimSpace ---- */

  predicate IsSpace(c: char) {
    || '\t' <= c <= '\r' || c == ' ' || c == '\U{85}' || c == '\U{A0}' || c == '\U{1680}'
    || '\U{2000}' <= c <= '\U{200A}' || c == '\U{2028}' || c == '\U{2029}' || c == '\U{202F}' || c == '\U{205F}'
    || c == '\U{3000}'
  }

  /** White space as Unicode defines it. */
  lemma WhiteSpace(c: char)
    ensures IsSpace(c) <==>
              || c as int in {0x09, 0x0A, 0x0B, 0x0C, 0x0D, 0x20, 0x85, 0xA0, 0x1680}
              || c as int in {0x2028, 0x2029, 0x202F, 0x205F, 0x3000}
              || 0x2000 <= c as int <= 0x200A
  {
  }

  function TrimLeft(s: string): (r: string)
    ensures r == "" || !IsSpace(r[0])
  {
    if s != "" && IsSpace(s[0]) then TrimLeft(s[1..]) else s
  }

  function TrimRight(s: string): (r: string)
    ensures r == "" || !IsSpace(r[|r| - 1])
    ensures |r| <= |s| && r == s[..|r|]
  {
    if s != "" && IsSpace(s[|s| - 1]) then TrimRight(s[..|s| - 1]) else s
  }

  function TrimSpace(s: string): (r: string)
    ensures r == "" || (!IsSpace(r[0]) && !IsSpace(r[|r| - 1]))
  {
    TrimRight(TrimLeft(s))
  }

  predicate AllSpaces(s: string) {
    forall i :: 0 <= i < |s| ==> IsSpace(s[i])
  }

  lemma {:induction false} TrimLeftDrops(s: string) returns (a: string)
    ensures AllSpaces(a) && s == a + TrimLeft(s)
  {
    a := "";
    if s != "" && IsSpace(s[0]) {
      a := TrimLeftDrops(s[1..]);
      a := [s[0]] + a;
    }
  }

  lemma {:induction false} TrimRightDrops(s: string) returns (b: string)
    ensures AllSpaces(b) && s == TrimRight(s) + b
  {
    b := "";
    if s != "" && IsSpace(s[|s| - 1]) {
      b := TrimRightDrops(s[..|s| - 1]);
      b := b + [s[|s| - 1]];
    }
  }

  /** Trimming drops spaces at both ends and nothing else. */
  lemma TrimDropsSpaces(s: string) returns (a: string, b: string)
    ensures AllSpaces(a) && AllSpaces(b) && s == a + TrimSpace(s) + b
  {
    a := TrimLeftDrops(s);
    b := TrimRightDrops(TrimLeft(s));
  }

  lemma TrimTwice(s: string)
    ensures TrimSpace(TrimSpace(s)) == TrimSpace(s)
  {
  }

  /* ---- the fitted size of one line ---- */

  function Advance(c: char): real {
    if c < '\U{2000}' || '\U{FF61}' <= c <= '\U{FF9F}' then 0.55 else 1.0
  }

  /** The width of a text at font size 1. */
  function AdvanceOf(s: string): (r: real)
    ensures r >= 0.55 * |s| as real
    ensures s != "" ==> r >= Advance(s[|s| - 1]) + 0.55 * (|s| - 1) as real
  {
    if s == "" then 0.0 else AdvanceOf(s[..|s| - 1]) + Advance(s[|s| - 1])
  }

  /** Characters below U+2000 and half-width katakana. */
  predicate IsNarrow(c: char) {
    c < '\U{2000}' || '\U{FF61}' <= c <= '\U{FF9F}'
  }

  /** A narrow character takes 0.55 and any other 1. */
  lemma {:induction false} AdvanceCounts(s: string)
    ensures var narrow := |set i | 0 <= i < |s| && IsNarrow(s[i])|;
            AdvanceOf(s) == 0.55 * narrow as real + (|s| - narrow) as real
  {
    if s != "" {
      var n := |s| - 1;
      AdvanceCounts(s[..n]);
      var before := set i | 0 <= i < n && IsNarrow(s[..n][i]);
      var after := set i | 0 <= i < n + 1 && IsNarrow(s[i]);
      assert after == if IsNarrow(s[n]) then before + {n} else before;
    } else {
      NothingNarrow(s);
    }
  }

  lemma NothingNarrow(s: string)
    requires |s| == 0
    ensures (set i | 0 <= i < |s| && IsNarrow(s[i])) == {}
  {
  }

  method AdvanceEm(text: string) returns (adv: real)
    ensures adv == AdvanceOf(text)
  {
    adv := 0.0;
    for i := 0 to |text|
      invariant adv == AdvanceOf(text[..i])
    {
      assert text[..i + 1][..i] == text[..i];
      if text[i] < '\U{2000}' || '\U{FF61}' <= text[i] <= '\U{FF9F}' {
        adv := adv + 0.55;
      } else {
        adv := adv + 1.0;
      }
    }
    assert text[..|text|] == text;
  }

  const Tails := "。、．，」』）】〉》！？"
  const Heads := "「『（【〈《"

  function OcrSpanSlack(text: string, vertical: bool): real {
    if text == "" then 0.0
    else
      var tail := text[|text| - 1] in Tails;
      var head := text[0] in Heads;
      if vertical && head && tail then -1.15
      else if vertical && head then -0.94
      else if vertical && tail then -0.55
      else if vertical then 0.10
      else if head && tail then -0.72
      else if head then -0.73
      else if tail then -0.60
      else -0.28
  }

  /** The slack by orientation and by whether the text opens with a bracket and closes with a bracket or mark. */
  lemma SlackTable(text: string, vertical: bool)
    requires text != ""
    ensures var opens := text[0] in {'「', '『', '（', '【', '〈', '《'};
            var closes := text[|text| - 1] in {'。', '、', '．', '，', '」', '』', '）', '】', '〉', '》', '！', '？'};
            OcrSpanSlack(text, vertical)
            == match (vertical, opens, closes)
               case (true, true, true) => -1.15
               case (true, true, false) => -0.94
               case (true, false, true) => -0.55
               case (true, false, false) => 0.10
               case (false, true, true) => -0.72
               case (false, true, false) => -0.73
               case (false, false, true) => -0.60
               case (false, false, false) => -0.28
  {
  }

  /** Heads and tails are different characters, and all of them are full-width. */
  lemma HeadsAndTails(c: char)
    ensures c in Heads ==> c !in Tails && Advance(c) == 1.0
    ensures c in Tails ==> Advance(c) == 1.0
  {
  }

  /** What a text at size 1 spans, slack included. */
  function Span(text: string, vertical: bool): real {
    AdvanceOf(text) + OcrSpanSlack(text, vertical)
  }

  /** The divisor of every fit is at least 0.06; a lone opening bracket in a column meets the bound. */
  lemma SpanIsPositive(text: string, vertical: bool)
    requires text != ""
    ensures AdvanceOf(text) > 0.0 && Span(text, vertical) >= 0.06
    ensures Span("「", true) == 0.06
  {
    HeadsAndTails(text[0]);
    HeadsAndTails(text[|text| - 1]);
  }

  function Mid(p: Point, q: Point): Point {
    Point((p.x + q.x) / 2.0, (p.y + q.y) / 2.0)
  }

  /** The length of the text's centre line: between the midpoints of the two short edges. */
  function Axis(length: Length, coords: seq<Point>, vertical: bool): real
    requires |coords| == 4
  {
    var a := if vertical then Mid(coords[0], coords[1]) else Mid(coords[0], coords[3]);
    var b := if vertical then Mid(coords[2], coords[3]) else Mid(coords[1], coords[2]);
    length(b.x - a.x, b.y - a.y)
  }

  /** The size part of lineGeometry. */
  function LineSize(length: Length, coords: seq<Point>, text: string, vertical: bool): Option<real> {
    if |coords| != 4 then None
    else
      var adv := AdvanceOf(TrimSpace(text));
      if adv <= 0.0 then None
      else
        var main := Axis(length, coords, vertical);
        if main <= 0.0 then None
        else
          SpanIsPositive(TrimSpace(text), vertical);
          var fs := main / Span(TrimSpace(text), vertical);
          if fs <= 0.0 then None else Some(fs)
  }

  /** A fit exists for every visible text in a quad with an axis; it is positive and bounded, and at that
      size the text and its slack span the axis. */
  lemma FittedSize(length: Length, coords: seq<Point>, text: string, vertical: bool)
    ensures var fit := LineSize(length, coords, text, vertical);
            && (fit.Some? <==> |coords| == 4 && TrimSpace(text) != "" && Axis(length, coords, vertical) > 0.0)
            && (fit.Some? ==> 0.0 < fit.value <= Axis(length, coords, vertical) / 0.06)
            && (fit.Some? ==> Span(TrimSpace(text), vertical) * fit.value == Axis(length, coords, vertical))
  {
    hide AdvanceOf, OcrSpanSlack, TrimSpace, Axis;
    var t := TrimSpace(text);
    if |coords| == 4 && t != "" && Axis(length, coords, vertical) > 0.0 {
      SpanIsPositive(t, vertical);
      QuotientBounds(Axis(length, coords, vertical), Span(t, vertical), 0.06);
    } else if t == "" {
      NothingSpans();
    }
  }

  lemma NothingSpans()
    ensures AdvanceOf("") == 0.0
  {
  }

  lemma QuotientBounds(a: real, d: real, low: real)
    requires a > 0.0 && d >= low > 0.0
    ensures 0.0 < a / d <= a / low && d * (a / d) == a
  {
    var q := a / d;
    assert q * d == a;
    assert q > 0.0;
    assert q * low <= q * d;
    assert q == (q * low) / low;
  }

  /* ---- the axis runs along the text ---- */

  function Abs(d: real): real {
    if d < 0.0 then -d else d
  }

  /** What any measure of length says of segments parallel to the edges of the page. */
  ghost predicate MeasuresStraight(length: Length) {
    forall d :: length(d, 0.0) == Abs(d) && length(0.0, d) == Abs(d)
  }

  /** An upright quad, corner by corner from the upper left, clockwise. */
  function Upright(x1: real, y1: real, x2: real, y2: real): seq<Point> {
    [Point(x1, y1), Point(x2, y1), Point(x2, y2), Point(x1, y2)]
  }

  /** In an upright quad a row of text spans its width and a column its height. */
  lemma UprightSize(length: Length, x1: real, y1: real, x2: real, y2: real, text: string, vertical: bool)
    requires MeasuresStraight(length) && x1 < x2 && y1 < y2 && TrimSpace(text) != ""
    ensures var fit := LineSize(length, Upright(x1, y1, x2, y2), text, vertical);
            && fit.Some?
            && Span(TrimSpace(text), vertical) * fit.value == if vertical then y2 - y1 else x2 - x1
  {
    hide AdvanceOf, OcrSpanSlack, TrimSpace, Span;
    UprightAxis(length, x1, y1, x2, y2);
    FittedSize(length, Upright(x1, y1, x2, y2), text, vertical);
  }

  lemma UprightAxis(length: Length, x1: real, y1: real, x2: real, y2: real)
    requires MeasuresStraight(length) && x1 < x2 && y1 < y2
    ensures Axis(length, Upright(x1, y1, x2, y2), true) == y2 - y1
    ensures Axis(length, Upright(x1, y1, x2, y2), false) == x2 - x1
  {
    assert length(0.0, y2 - y1) == Abs(y2 - y1);
    assert length(x2 - x1, 0.0) == Abs(x2 - x1);
  }

  /** Any quad: from the midpoint of the edge the text starts at to that of the edge it ends at. */
  lemma AxisOfQuad(length: Length, a: Point, b: Point, c: Point, d: Point)
    ensures Axis(length, [a, b, c, d], true) == length((c.x + d.x - a.x - b.x) / 2.0, (c.y + d.y - a.y - b.y) / 2.0)
    ensures Axis(length, [a, b, c, d], false) == length((b.x + c.x - a.x - d.x) / 2.0, (b.y + c.y - a.y - d.y) / 2.0)
  {
    assert (c.x + d.x) / 2.0 - (a.x + b.x) / 2.0 == (c.x + d.x - a.x - b.x) / 2.0;
    assert (c.y + d.y) / 2.0 - (a.y + b.y) / 2.0 == (c.y + d.y - a.y - b.y) / 2.0;
    assert (b.x + c.x) / 2.0 - (a.x + d.x) / 2.0 == (b.x + c.x - a.x - d.x) / 2.0;
    assert (b.y + c.y) / 2.0 - (a.y + d.y) / 2.0 == (b.y + c.y - a.y - d.y) / 2.0;
  }

  function Mirror(p: Point): Point {
    Point(p.y, p.x)
  }

  /** Mirroring a quad turns rows into columns and keeps the axis. */
  lemma MirrorKeepsAxis(length: Length, a: Point, b: Point, c: Point, d: Point, vertical: bool)
    requires forall x, y :: length(x, y) == length(y, x)
    ensures Axis(length, [Mirror(a), Mirror(d), Mirror(c), Mirror(b)], !vertical)
         == Axis(length, [a, b, c, d], vertical)
  {
    AxisOfQuad(length, a, b, c, d);
    AxisOfQuad(length, Mirror(a), Mirror(d), Mirror(c), Mirror(b));
  }
}
