/**
 wrapText in internal/thumbnail/thumbnail.go: greedy wrapping of a text to a width, rune by
 rune. Widths are in 26.6 fixed point, as in the source; the advance of a glyph is a parameter.
 */
module TextWrap {
  import opened Wrappers

  type Advance = char -> Option<int>

  /** fixed.I */
  function Fixed(n: int): int {
    64 * n
  }

  /** A rune without a glyph counts as ten units. */
  function Adv(face: Advance, r: char): int {
    match face(r)
    case Some(a) => a
    case None => Fixed(10)
  }

  function Width(face: Advance, s: string): int {
    if s == "" then 0 else Width(face, s[..|s| - 1]) + Adv(face, s[|s| - 1])
  }

  predicate Fits(face: Advance, maxW: int, s: string) {
    Width(face, s) <= maxW
  }

  /** A text is as wide as its runes together; one without a glyph is ten units wide. */
  lemma WidthAdds(face: Advance, s: string, r: char)
    ensures Width(face, "") == 0
    ensures Width(face, s + [r]) == Width(face, s) + if face(r).Some? then face(r).value else 640
  {
    assert (s + [r])[..|s|] == s;
  }

  /* ---- what greedy wrapping means ---- */

  /** How many runes the first line takes: all up to a newline or the first that no longer fits,
      but at least one rune if there is one. */
  function FirstLine(face: Advance, maxW: int, text: string, taken: nat): (k: nat)
    requires taken <= |text|
    ensures taken <= k <= |text|
    decreases |text| - taken
  {
    if taken == |text| || text[taken] == '\n' then taken
    else if taken > 0 && Width(face, text[..taken]) + Adv(face, text[taken]) > maxW then taken
    else FirstLine(face, maxW, text, taken + 1)
  }

  /** What follows the first line; a newline that ends the line is used up. */
  function AfterLine(text: string, k: nat): (rest: string)
    requires k <= |text|
    ensures |rest| <= |text| - k
  {
    if k < |text| && text[k] == '\n' then text[k + 1..] else text[k..]
  }

  /** All lines of a text, without a bound on their number. */
  function Greedy(face: Advance, maxW: int, text: string): seq<string>
    decreases |text|
  {
    if text == "" then []
    else
      var k := FirstLine(face, maxW, text, 0);
      FirstLineProgress(face, maxW, text);
      [text[..k]] + Greedy(face, maxW, AfterLine(text, k))
  }

  lemma FirstLineProgress(face: Advance, maxW: int, text: string)
    requires text != ""
    ensures |AfterLine(text, FirstLine(face, maxW, text, 0))| < |text|
  {
  }

  function Take(lines: seq<string>, n: nat): seq<string> {
    if |lines| <= n then lines else lines[..n]
  }

  function Concat(lines: seq<string>): string {
    if lines == [] then "" else lines[0] + Concat(lines[1..])
  }

  function NoNewlines(s: string): string {
    if s == "" then "" else (if s[0] == '\n' then "" else [s[0]]) + NoNewlines(s[1..])
  }

  /* ---- properties of greedy wrapping ---- */

  lemma {:induction false} FirstLineIs(face: Advance, maxW: int, text: string, taken: nat)
    requires taken <= |text|
    requires forall i :: 0 <= i < taken ==> text[i] != '\n'
    requires taken <= 1 || Fits(face, maxW, text[..taken])
    ensures var k := FirstLine(face, maxW, text, taken);
            && (forall i :: 0 <= i < k ==> text[i] != '\n')
            && (k <= 1 || Fits(face, maxW, text[..k]))
            && (k < |text| && text[k] != '\n' ==> k > 0 && !Fits(face, maxW, text[..k + 1]))
    decreases |text| - taken
  {
    if taken < |text| && text[taken] != '\n' {
      assert text[..taken + 1][..taken] == text[..taken];
      if !(taken > 0 && Width(face, text[..taken]) + Adv(face, text[taken]) > maxW) {
        FirstLineIs(face, maxW, text, taken + 1);
      }
    }
  }

  /** Every line fits the width, unless it is a single rune. */
  lemma {:induction false} LinesFit(face: Advance, maxW: int, text: string)
    ensures forall j :: 0 <= j < |Greedy(face, maxW, text)| ==>
              |Greedy(face, maxW, text)[j]| <= 1 || Fits(face, maxW, Greedy(face, maxW, text)[j])
    decreases |text|
  {
    if text != "" {
      FirstLineIs(face, maxW, text, 0);
      FirstLineProgress(face, maxW, text);
      LinesFit(face, maxW, AfterLine(text, FirstLine(face, maxW, text, 0)));
    }
  }

  lemma NoNewlinesHead(c: char, s: string)
    ensures NoNewlines([c] + s) == (if c == '\n' then "" else [c]) + NoNewlines(s)
  {
    assert ([c] + s)[1..] == s;
  }

  lemma {:induction false} NoNewlinesConcat(a: string, b: string)
    ensures NoNewlines(a + b) == NoNewlines(a) + NoNewlines(b)
  {
    if a == "" {
      assert a + b == b;
    } else {
      hide NoNewlines;
      var c, more := a[0], a[1..];
      assert a == [c] + more && a + b == [c] + (more + b);
      NoNewlinesConcat(more, b);
      NoNewlinesHead(c, more);
      NoNewlinesHead(c, more + b);
    }
  }

  lemma {:induction false} NoNewlinesSame(a: string)
    requires forall i :: 0 <= i < |a| ==> a[i] != '\n'
    ensures NoNewlines(a) == a
  {
    if a != "" {
      NoNewlinesSame(a[1..]);
    }
  }

  /** The lines hold the text: all of it, in order, newlines aside. */
  lemma {:induction false} LinesHoldText(face: Advance, maxW: int, text: string)
    ensures Concat(Greedy(face, maxW, text)) == NoNewlines(text)
    decreases |text|
  {
    hide FirstLine, Width, NoNewlines, AfterLine;
    if text == "" {
      NoNewlinesSame(text);
    } else {
      var k := FirstLine(face, maxW, text, 0);
      FirstLineIs(face, maxW, text, 0);
      FirstLineProgress(face, maxW, text);
      LinesHoldText(face, maxW, AfterLine(text, k));
      CutLine(text, k);
      ConcatCons(text[..k], Greedy(face, maxW, AfterLine(text, k)));
    }
  }

  lemma ConcatCons(line: string, more: seq<string>)
    ensures Concat([line] + more) == line + Concat(more)
  {
    assert ([line] + more)[1..] == more;
  }

  lemma CutLine(text: string, k: nat)
    requires k <= |text| && forall i :: 0 <= i < k ==> text[i] != '\n'
    ensures NoNewlines(text) == text[..k] + NoNewlines(AfterLine(text, k))
  {
    hide NoNewlines;
    NoNewlinesSame(text[..k]);
    NoNewlinesConcat(text[..k], text[k..]);
    assert text == text[..k] + text[k..];
    AfterNewline(text, k);
  }

  lemma AfterNewline(text: string, k: nat)
    requires k <= |text|
    ensures NoNewlines(AfterLine(text, k)) == NoNewlines(text[k..])
  {
    hide NoNewlines;
    if k < |text| && text[k] == '\n' {
      NoNewlinesHead('\n', text[k + 1..]);
      assert text[k..] == ['\n'] + text[k + 1..];
    }
  }

  /* ---- greedy wrapping uses the fewest lines ---- */

  ghost predicate Advancing(face: Advance) {
    forall r :: Adv(face, r) >= 0
  }

  /** A line and whether a newline of the text ends it. */
  datatype Broken = Broken(line: string, newline: bool)

  function Woven(lines: seq<Broken>): string {
    if lines == [] then "" else lines[0].line + (if lines[0].newline then "\n" else "") + Woven(lines[1..])
  }

  /** A way to lay the text out in lines that fit, breaking at every newline and perhaps elsewhere. */
  ghost predicate IsLayout(face: Advance, maxW: int, text: string, lines: seq<Broken>) {
    && Woven(lines) == text
    && forall j :: 0 <= j < |lines| ==> OneParagraph(lines[j].line) && Fits(face, maxW, lines[j].line)
  }

  lemma {:induction false} WidthGrows(face: Advance, a: string, b: string)
    requires Advancing(face)
    ensures Width(face, a) <= Width(face, a + b)
  {
    if b == "" {
      assert a + b == a;
    } else {
      var k := |b| - 1;
      WidthGrows(face, a, b[..k]);
      assert (a + b)[..|a| + k] == a + b[..k];
      assert Adv(face, b[k]) >= 0;
    }
  }

  lemma {:induction false} SuffixNarrower(face: Advance, a: string, b: string)
    requires Advancing(face)
    ensures Width(face, b) <= Width(face, a + b)
  {
    if b == "" {
      WidthGrows(face, "", a);
      assert "" + a == a && a + b == a;
    } else {
      var k := |b| - 1;
      SuffixNarrower(face, a, b[..k]);
      assert (a + b)[..|a| + k] == a + b[..k];
    }
  }

  ghost predicate OneParagraph(text: string) {
    forall i :: 0 <= i < |text| ==> text[i] != '\n'
  }

  ghost predicate RunesFit(face: Advance, maxW: int, text: string) {
    forall i :: 0 <= i < |text| && text[i] != '\n' ==> Adv(face, text[i]) <= maxW
  }

  lemma PrefixNarrower(face: Advance, text: string, m: nat, n: nat)
    requires Advancing(face) && m <= n <= |text|
    ensures Width(face, text[..m]) <= Width(face, text[..n])
  {
    WidthGrows(face, text[..m], text[m..n]);
    assert text[..m] + text[m..n] == text[..n];
  }

  /** No prefix without a newline that is longer than the first line fits. */
  lemma FirstLineLongest(face: Advance, maxW: int, text: string, n: nat)
    requires Advancing(face) && n <= |text| && OneParagraph(text[..n])
    requires Fits(face, maxW, text[..n])
    ensures n <= FirstLine(face, maxW, text, 0)
  {
    var k := FirstLine(face, maxW, text, 0);
    FirstLineIs(face, maxW, text, 0);
    if k < n {
      assert text[k] == text[..n][k];
      PrefixNarrower(face, text, k + 1, n);
    }
  }

  lemma FirstLineFits(face: Advance, maxW: int, text: string)
    requires RunesFit(face, maxW, text) && maxW >= 0
    ensures Fits(face, maxW, text[..FirstLine(face, maxW, text, 0)])
  {
    var k := FirstLine(face, maxW, text, 0);
    FirstLineIs(face, maxW, text, 0);
    if k == 1 {
      assert text[..1][..0] == "";
    }
  }

  /** The first line of a text and how many come after it. */
  lemma FirstOfLines(face: Advance, maxW: int, text: string) returns (k: nat)
    requires text != ""
    ensures k == FirstLine(face, maxW, text, 0) && k <= |text| && OneParagraph(text[..k])
    ensures k == 0 ==> text[0] == '\n'
    ensures |AfterLine(text, k)| < |text|
    ensures |Greedy(face, maxW, text)| == 1 + |Greedy(face, maxW, AfterLine(text, k))|
  {
    k := FirstLine(face, maxW, text, 0);
    FirstLineIs(face, maxW, text, 0);
    FirstLineProgress(face, maxW, text);
    GreedyLine(face, maxW, text, k);
  }

  lemma ParagraphRunes(text: string, n: nat)
    requires n <= |text| && OneParagraph(text[..n])
    ensures forall i :: 0 <= i < n ==> text[i] != '\n'
  {
    assert forall i :: 0 <= i < n ==> text[i] == text[..n][i];
  }

  /** Cutting n runes off a text whose first k runes are of one paragraph. */
  lemma CutFront(face: Advance, maxW: int, text: string, n: nat, k: nat)
    requires n <= k <= |text| && OneParagraph(text[..k])
    ensures OneParagraph(text[n..][..k - n]) && text[n..][..k - n] == text[n..k]
    ensures AfterLine(text[n..], k - n) == AfterLine(text, k) && text[n..][k - n..] == text[k..]
    ensures RunesFit(face, maxW, text) ==> RunesFit(face, maxW, text[n..])
  {
    ParagraphRunes(text, k);
  }

  /** A paragraph that starts a text ends where its newline is. */
  lemma EndsAtNewline(text: string, n: nat, k: nat)
    requires n <= k <= |text| && n < |text| && OneParagraph(text[..k]) && text[n] == '\n'
    ensures k == n
  {
    ParagraphRunes(text, k);
  }

  /** Dropping runes from the front of the first paragraph never needs more lines. */
  lemma {:induction false} SuffixNeedsNoMore(face: Advance, maxW: int, text: string, n: nat)
    requires Advancing(face) && RunesFit(face, maxW, text) && maxW >= 0
    requires n <= |text| && OneParagraph(text[..n])
    ensures |Greedy(face, maxW, text[n..])| <= |Greedy(face, maxW, text)|
    decreases |text|, 0
  {
    hide FirstLine, Width, Greedy, OneParagraph, RunesFit, Advancing, Fits, AfterLine;
    if n == |text| {
      NoLines(face, maxW);
    } else if n == 0 {
      assert text[0..] == text;
    } else {
      ParagraphRunes(text, n);
      var k := FirstOfLines(face, maxW, text);
      if k < n {
        CutFront(face, maxW, text, k, n);
        AfterNoNewline(text, k);
        SuffixNeedsNoMore(face, maxW, text[k..], n - k);
      } else {
        SuffixWithinLine(face, maxW, text, n, k);
      }
    }
  }

  lemma AfterNoNewline(text: string, k: nat)
    requires k < |text| && text[k] != '\n'
    ensures AfterLine(text, k) == text[k..]
  {
  }

  /** The first line of what is left of a line reaches at least as far. */
  lemma ReachesAsFar(face: Advance, maxW: int, text: string, n: nat, k: nat)
    requires Advancing(face) && RunesFit(face, maxW, text) && maxW >= 0
    requires k == FirstLine(face, maxW, text, 0) && n <= k && OneParagraph(text[..k])
    ensures k - n <= FirstLine(face, maxW, text[n..], 0)
  {
    hide FirstLine, Width, OneParagraph, RunesFit, Advancing;
    FirstLineFits(face, maxW, text);
    SuffixNarrower(face, text[..n], text[n..k]);
    assert text[..n] + text[n..k] == text[..k];
    CutFront(face, maxW, text, n, k);
    FirstLineLongest(face, maxW, text[n..], k - n);
  }

  /** The case that the cut falls into the first line, or at its end. */
  lemma {:induction false} SuffixWithinLine(face: Advance, maxW: int, text: string, n: nat, k: nat)
    requires Advancing(face) && RunesFit(face, maxW, text) && maxW >= 0
    requires text != "" && k == FirstLine(face, maxW, text, 0) && 0 < k && n <= k <= |text| && n < |text|
    requires OneParagraph(text[..k])
    requires |Greedy(face, maxW, text)| == 1 + |Greedy(face, maxW, AfterLine(text, k))|
    ensures |Greedy(face, maxW, text[n..])| <= |Greedy(face, maxW, text)|
    decreases |text| - 1, 2
  {
    hide FirstLine, Width, Greedy, OneParagraph, RunesFit, Advancing, Fits, AfterLine;
    var s := text[n..];
    var k' := FirstOfLines(face, maxW, s);
    ReachesAsFar(face, maxW, text, n, k);
    CutFront(face, maxW, text, n, k);
    if k == |text| {
      assert k' == k - n;
    } else if text[k] == '\n' {
      EndsAtNewline(s, k - n, k');
    } else {
      AfterNoNewline(text, k);
      CutFront(face, maxW, s, k - n, k');
      AfterNeedsNoMore(face, maxW, text[k..], n + k' - k);
    }
  }

  lemma {:induction false} AfterNeedsNoMore(face: Advance, maxW: int, text: string, n: nat)
    requires Advancing(face) && RunesFit(face, maxW, text) && maxW >= 0
    requires n <= |text| && OneParagraph(text[..n])
    ensures |Greedy(face, maxW, AfterLine(text, n))| <= |Greedy(face, maxW, text)|
    decreases |text|, 1
  {
    hide FirstLine, Width, Greedy, OneParagraph, RunesFit, Advancing;
    SuffixNeedsNoMore(face, maxW, text, n);
    if n < |text| && text[n] == '\n' {
      var s := text[n..];
      var k := FirstOfLines(face, maxW, s);
      EndsAtNewline(s, 0, k);
      assert AfterLine(s, 0) == AfterLine(text, n);
    }
  }

  lemma NoLines(face: Advance, maxW: int)
    ensures Greedy(face, maxW, "") == []
  {
  }

  lemma WovenCons(b: Broken, more: seq<Broken>)
    ensures Woven([b] + more) == b.line + (if b.newline then "\n" else "") + Woven(more)
  {
    assert ([b] + more)[1..] == more;
  }

  /** Greedy wrapping of a text whose runes all fit is itself such a layout. */
  lemma {:induction false} GreedyIsALayout(face: Advance, maxW: int, text: string) returns (lines: seq<Broken>)
    requires RunesFit(face, maxW, text) && maxW >= 0
    ensures IsLayout(face, maxW, text, lines) && |lines| == |Greedy(face, maxW, text)|
    ensures forall j :: 0 <= j < |lines| ==> lines[j].line == Greedy(face, maxW, text)[j]
    decreases |text|
  {
    hide FirstLine, Width, Greedy, Woven;
    lines := [];
    if text == "" {
      NoLines(face, maxW);
      assert Woven([]) == "" by { NothingWoven(); }
    } else {
      var k := FirstOfLines(face, maxW, text);
      FirstLineFits(face, maxW, text);
      GreedyLine(face, maxW, text, k);
      var more := GreedyIsALayout(face, maxW, AfterLine(text, k));
      var b := Broken(text[..k], k < |text| && text[k] == '\n');
      WovenCons(b, more);
      assert text == text[..k] + (if b.newline then "\n" else "") + AfterLine(text, k);
      lines := [b] + more;
    }
  }

  lemma NothingWoven()
    ensures Woven([]) == ""
  {
  }

  /** The first line of a layout, and the layout of what comes after it. */
  lemma LayoutHead(face: Advance, maxW: int, text: string, lines: seq<Broken>) returns (n: nat)
    requires IsLayout(face, maxW, text, lines) && lines != []
    ensures n <= |text| && OneParagraph(text[..n]) && Fits(face, maxW, text[..n])
    ensures if lines[0].newline
            then n < |text| && text[n] == '\n' && IsLayout(face, maxW, text[n + 1..], lines[1..])
            else IsLayout(face, maxW, text[n..], lines[1..])
  {
    hide Width;
    var b := lines[0];
    n := |b.line|;
    assert text[..n] == b.line;
    if b.newline {
      assert text[n + 1..] == Woven(lines[1..]);
    } else {
      assert text[n..] == Woven(lines[1..]);
    }
  }

  lemma AfterNewlineOf(face: Advance, maxW: int, text: string, n: nat)
    requires n < |text| && text[n] == '\n'
    ensures AfterLine(text, n) == text[n + 1..]
    ensures RunesFit(face, maxW, text) ==> RunesFit(face, maxW, text[n + 1..])
  {
  }

  lemma NoLayoutOfNothing(face: Advance, maxW: int, text: string, lines: seq<Broken>)
    requires IsLayout(face, maxW, text, lines) && text != ""
    ensures lines != []
  {
  }

  /** No layout of a text into fitting lines, broken at every newline, has fewer lines than greedy wrapping. */
  lemma {:induction false} GreedyIsMinimal(face: Advance, maxW: int, text: string, lines: seq<Broken>)
    requires Advancing(face) && RunesFit(face, maxW, text) && maxW >= 0
    requires IsLayout(face, maxW, text, lines)
    ensures |Greedy(face, maxW, text)| <= |lines|
    decreases |lines|
  {
    hide FirstLine, Width, Greedy, OneParagraph, RunesFit, Advancing, Fits, AfterLine, IsLayout;
    if text == "" {
      NoLines(face, maxW);
    } else {
      NoLayoutOfNothing(face, maxW, text, lines);
      var n := LayoutHead(face, maxW, text, lines);
      var k := FirstOfLines(face, maxW, text);
      FirstLineLongest(face, maxW, text, n);
      if lines[0].newline {
        EndsAtNewline(text, n, k);
        AfterNewlineOf(face, maxW, text, n);
        GreedyIsMinimal(face, maxW, text[n + 1..], lines[1..]);
      } else {
        CutFront(face, maxW, text, n, k);
        GreedyIsMinimal(face, maxW, text[n..], lines[1..]);
        AfterNeedsNoMore(face, maxW, text[n..], k - n);
      }
    }
  }

  /* ---- the method ---- */

  /** The state of the loop after i runes: the lines flushed, and where the current line starts. */
  ghost predicate Progress(face: Advance, maxW: int, text: string, lines: seq<string>, start: nat, i: nat) {
    && start <= i <= |text|
    && Greedy(face, maxW, text) == lines + Greedy(face, maxW, text[start..])
    && FirstLine(face, maxW, text[start..], 0) == FirstLine(face, maxW, text[start..], i - start)
  }

  lemma ProgressStart(face: Advance, maxW: int, text: string)
    ensures Progress(face, maxW, text, [], 0, 0)
  {
    assert text[0..] == text;
    assert [] + Greedy(face, maxW, text) == Greedy(face, maxW, text);
  }

  lemma FirstLineHere(face: Advance, maxW: int, s: string, t: nat)
    requires t < |s| && (s[t] == '\n' || (t > 0 && Width(face, s[..t]) + Adv(face, s[t]) > maxW))
    ensures FirstLine(face, maxW, s, t) == t
  {
  }

  lemma GreedyLine(face: Advance, maxW: int, s: string, k: nat)
    requires s != "" && k == FirstLine(face, maxW, s, 0)
    ensures Greedy(face, maxW, s) == [s[..k]] + Greedy(face, maxW, AfterLine(s, k))
  {
  }

  /** Flushing: the runes taken so far are the next line. */
  lemma FlushLine(face: Advance, maxW: int, text: string, lines: seq<string>, start: nat, i: nat)
    requires i < |text| && Progress(face, maxW, text, lines, start, i)
    requires text[i] == '\n' || (i > start && Width(face, text[start..i]) + Adv(face, text[i]) > maxW)
    ensures var next := if text[i] == '\n' then i + 1 else i;
            Progress(face, maxW, text, lines + [text[start..i]], next, next)
    ensures FirstLine(face, maxW, text[start..], 0) == i - start
  {
    hide Greedy, FirstLine, Width;
    var s, t := text[start..], i - start;
    assert s[t] == text[i] && s[..t] == text[start..i];
    FirstLineHere(face, maxW, s, t);
    GreedyLine(face, maxW, s, t);
    var next := if text[i] == '\n' then i + 1 else i;
    assert AfterLine(s, t) == text[next..];
    Reassociate(lines, text[start..i], Greedy(face, maxW, text[next..]));
  }

  lemma Reassociate(lines: seq<string>, line: string, more: seq<string>)
    ensures lines + ([line] + more) == (lines + [line]) + more
  {
  }

  lemma TakeOne(face: Advance, maxW: int, s: string, t: nat)
    requires t < |s| && s[t] != '\n' && (t == 0 || Width(face, s[..t]) + Adv(face, s[t]) <= maxW)
    ensures FirstLine(face, maxW, s, t) == FirstLine(face, maxW, s, t + 1)
  {
  }

  /** Taking a rune that fits, or the first of a line. */
  lemma TakeRune(face: Advance, maxW: int, text: string, lines: seq<string>, start: nat, i: nat)
    requires i < |text| && Progress(face, maxW, text, lines, start, i) && text[i] != '\n'
    requires i == start || Width(face, text[start..i]) + Adv(face, text[i]) <= maxW
    ensures Progress(face, maxW, text, lines, start, i + 1)
    ensures text[start..i + 1] == text[start..i] + [text[i]]
    ensures Width(face, text[start..i + 1]) == Width(face, text[start..i]) + Adv(face, text[i])
  {
    hide Greedy, FirstLine;
    var s, t := text[start..], i - start;
    assert s[t] == text[i] && s[..t] == text[start..i];
    TakeOne(face, maxW, s, t);
    assert text[start..i + 1][..t] == text[start..i];
  }

  /** At the end of the text the runes of the current line are the last line. */
  lemma ProgressEnd(face: Advance, maxW: int, text: string, lines: seq<string>, start: nat)
    requires Progress(face, maxW, text, lines, start, |text|)
    ensures Greedy(face, maxW, text) == if start == |text| then lines else lines + [text[start..]]
    ensures FirstLine(face, maxW, text[start..], 0) == |text| - start
  {
    hide Width;
    var s := text[start..];
    if s != "" {
      assert AfterLine(s, |s|) == "";
      assert s[..|s|] == s;
      GreedyLine(face, maxW, s, |s|);
      NoLines(face, maxW);
    }
  }

  /** Wraps to maxWidth, at most maxLines lines (at least one is tried): the beginning of the
      greedy lines, all of them if they fit into maxLines. */
  method WrapText(face: Advance, text: string, maxWidth: int, maxLines: int) returns (lines: seq<string>)
    ensures maxLines >= 1 ==> lines == Take(Greedy(face, 64 * maxWidth, text), maxLines)
    ensures maxLines < 1 ==>
              lines == if FirstLine(face, 64 * maxWidth, text, 0) == |text| then []
                       else Take(Greedy(face, 64 * maxWidth, text), 1)
  {
    hide Greedy, Width, Progress, Adv, FirstLine;
    assert text[0..] == text;
    var maxW := Fixed(maxWidth);
    lines := [];
    var cur := "";
    var curW := 0;
    ghost var start := 0;
    ProgressStart(face, maxW, text);
    EmptyWidth(face);
    for i := 0 to |text|
      invariant start <= i && cur == text[start..i] && curW == Width(face, cur)
      invariant Progress(face, maxW, text, lines, start, i)
      invariant if maxLines < 1 then lines == [] && start == 0 else |lines| < maxLines
    {
      var r := text[i];
      if r == '\n' {
        FlushLine(face, maxW, text, lines, start, i);
        lines := lines + [cur];
        cur, curW := "", 0;
        start := i + 1;
        if |lines| >= maxLines {
          ProgressIsPrefix(face, maxW, text, lines, start);
          return;
        }
        continue;
      }
      var adv := Adv(face, r);
      if curW + adv > maxW && |cur| > 0 {
        FlushLine(face, maxW, text, lines, start, i);
        lines := lines + [cur];
        cur, curW := "", 0;
        start := i;
        if |lines| >= maxLines {
          ProgressIsPrefix(face, maxW, text, lines, start);
          return;
        }
      }
      TakeRune(face, maxW, text, lines, start, i);
      cur := cur + [r];
      curW := curW + adv;
    }
    ProgressEnd(face, maxW, text, lines, start);
    assert cur == text[start..];
    if |cur| > 0 && |lines| < maxLines {
      lines := lines + [cur];
    }
    assert maxLines >= 1 ==> lines == Greedy(face, maxW, text);
    assert maxLines < 1 ==> lines == [];
  }

  lemma EmptyWidth(face: Advance)
    ensures Width(face, "") == 0
  {
  }

  lemma ProgressIsPrefix(face: Advance, maxW: int, text: string, lines: seq<string>, start: nat)
    requires Progress(face, maxW, text, lines, start, start)
    ensures lines == Take(Greedy(face, maxW, text), |lines|)
  {
  }

  /** What WrapText returns for maxLines >= 1: few enough lines, each fitting or a single rune, that
      hold the beginning of the text, and all of it unless the limit cut lines off. */
  lemma WrappedLines(face: Advance, text: string, maxWidth: int, maxLines: nat)
    requires maxLines >= 1
    ensures var all := Greedy(face, 64 * maxWidth, text);
            var lines := Take(all, maxLines);
            && |lines| <= maxLines
            && (forall j :: 0 <= j < |lines| ==> |lines[j]| <= 1 || Width(face, lines[j]) <= 64 * maxWidth)
            && Concat(lines) <= NoNewlines(text)
            && (|all| <= maxLines ==> Concat(lines) == NoNewlines(text))
  {
    hide Greedy, Width;
    LinesFit(face, 64 * maxWidth, text);
    LinesHoldText(face, 64 * maxWidth, text);
    TakeIsPrefix(Greedy(face, 64 * maxWidth, text), maxLines);
  }

  lemma {:induction false} TakeIsPrefix(lines: seq<string>, n: nat)
    ensures Concat(Take(lines, n)) <= Concat(lines)
  {
    if lines != [] && n > 0 {
      TakeIsPrefix(lines[1..], n - 1);
      assert Take(lines, n)[1..] == Take(lines[1..], n - 1);
    }
  }
}
