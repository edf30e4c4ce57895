/**
 progressThrottleWriter in converter/mokuro.go: splits mokuro's output into lines, forwards
 every '\n' line and one in `every` of the '\r' redraws, and reports volumes. What it has
 done after a stream of bytes does not depend on how the stream was cut into Write calls.

 A char stands for one byte. volumeOf stands for the regular expression applied to a line.
 */
module ProgressWriter {
  import opened Wrappers

  predicate IsSep(c: char) {
    c == '\r' || c == '\n'
  }

  datatype Line = Line(text: string, sep: char)

  /** All that a writer did and keeps: bytes sent on, volumes reported, bytes held back, redraws seen. */
  datatype Progress = Progress(out: string, volumes: seq<string>, buf: string, crCount: nat)

  /* ---- a one-shot splitter ---- */

  /** Position of the first separator of s, or |s|. */
  function FirstSep(s: string): (i: nat)
    ensures i <= |s|
    ensures forall k :: 0 <= k < i ==> !IsSep(s[k])
    ensures i < |s| ==> IsSep(s[i])
  {
    if s == "" || IsSep(s[0]) then 0 else 1 + FirstSep(s[1..])
  }

  /** The complete lines of s and what is left after the last separator. */
  function Split(s: string): (seq<Line>, string)
    decreases |s|
  {
    var i := FirstSep(s);
    if i == |s| then ([], s)
    else
      var (lines, rest) := Split(s[i + 1..]);
      ([Line(s[..i], s[i])] + lines, rest)
  }

  function Joined(lines: seq<Line>): string {
    if lines == [] then "" else lines[0].text + ([lines[0].sep] + Joined(lines[1..]))
  }

  ghost predicate SepFree(s: string) {
    forall k :: 0 <= k < |s| ==> s[k] != '\r' && s[k] != '\n'
  }

  ghost predicate AreLines(lines: seq<Line>) {
    forall k :: 0 <= k < |lines| ==> SepFree(lines[k].text) && (lines[k].sep == '\r' || lines[k].sep == '\n')
  }

  /** Split only cuts: its parts put together are s, and separators stand only where it cut. */
  lemma {:induction false} SplitIsACut(s: string)
    ensures var (lines, rest) := Split(s);
            Joined(lines) + rest == s && SepFree(rest) && AreLines(lines)
    decreases |s|
  {
    hide FirstSep, Joined, AreLines;
    var i := FirstSep(s);
    if i == |s| {
      assert Split(s) == ([], s);
      NoLines();
    } else {
      var tail := s[i + 1..];
      SplitIsACut(tail);
      var (lines, rest) := Split(tail);
      JoinedCons(Line(s[..i], s[i]), lines);
      Regroup(s[..i], [s[i]], Joined(lines), rest);
      CutAt(s, i);
    }
  }

  lemma Regroup(a: string, b: string, c: string, d: string)
    ensures a + (b + c) + d == a + (b + (c + d))
  {
  }

  lemma CutAt(s: string, i: nat)
    requires i < |s|
    ensures s == s[..i] + ([s[i]] + s[i + 1..])
  {
  }

  lemma NoLines()
    ensures Joined([]) == "" && AreLines([])
  {
  }

  lemma JoinedCons(l: Line, lines: seq<Line>)
    ensures Joined([l] + lines) == l.text + ([l.sep] + Joined(lines))
    ensures SepFree(l.text) && IsSep(l.sep) && AreLines(lines) ==> AreLines([l] + lines)
  {
    assert ([l] + lines)[1..] == lines;
  }

  lemma {:induction false} FirstSepOf(a: string, b: string)
    ensures FirstSep(a) < |a| ==> FirstSep(a + b) == FirstSep(a)
    ensures SepFree(a) ==> FirstSep(a + b) == |a| + FirstSep(b)
  {
    if a == "" {
      assert a + b == b;
    } else {
      FirstSepOf(a[1..], b);
      assert (a + b)[1..] == a[1..] + b;
    }
  }

  /** Splitting a concatenation: the lines of the first part, then those of what was left and the second. */
  lemma {:induction false} SplitConcat(a: string, b: string)
    ensures var (la, ra) := Split(a);
            var (lb, rb) := Split(ra + b);
            Split(a + b) == (la + lb, rb)
    decreases |a|
  {
    hide FirstSep;
    var i := FirstSep(a);
    if i == |a| {
      assert Split(a) == ([], a);
      var (lb, rb) := Split(a + b);
      assert [] + lb == lb;
    } else {
      FirstSepOf(a, b);
      SplitConcat(a[i + 1..], b);
      ConcatParts(a, b, i);
      SplitAt(a, i);
      SplitAt(a + b, i);
      hide Split;
      var (la, ra) := Split(a[i + 1..]);
      var (lb, rb) := Split(ra + b);
      Reassociate(Line(a[..i], a[i]), la, lb);
    }
  }

  lemma ConcatParts(a: string, b: string, i: nat)
    requires i < |a|
    ensures (a + b)[i + 1..] == a[i + 1..] + b && (a + b)[..i] == a[..i] && (a + b)[i] == a[i]
  {
  }

  lemma SplitAt(s: string, i: nat)
    requires i < |s| && FirstSep(s) == i
    ensures Split(s) == ([Line(s[..i], s[i])] + Split(s[i + 1..]).0, Split(s[i + 1..]).1)
  {
    hide FirstSep;
  }

  lemma Reassociate(l: Line, a: seq<Line>, b: seq<Line>)
    ensures [l] + (a + b) == ([l] + a) + b
  {
  }

  /* ---- what happens to lines ---- */

  /** every throttles redraws; reports is false when onVolume is nil. */
  datatype Config = Config(every: int, reports: bool, volumeOf: string -> Option<string>)

  /** Whether the k-th redraw (counted from 1) is forwarded. */
  predicate Sampled(k: nat, every: int) {
    every <= 1 || k % every == 0
  }

  function Handle(p: Progress, l: Line, cfg: Config): Progress {
    if l.sep == '\n' then
      p.(out := p.out + l.text + "\n",
         volumes := if cfg.reports && cfg.volumeOf(l.text).Some?
                    then p.volumes + [cfg.volumeOf(l.text).value] else p.volumes)
    else
      var k := p.crCount + 1;
      p.(crCount := k, out := if Sampled(k, cfg.every) then p.out + l.text + "\n" else p.out)
  }

  function HandleAll(p: Progress, lines: seq<Line>, cfg: Config): Progress
    decreases |lines|
  {
    if lines == [] then p
    else HandleAll(Handle(p, lines[0], cfg), lines[1..], cfg)
  }

  /** Handles the complete lines of the bytes held back and keeps what is left of them. */
  function Flush(p: Progress, cfg: Config): Progress {
    var (lines, rest) := Split(p.buf);
    HandleAll(p, lines, cfg).(buf := rest)
  }

  /** The effect of one Write. */
  function Feed(p: Progress, bytes: string, cfg: Config): Progress {
    Flush(p.(buf := p.buf + bytes), cfg)
  }

  function FeedAll(p: Progress, chunks: seq<string>, cfg: Config): Progress
    decreases |chunks|
  {
    if chunks == [] then p else FeedAll(Feed(p, chunks[0], cfg), chunks[1..], cfg)
  }

  function Concat(chunks: seq<string>): string {
    if chunks == [] then "" else chunks[0] + Concat(chunks[1..])
  }

  const Start := Progress("", [], "", 0)

  lemma {:induction false} HandleAllConcat(p: Progress, a: seq<Line>, b: seq<Line>, cfg: Config)
    ensures HandleAll(p, a + b, cfg) == HandleAll(HandleAll(p, a, cfg), b, cfg)
    decreases |a|
  {
    hide Handle;
    if a == [] {
      assert a + b == b;
    } else {
      HandleAllConcat(Handle(p, a[0], cfg), a[1..], b, cfg);
      assert (a + b)[1..] == a[1..] + b;
    }
  }

  lemma {:induction false} HandleIgnoresBuf(p: Progress, lines: seq<Line>, cfg: Config, buf: string)
    ensures HandleAll(p.(buf := buf), lines, cfg) == HandleAll(p, lines, cfg).(buf := buf)
    decreases |lines|
  {
    if lines != [] {
      HandleIgnoresBuf(Handle(p, lines[0], cfg), lines[1..], cfg, buf);
    }
  }

  /** Two writes do what one write of both does. */
  lemma FeedConcat(p: Progress, a: string, b: string, cfg: Config)
    ensures Feed(Feed(p, a, cfg), b, cfg) == Feed(p, a + b, cfg)
  {
    hide Split, HandleAll;
    var (la, ra) := Split(p.buf + a);
    var (lb, rb) := Split(ra + b);
    SplitConcat(p.buf + a, b);
    assert p.buf + a + b == p.buf + (a + b);
    var q := HandleAll(p, la, cfg);
    HandleIgnoresBuf(p, la, cfg, p.buf + a);
    HandleIgnoresBuf(q, lb, cfg, ra + b);
    HandleAllConcat(p, la, lb, cfg);
    HandleIgnoresBuf(p, la + lb, cfg, p.buf + (a + b));
  }

  /** Flush takes the first complete line and goes on with the rest. */
  lemma FlushStep(p: Progress, cfg: Config)
    requires FirstSep(p.buf) < |p.buf|
    ensures var i := FirstSep(p.buf);
            Flush(p, cfg)
            == Flush(Handle(p, Line(p.buf[..i], p.buf[i]), cfg).(buf := p.buf[i + 1..]), cfg)
  {
    hide Handle;
    var i := FirstSep(p.buf);
    var l := Line(p.buf[..i], p.buf[i]);
    var (lines, rest) := Split(p.buf[i + 1..]);
    assert ([l] + lines)[1..] == lines;
    HandleIgnoresBuf(Handle(p, l, cfg), lines, cfg, p.buf[i + 1..]);
  }

  lemma FlushEnd(p: Progress, cfg: Config)
    requires FirstSep(p.buf) == |p.buf|
    ensures Flush(p, cfg) == p
  {
  }

  /** However a stream is cut into writes, output, reported volumes, held-back bytes and redraw
      count are those of the one-shot splitter on the whole stream. */
  lemma {:induction false} ChunkingIsInvisible(p: Progress, chunks: seq<string>, cfg: Config)
    requires SepFree(p.buf)
    ensures FeedAll(p, chunks, cfg) == Feed(p, Concat(chunks), cfg)
    decreases |chunks|
  {
    if chunks == [] {
      assert p.buf + "" == p.buf;
      FeedNothing(p, cfg);
    } else {
      var p' := Feed(p, chunks[0], cfg);
      SplitIsACut(p.buf + chunks[0]);
      ChunkingIsInvisible(p', chunks[1..], cfg);
      FeedConcat(p, chunks[0], Concat(chunks[1..]), cfg);
    }
  }

  lemma FeedNothing(p: Progress, cfg: Config)
    requires SepFree(p.buf)
    ensures Feed(p, "", cfg) == p
  {
    assert p.buf + "" == p.buf;
    FlushEnd(p, cfg);
  }

  /** Bytes once sent on stay sent. */
  lemma {:induction false} OutGrows(p: Progress, lines: seq<Line>, cfg: Config)
    ensures p.out <= HandleAll(p, lines, cfg).out
    decreases |lines|
  {
    if lines != [] {
      OutGrows(Handle(p, lines[0], cfg), lines[1..], cfg);
    }
  }

  lemma FlushGrows(p: Progress, cfg: Config)
    ensures p.out <= Flush(p, cfg).out
  {
    hide Split, HandleAll;
    var (lines, rest) := Split(p.buf);
    OutGrows(p, lines, cfg);
  }

  /* ---- throttling ---- */

  function Redraws(lines: seq<Line>): (r: nat)
    ensures r <= |lines|
  {
    if lines == [] then 0 else (if lines[0].sep == '\n' then 0 else 1) + Redraws(lines[1..])
  }

  /** Of the redraws numbered from k+1 on, how many are forwarded. */
  function Forwarded(lines: seq<Line>, k: nat, every: int): nat {
    if lines == [] then 0
    else if lines[0].sep == '\n' then Forwarded(lines[1..], k, every)
    else (if Sampled(k + 1, every) then 1 else 0) + Forwarded(lines[1..], k + 1, every)
  }

  lemma DivStep(k: nat, every: int)
    requires every > 1
    ensures (k + 1) / every == k / every + (if (k + 1) % every == 0 then 1 else 0)
  {
    var q, r := k / every, k % every;
    assert k == q * every + r;
    if r + 1 == every {
      assert k + 1 == (q + 1) * every;
      DivModIs(k + 1, every, q + 1, 0);
    } else {
      DivModIs(k + 1, every, q, r + 1);
    }
  }

  lemma DivModIs(n: nat, d: int, q: nat, r: nat)
    requires d > 0 && r < d && n == q * d + r
    ensures n / d == q && n % d == r
  {
    var q', r' := n / d, n % d;
    assert n == q' * d + r';
    Apart(q', q, d);
    Apart(q, q', d);
  }

  lemma Apart(x: int, y: int, d: int)
    requires d > 0
    ensures x > y ==> x * d >= y * d + d
  {
    if x > y {
      assert (x - y - 1) * d >= 0;
      assert (x - y - 1) * d == x * d - y * d - d;
    }
  }

  /** Exactly one redraw in `every` is forwarded, counted over the whole stream; with every <= 1, all. */
  lemma {:induction false} OneInEvery(lines: seq<Line>, k: nat, every: int)
    ensures every > 1 ==> Forwarded(lines, k, every) == (k + Redraws(lines)) / every - k / every
    ensures every <= 1 ==> Forwarded(lines, k, every) == Redraws(lines)
    decreases |lines|
  {
    if lines != [] {
      if lines[0].sep == '\n' {
        OneInEvery(lines[1..], k, every);
      } else {
        OneInEvery(lines[1..], k + 1, every);
        if every > 1 {
          DivStep(k, every);
        }
      }
    }
  }

  /** Number of '\n' lines of a list. */
  function Newlines(lines: seq<Line>): nat {
    |lines| - Redraws(lines)
  }

  /** How many lines a text of forwarded lines holds. */
  function Terminators(s: string): nat {
    if s == "" then 0 else (if s[|s| - 1] == '\n' then 1 else 0) + Terminators(s[..|s| - 1])
  }

  lemma {:induction false} TerminatorsLine(s: string, text: string)
    requires SepFree(text)
    ensures Terminators(s + text + "\n") == Terminators(s) + 1
  {
    assert (s + text + "\n")[..|s + text|] == s + text;
    TerminatorsText(s, text);
  }

  lemma {:induction false} TerminatorsText(s: string, text: string)
    requires SepFree(text)
    ensures Terminators(s + text) == Terminators(s)
  {
    if text == "" {
      assert s + text == s;
    } else {
      var k := |text| - 1;
      TerminatorsText(s, text[..k]);
      assert (s + text)[..|s| + k] == s + text[..k];
      assert !IsSep(text[k]);
    }
  }

  lemma {:induction false} HandleAllCounts(p: Progress, lines: seq<Line>, cfg: Config)
    requires AreLines(lines)
    ensures var q := HandleAll(p, lines, cfg);
            && q.crCount == p.crCount + Redraws(lines)
            && Terminators(q.out) == Terminators(p.out) + Newlines(lines) + Forwarded(lines, p.crCount, cfg.every)
    decreases |lines|
  {
    hide Terminators;
    if lines != [] {
      var l := lines[0];
      assert forall k :: 0 <= k < |lines[1..]| ==> lines[1..][k] == lines[k + 1];
      TerminatorsLine(p.out, l.text);
      HandleAllCounts(Handle(p, l, cfg), lines[1..], cfg);
    }
  }

  /** From the start of a stream: the lines sent on are all '\n' lines and, of the crCount redraws,
      floor(crCount / every). */
  lemma LinesSent(stream: string, cfg: Config)
    requires cfg.every > 1
    ensures var (lines, rest) := Split(stream);
            var p := Feed(Start, stream, cfg);
            && p.crCount == Redraws(lines)
            && Terminators(p.out) == Newlines(lines) + p.crCount / cfg.every
  {
    hide Split, HandleAll, Redraws, Forwarded;
    assert "" + stream == stream;
    SplitIsACut(stream);
    var (lines, rest) := Split(stream);
    HandleIgnoresBuf(Start, lines, cfg, stream);
    HandleAllCounts(Start, lines, cfg);
    OneInEvery(lines, 0, cfg.every);
    assert 0 / cfg.every == 0;
  }

  /* ---- what a whole stream comes to ---- */

  /** What volumeOf finds in the newline lines, in order. */
  function Reported(lines: seq<Line>, volumeOf: string -> Option<string>): seq<string> {
    if lines == [] then []
    else
      var n := |lines| - 1;
      var v := volumeOf(lines[n].text);
      Reported(lines[..n], volumeOf) + (if lines[n].sep == '\n' && v.Some? then [v.value] else [])
  }

  /** How many of the lines end in '\r'. */
  function CarriageReturns(lines: seq<Line>): nat {
    |set i | 0 <= i < |lines| && lines[i].sep == '\r'|
  }

  /** The newline lines and those redraws whose number is a multiple of every, each with a newline. */
  function Sent(lines: seq<Line>, every: int): string {
    if lines == [] then ""
    else
      var n := |lines| - 1;
      var sent := lines[n].sep == '\n' || every <= 1 || CarriageReturns(lines) % every == 0;
      Sent(lines[..n], every) + (if sent then lines[n].text + "\n" else "")
  }

  lemma CarriageReturnsSnoc(lines: seq<Line>, l: Line)
    requires IsSep(l.sep)
    ensures CarriageReturns(lines + [l]) == CarriageReturns(lines) + if l.sep == '\n' then 0 else 1
  {
    var n := |lines|;
    var before := set i | 0 <= i < n && lines[i].sep == '\r';
    var after := set i | 0 <= i < n + 1 && (lines + [l])[i].sep == '\r';
    assert after == if l.sep == '\r' then before + {n} else before;
  }

  lemma {:induction false} HandledAre(lines: seq<Line>, cfg: Config, buf: string)
    requires AreLines(lines)
    ensures HandleAll(Start.(buf := buf), lines, cfg)
         == Progress(Sent(lines, cfg.every), if cfg.reports then Reported(lines, cfg.volumeOf) else [], buf,
                     CarriageReturns(lines))
  {
    hide CarriageReturns;
    if lines == [] {
      NoCarriageReturns();
    } else {
      var n := |lines| - 1;
      var front, l := lines[..n], lines[n];
      assert lines == front + [l];
      HandledAre(front, cfg, buf);
      HandleAllConcat(Start.(buf := buf), front, [l], cfg);
      CarriageReturnsSnoc(front, l);
      OneHandled(HandleAll(Start.(buf := buf), front, cfg), l, cfg);
    }
  }

  lemma OneHandled(p: Progress, l: Line, cfg: Config)
    ensures HandleAll(p, [l], cfg) == Handle(p, l, cfg)
  {
    hide Handle;
    assert HandleAll(Handle(p, l, cfg), [], cfg) == Handle(p, l, cfg);
  }

  lemma NoCarriageReturns()
    ensures CarriageReturns([]) == 0
  {
  }

  /** From the start of a stream, in any chunks: sent on are exactly the newline lines and one redraw in
      every, in order; reported is what volumeOf finds in the newline lines; and held back is what follows
      the last separator. */
  lemma StreamComesTo(chunks: seq<string>, cfg: Config)
    ensures var (lines, rest) := Split(Concat(chunks));
            FeedAll(Start, chunks, cfg)
            == Progress(Sent(lines, cfg.every), if cfg.reports then Reported(lines, cfg.volumeOf) else [], rest,
                        CarriageReturns(lines))
  {
    hide Split, HandleAll, Sent, Reported, CarriageReturns;
    ChunkingIsInvisible(Start, chunks, cfg);
    var stream := Concat(chunks);
    assert "" + stream == stream;
    SplitIsACut(stream);
    HandledAre(Split(stream).0, cfg, stream);
  }

  lemma FirstWrite(p: string, cfg: Config)
    ensures var (lines, rest) := Split(p);
            Feed(Start, p, cfg)
            == Progress(Sent(lines, cfg.every), if cfg.reports then Reported(lines, cfg.volumeOf) else [], rest,
                        CarriageReturns(lines))
  {
    hide Split, HandleAll, Sent, Reported, CarriageReturns;
    StreamComesTo([p], cfg);
    assert Concat([p]) == p;
    assert FeedAll(Start, [p], cfg) == Feed(Start, p, cfg);
  }

  /* ---- the writer ---- */

  /** The destination; room is how many bytes it still takes before it fails. */
  class File {
    var written: string
    var room: nat

    constructor (room: nat)
      ensures written == "" && this.room == room
    {
      written := "";
      this.room := room;
    }

    method Write(s: string) returns (ok: bool)
      modifies this
      ensures ok <==> |s| <= old(room)
      ensures ok ==> written == old(written) + s && room == old(room) - |s|
      ensures !ok ==> written == old(written) + s[..old(room)] && room == 0
    {
      if |s| <= room {
        written := written + s;
        room := room - |s|;
        return true;
      }
      written := written + s[..room];
      room := 0;
      return false;
    }
  }

  class ThrottleWriter {
    const dst: File
    const cfg: Config
    var buf: string
    var crCount: nat
    var volumes: seq<string>

    ghost function P(): Progress
      reads this, dst
    {
      Progress(dst.written, volumes, buf, crCount)
    }

    constructor (dst: File, cfg: Config)
      requires dst.written == ""
      ensures this.dst == dst && this.cfg == cfg && P() == Start
    {
      this.dst, this.cfg := dst, cfg;
      buf, crCount, volumes := "", 0, [];
    }

    method Emit(line: string) returns (ok: bool)
      modifies dst
      ensures ok ==> dst.written == old(dst.written) + line + "\n"
      ensures ok <==> |line| + 1 <= old(dst.room)
      ensures ok ==> dst.room == old(dst.room) - |line| - 1
      ensures !ok ==> dst.written <= old(dst.written) + line + "\n" && dst.room == 0
    {
      ok := dst.Write(line);
      if !ok {
        return;
      }
      ok := dst.Write("\n");
    }

    /** One complete line: the body of Write's loop after the line is cut off. */
    method HandleLine(line: string, sep: char) returns (ok: bool)
      requires IsSep(sep)
      modifies this`crCount, this`volumes, dst
      ensures ok ==> P() == Handle(old(P()), Line(line, sep), cfg)
      ensures !ok ==> dst.written <= Handle(old(P()), Line(line, sep), cfg).out && dst.room == 0
    {
      if sep == '\n' {
        if cfg.reports {
          var v := cfg.volumeOf(line);
          if v.Some? {
            volumes := volumes + [v.value];
          }
        }
        ok := Emit(line);
        return;
      }
      ok := true;
      crCount := crCount + 1;
      if cfg.every <= 1 || crCount % cfg.every == 0 {
        ok := Emit(line);
      }
    }

    /** Returns how many bytes it took: all of them, or none after an error of the destination.
        Without an error it does exactly what Feed says; with one, a full destination holds a beginning
        of what Feed would have sent. */
    method Write(p: string) returns (n: nat, ok: bool)
      modifies this, dst
      ensures ok ==> n == |p| && P() == Feed(old(P()), p, cfg)
      ensures ok && old(P()) == Start ==>
                var (lines, rest) := Split(p);
                P() == Progress(Sent(lines, cfg.every), if cfg.reports then Reported(lines, cfg.volumeOf) else [],
                                rest, CarriageReturns(lines))
      ensures !ok ==> n == 0 && dst.room == 0 && dst.written <= Feed(old(P()), p, cfg).out
    {
      FirstWrite(p, cfg);
      buf := buf + p;
      ghost var end := Flush(P(), cfg);
      while true
        invariant Flush(P(), cfg) == end
        decreases |buf|
      {
        hide Split, HandleAll, Flush, FirstSep, Handle;
        var i := FirstSep(buf);
        if i == |buf| {
          FlushEnd(P(), cfg);
          break;
        }
        FlushStep(P(), cfg);
        var line, sep := buf[..i], buf[i];
        HandleKeepsBuf(P(), Line(line, sep), buf[i + 1..]);
        buf := buf[i + 1..];
        FlushGrows(Handle(P(), Line(line, sep), cfg), cfg);
        var ok := HandleLine(line, sep);
        if !ok {
          return 0, false;
        }
      }
      return |p|, true;
    }

    lemma HandleKeepsBuf(p: Progress, l: Line, buf: string)
      ensures Handle(p.(buf := buf), l, cfg) == Handle(p, l, cfg).(buf := buf)
    {
    }
  }
}
