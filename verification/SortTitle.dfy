/**
 internal/epub/opf.go: sort titles, which make byte order agree with the order of the numbers in a
 title. A string is a sequence of bytes or of code points: UTF-8 orders both alike.
 */
module SortTitle {
  import opened Decimal

  /** math.MaxInt, where strconv.Atoi saturates. */
  const MaxInt: nat := 0x7FFF_FFFF_FFFF_FFFF

  predicate HasPrefix(s: string, p: string) {
    p <= s
  }

  const Articles: seq<string> := ["The ", "A ", "An "]

  predicate HasArticle(s: string) {
    HasPrefix(s, "The ") || HasPrefix(s, "A ") || HasPrefix(s, "An ")
  }

  function Strip(s: string): string {
    if HasPrefix(s, "The ") then s[4..]
    else if HasPrefix(s, "A ") then s[2..]
    else if HasPrefix(s, "An ") then s[3..]
    else s
  }

  /** The length of the leading run of digits. */
  function RunLength(s: string): (k: nat)
    ensures k <= |s| && AllDigits(s[..k])
    ensures k < |s| ==> !IsDigit(s[k])
  {
    if s == "" || !IsDigit(s[0]) then 0
    else
      var k := 1 + RunLength(s[1..]);
      assert forall i :: 1 <= i < k ==> s[i] == s[1..][..k - 1][i - 1];
      k
  }

  function Atoi(run: string): nat
    requires AllDigits(run)
  {
    if Value(run) <= MaxInt then Value(run) else MaxInt
  }

  function PadRun(run: string): string
    requires AllDigits(run)
  {
    Padded(Atoi(run), 6)
  }

  /** Every run of digits replaced by its number in at least six digits. */
  function Pad(s: string): string
    decreases |s|
  {
    if s == "" then ""
    else if IsDigit(s[0]) then
      var k := RunLength(s);
      PadRun(s[..k]) + Pad(s[k..])
    else [s[0]] + Pad(s[1..])
  }

  function Of(title: string): string {
    Pad(Strip(title))
  }

  /** The first article that fits is the one stripped. */
  lemma FirstArticle(title: string, i: nat)
    requires i <= |Articles| && forall j :: 0 <= j < i ==> !HasPrefix(title, Articles[j])
    ensures i == |Articles| ==> Strip(title) == title
    ensures i < |Articles| && HasPrefix(title, Articles[i]) ==> Strip(title) == title[|Articles[i]|..]
  {
    assert i > 0 ==> !HasPrefix(title, Articles[0]);
    assert i > 1 ==> !HasPrefix(title, Articles[1]);
    assert i > 2 ==> !HasPrefix(title, Articles[2]);
  }

  method ComputeSortTitle(title: string) returns (r: string)
    ensures r == Of(title)
  {
    hide Strip;
    r := title;
    var i := 0;
    while i < |Articles|
      invariant 0 <= i <= |Articles| && r == title
      invariant forall j :: 0 <= j < i ==> !HasPrefix(title, Articles[j])
    {
      FirstArticle(title, i);
      if HasPrefix(title, Articles[i]) {
        r := title[|Articles[i]|..];
        break;
      }
      i := i + 1;
    }
    if i == |Articles| { FirstArticle(title, i); }
    r := Pad(r);
  }

  /* ---- padding twice ---- */

  predicate EndsRun(rest: string) {
    rest == "" || !IsDigit(rest[0])
  }

  lemma {:induction false} RunOf(run: string, rest: string)
    requires AllDigits(run) && EndsRun(rest)
    ensures RunLength(run + rest) == |run|
  {
    if run == "" {
      assert run + rest == rest;
    } else {
      assert (run + rest)[1..] == run[1..] + rest;
      RunOf(run[1..], rest);
    }
  }

  lemma PadOfRun(run: string, rest: string)
    requires AllDigits(run) && run != "" && EndsRun(rest)
    ensures Pad(run + rest) == PadRun(run) + Pad(rest)
  {
    RunOf(run, rest);
    assert (run + rest)[..|run|] == run && (run + rest)[|run|..] == rest;
  }

  lemma PadKeepsEnds(s: string)
    requires EndsRun(s)
    ensures EndsRun(Pad(s))
  {
  }

  /** Padding a padded title changes nothing, whatever its numbers. */
  lemma {:induction false} PadTwice(s: string)
    ensures Pad(Pad(s)) == Pad(s)
    decreases |s|
  {
    if s != "" {
      if IsDigit(s[0]) {
        var k := RunLength(s);
        PadTwice(s[k..]);
        PadKeepsEnds(s[k..]);
        PadOfRun(PadRun(s[..k]), Pad(s[k..]));
      } else {
        PadTwice(s[1..]);
        assert ([s[0]] + Pad(s[1..]))[1..] == Pad(s[1..]);
      }
    }
  }

  predicate NoDigits(s: string) {
    forall i :: 0 <= i < |s| ==> !IsDigit(s[i])
  }

  /** A prefix without digits passes through. */
  lemma {:induction false} PadAfter(p: string, s: string)
    requires NoDigits(p)
    ensures Pad(p + s) == p + Pad(s)
  {
    hide PadRun, RunLength;
    if p == "" {
      assert p + s == s && p + Pad(s) == Pad(s);
    } else {
      assert (p + s)[1..] == p[1..] + s;
      PadAfter(p[1..], s);
      assert p + Pad(s) == [p[0]] + (p[1..] + Pad(s));
    }
  }

  lemma {:induction false} PadPrefix(s: string, p: string)
    requires NoDigits(p)
    ensures HasPrefix(Pad(s), p) <==> HasPrefix(s, p)
    decreases |p|
  {
    if p != "" && s != "" {
      if IsDigit(s[0]) {
        PadOfHead(s);
      } else {
        PadPrefix(s[1..], p[1..]);
        assert HasPrefix(s, p) <==> s[0] == p[0] && HasPrefix(s[1..], p[1..]);
        assert Pad(s)[1..] == Pad(s[1..]);
        assert HasPrefix(Pad(s), p) <==> Pad(s)[0] == p[0] && HasPrefix(Pad(s)[1..], p[1..]);
      }
    }
  }

  lemma PadOfHead(s: string)
    requires s != "" && IsDigit(s[0])
    ensures Pad(s) != "" && IsDigit(Pad(s)[0])
  {
    assert PadRun(s[..RunLength(s)]) <= Pad(s);
  }

  lemma ArticlesHaveNoDigits()
    ensures NoDigits("The ") && NoDigits("A ") && NoDigits("An ")
  {
  }

  /** A sort title is its own sort title exactly when no second article follows the first. */
  lemma SortTitleTwice(title: string)
    ensures Of(Of(title)) == Of(title) <==> !HasArticle(Strip(title))
  {
    var u := Strip(title);
    var p := Pad(u);
    ArticlesHaveNoDigits();
    PadPrefix(u, "The ");
    PadPrefix(u, "A ");
    PadPrefix(u, "An ");
    PadTwice(u);
    if HasArticle(p) {
      var rest := Strip(p);
      var article := p[..|p| - |rest|];
      assert p == article + rest;
      assert NoDigits(article);
      PadAfter(article, rest);
      assert |Pad(rest)| == |rest|;
    }
  }

  /* ---- natural order ---- */

  /** Byte order: negative, zero or positive. */
  function Compare(s: string, t: string): int {
    if s == "" then (if t == "" then 0 else -1)
    else if t == "" then 1
    else if s[0] != t[0] then (if s[0] < t[0] then -1 else 1)
    else Compare(s[1..], t[1..])
  }

  /** The numbers of two titles, left to right. */
  function CompareNumbers(a: seq<nat>, b: seq<nat>): int {
    if a == [] then (if b == [] then 0 else -1)
    else if b == [] then 1
    else if a[0] != b[0] then (if a[0] < b[0] then -1 else 1)
    else CompareNumbers(a[1..], b[1..])
  }

  /** The numbers in a title. */
  function Numbers(s: string): seq<nat>
    decreases |s|
  {
    if s == "" then []
    else if IsDigit(s[0]) then [Value(s[..RunLength(s)])] + Numbers(s[RunLength(s)..])
    else Numbers(s[1..])
  }

  /** A title with every number replaced by 0. */
  function Skeleton(s: string): string
    decreases |s|
  {
    if s == "" then ""
    else if IsDigit(s[0]) then "0" + Skeleton(s[RunLength(s)..])
    else [s[0]] + Skeleton(s[1..])
  }

  lemma {:induction false} CompareAfter(p: string, s: string, t: string)
    ensures Compare(p + s, p + t) == Compare(s, t)
  {
    if p == "" {
      assert p + s == s && p + t == t;
    } else {
      assert (p + s)[1..] == p[1..] + s && (p + t)[1..] == p[1..] + t;
      CompareAfter(p[1..], s, t);
    }
  }

  /** Numbers of equally many digits compare as their digits do, whatever follows. */
  lemma {:induction false} CompareDigits(a: string, b: string, s: string, t: string)
    requires AllDigits(a) && AllDigits(b) && |a| == |b| && Value(a) != Value(b)
    ensures Compare(a + s, b + t) == if Value(a) < Value(b) then -1 else 1
    decreases |a|
  {
    var k := |a| - 1;
    var a', b' := a[..k], b[..k];
    var s', t' := [a[k]] + s, [b[k]] + t;
    assert a + s == a' + s' && b + t == b' + t';
    if Value(a') == Value(b') {
      ValueInjective(a', b');
      CompareAfter(a', s', t');
    } else {
      CompareDigits(a', b', s', t');
    }
  }

  predicate Small(numbers: seq<nat>, bound: nat) {
    forall i :: 0 <= i < |numbers| ==> numbers[i] < bound
  }

  lemma MillionIsSixDigits()
    ensures Pow10(6) == 1_000_000
  {
    assert Pow10(3) == 1000;
    assert Pow10(6) == 1000 * Pow10(3);
  }

  lemma ComparePadded(m: nat, n: nat, s: string, t: string)
    requires m < 1_000_000 && n < 1_000_000
    ensures Compare(Padded(m, 6) + s, Padded(n, 6) + t)
            == if m == n then Compare(s, t) else if m < n then -1 else 1
  {
    MillionIsSixDigits();
    PaddedLength(m, 6);
    PaddedLength(n, 6);
    if m == n {
      CompareAfter(Padded(m, 6), s, t);
    } else {
      CompareDigits(Padded(m, 6), Padded(n, 6), s, t);
    }
  }

  lemma {:induction false} PadOrder(s: string, t: string)
    requires Skeleton(s) == Skeleton(t)
    requires Small(Numbers(s), 1_000_000) && Small(Numbers(t), 1_000_000)
    ensures Compare(Pad(s), Pad(t)) == CompareNumbers(Numbers(s), Numbers(t))
    decreases |s|
  {
    if s != "" {
      assert t != "";
      assert Skeleton(s)[0] == Skeleton(t)[0];
      if IsDigit(s[0]) {
        var j, k := RunLength(s), RunLength(t);
        var m, n := Value(s[..j]), Value(t[..k]);
        TailSmall(s);
        TailSmall(t);
        assert Skeleton(s)[1..] == Skeleton(s[j..]) && Skeleton(t)[1..] == Skeleton(t[k..]);
        PadOrder(s[j..], t[k..]);
        ComparePadded(m, n, Pad(s[j..]), Pad(t[k..]));
        assert Numbers(s)[1..] == Numbers(s[j..]) && Numbers(t)[1..] == Numbers(t[k..]);
      } else {
        assert Skeleton(s)[1..] == Skeleton(s[1..]) && Skeleton(t)[1..] == Skeleton(t[1..]);
        PadOrder(s[1..], t[1..]);
        CompareAfter([s[0]], Pad(s[1..]), Pad(t[1..]));
      }
    }
  }

  lemma TailSmall(s: string)
    requires s != "" && IsDigit(s[0]) && Small(Numbers(s), 1_000_000)
    ensures Value(s[..RunLength(s)]) < 1_000_000 && Small(Numbers(s[RunLength(s)..]), 1_000_000)
  {
    assert Numbers(s)[0] == Value(s[..RunLength(s)]);
    assert Numbers(s)[1..] == Numbers(s[RunLength(s)..]);
  }

  lemma {:induction false} SkeletonPrefix(s: string, p: string)
    requires NoDigits(p)
    ensures HasPrefix(Skeleton(s), p) <==> HasPrefix(s, p)
    ensures HasPrefix(s, p) ==> Skeleton(s)[|p|..] == Skeleton(s[|p|..]) && Numbers(s) == Numbers(s[|p|..])
    decreases |p|
  {
    if p == "" {
      assert s[0..] == s;
    } else if s != "" && !IsDigit(s[0]) {
      SkeletonPrefix(s[1..], p[1..]);
      assert HasPrefix(s, p) <==> s[0] == p[0] && HasPrefix(s[1..], p[1..]);
      assert Skeleton(s)[1..] == Skeleton(s[1..]);
      assert HasPrefix(Skeleton(s), p) <==> Skeleton(s)[0] == p[0] && HasPrefix(Skeleton(s)[1..], p[1..]);
      if HasPrefix(s, p) {
        assert s[1..][|p| - 1..] == s[|p|..];
      }
    } else {
      PrefixHead(s, p);
      PrefixHead(Skeleton(s), p);
    }
  }

  lemma PrefixHead(t: string, p: string)
    requires p != ""
    ensures HasPrefix(t, p) ==> t != "" && t[0] == p[0]
  {
  }

  /** Stripping the article changes neither the numbers nor what else two titles share. */
  lemma StripKeeps(s: string)
    ensures Numbers(Strip(s)) == Numbers(s) && Skeleton(Strip(s)) == Strip(Skeleton(s))
  {
    ArticlesHaveNoDigits();
    SkeletonPrefix(s, "The ");
    SkeletonPrefix(s, "A ");
    SkeletonPrefix(s, "An ");
  }

  /** Titles that agree outside their numbers, all below a bound, sort by those numbers. */
  ghost predicate NaturalBelow(bound: nat) {
    forall s, t :: Skeleton(s) == Skeleton(t) && Small(Numbers(s), bound) && Small(Numbers(t), bound) ==>
      Compare(Of(s), Of(t)) == CompareNumbers(Numbers(s), Numbers(t))
  }

  lemma NaturalOrder(s: string, t: string)
    requires Skeleton(s) == Skeleton(t)
    requires Small(Numbers(s), 1_000_000) && Small(Numbers(t), 1_000_000)
    ensures Compare(Of(s), Of(t)) == CompareNumbers(Numbers(s), Numbers(t))
  {
    StripKeeps(s);
    StripKeeps(t);
    PadOrder(Strip(s), Strip(t));
  }

  /** A million is the exact bound: seven digits against six already sort wrongly. */
  lemma NaturalUpToAMillion(bound: nat)
    ensures NaturalBelow(bound) <==> bound <= 1_000_000
  {
    hide Padded, Of, Skeleton, Numbers, Compare;
    if bound <= 1_000_000 {
      forall s, t | Skeleton(s) == Skeleton(t) && Small(Numbers(s), bound) && Small(Numbers(t), bound)
        ensures Compare(Of(s), Of(t)) == CompareNumbers(Numbers(s), Numbers(t))
      {
        NaturalOrder(s, t);
      }
    } else {
      var s, t := Padded(200_000, 6), Padded(1_000_000, 6);
      OneNumber(200_000);
      OneNumber(1_000_000);
      SixAgainstSeven();
      assert Small(Numbers(s), bound) && Small(Numbers(t), bound);
    }
  }

  lemma OneNumber(n: nat)
    requires n <= MaxInt
    ensures var s := Padded(n, 6); Skeleton(s) == "0" && Numbers(s) == [n] && Of(s) == s
  {
    hide Padded, Value;
    var s := Padded(n, 6);
    assert s + "" == s;
    RunOf(s, "");
    PadOfRun(s, "");
    assert s[..|s|] == s && s[|s|..] == "";
  }

  lemma FirstDigit(n: nat)
    requires n >= 10
    ensures Digits(n)[0] == Digits(n / 10)[0]
  {
  }

  lemma HundredThousand()
    ensures Pow10(5) == 100_000
  {
    assert Pow10(2) == 100;
    assert Pow10(5) == 1000 * Pow10(2);
  }

  lemma SixDigits(n: nat)
    requires n >= 100_000
    ensures Padded(n, 6) == Digits(n) && Digits(n)[0] == Digits(n / 100_000)[0]
  {
    hide Digits, Pow10;
    HundredThousand();
    DigitsLength(n, 5);
    assert n / 10 / 10 == n / 100 && n / 100 / 10 == n / 1000;
    assert n / 1000 / 10 == n / 10_000 && n / 10_000 / 10 == n / 100_000;
    FirstDigit(n);
    FirstDigit(n / 10);
    FirstDigit(n / 100);
    FirstDigit(n / 1000);
    FirstDigit(n / 10_000);
  }

  lemma SixAgainstSeven()
    ensures Compare(Padded(200_000, 6), Padded(1_000_000, 6)) == 1
  {
    hide Digits, Padded;
    SixDigits(200_000);
    SixDigits(1_000_000);
    OneDigit(2);
    OneDigit(10);
  }

  lemma OneDigit(n: nat)
    requires n < 100
    ensures Digits(n)[0] == DigitChar(if n < 10 then n else n / 10)
  {
  }

  /* ---- what a sort title says ---- */

  lemma RunFirst(run: string, rest: string)
    requires AllDigits(run) && run != "" && EndsRun(rest)
    ensures Numbers(run + rest) == [Value(run)] + Numbers(rest)
    ensures Skeleton(run + rest) == "0" + Skeleton(rest)
  {
    RunOf(run, rest);
    assert (run + rest)[..|run|] == run && (run + rest)[|run|..] == rest;
  }

  lemma OtherFirst(c: char, rest: string)
    requires !IsDigit(c)
    ensures Numbers([c] + rest) == Numbers(rest) && Skeleton([c] + rest) == [c] + Skeleton(rest)
    ensures Pad([c] + rest) == [c] + Pad(rest)
  {
    assert ([c] + rest)[1..] == rest;
  }

  /** Numbers from 2^63 on become 2^63 - 1. */
  function Capped(numbers: seq<nat>): seq<nat> {
    seq(|numbers|, i requires 0 <= i < |numbers| =>
      if numbers[i] <= 9_223_372_036_854_775_807 then numbers[i] else 9_223_372_036_854_775_807)
  }

  lemma CappedFirst(n: nat, more: seq<nat>)
    ensures Capped([n] + more)
         == [if n <= 9_223_372_036_854_775_807 then n else 9_223_372_036_854_775_807] + Capped(more)
  {
  }

  lemma RunValue(run: string)
    requires AllDigits(run)
    ensures AllDigits(PadRun(run)) && PadRun(run) != ""
    ensures Value(PadRun(run))
         == if Value(run) <= 9_223_372_036_854_775_807 then Value(run) else 9_223_372_036_854_775_807
  {
    hide Padded, Value;
  }

  /** Padding changes a title nowhere but in its numbers, and these only by capping them. */
  lemma {:induction false} PadKeeps(s: string)
    ensures Numbers(Pad(s)) == Capped(Numbers(s)) && Skeleton(Pad(s)) == Skeleton(s)
    decreases |s|
  {
    hide PadRun, Value, Capped, Numbers, Skeleton, Pad, RunLength;
    if s == "" {
      NothingToPad();
    } else if IsDigit(s[0]) {
      var k := RunLength(s);
      assert k > 0;
      var run, rest := s[..k], s[k..];
      assert s == run + rest;
      RunFirst(run, rest);
      PadKeeps(rest);
      PadKeepsEnds(rest);
      RunValue(run);
      RunFirst(PadRun(run), Pad(rest));
      PadOfRun(run, rest);
      CappedFirst(Value(run), Numbers(rest));
    } else {
      assert s == [s[0]] + s[1..];
      PadKeeps(s[1..]);
      OtherFirst(s[0], s[1..]);
      OtherFirst(s[0], Pad(s[1..]));
    }
  }

  lemma NothingToPad()
    ensures Pad("") == "" && Numbers("") == [] && Capped([]) == []
  {
  }

  /** A sort title has the numbers of its title, in order, capped at the largest 64-bit integer. */
  lemma NumbersAreKept(title: string)
    ensures Numbers(Of(title)) == Capped(Numbers(title))
    ensures (forall n :: n in Numbers(title) ==> n < 0x8000_0000_0000_0000) ==> Numbers(Of(title)) == Numbers(title)
  {
    StripKeeps(title);
    PadKeeps(Strip(title));
    if forall n :: n in Numbers(title) ==> n < 0x8000_0000_0000_0000 {
      assert forall i :: 0 <= i < |Numbers(title)| ==> Numbers(title)[i] in Numbers(title);
      assert Capped(Numbers(title)) == Numbers(title);
    }
  }

  lemma DropThree(rest: string)
    ensures Strip("The " + rest) == rest && Strip("A " + rest) == rest && Strip("An " + rest) == rest
  {
    var t, a, n := "The " + rest, "A " + rest, "An " + rest;
    assert t[4..] == rest && a[2..] == rest && n[3..] == rest;
    assert "The " <= t && "A " <= a && "An " <= n;
    assert a[0] == 'A' && n[0] == 'A' && n[1] == 'n';
  }

  /** The article The, A or An goes with its space, once, and what is left is padded. */
  lemma ArticleIsDropped(rest: string)
    ensures Of("The " + rest) == Pad(rest) && Of("A " + rest) == Pad(rest) && Of("An " + rest) == Pad(rest)
    ensures !("The " <= rest) && !("A " <= rest) && !("An " <= rest) ==> Of(rest) == Pad(rest)
  {
    hide Pad;
    DropThree(rest);
  }

  /** A number is printed in at least six digits, and with zeros in front only to make six. */
  lemma RunIsPadded(run: string)
    requires AllDigits(run) && run != ""
    ensures AllDigits(PadRun(run)) && |PadRun(run)| >= 6
    ensures |PadRun(run)| > 6 ==> PadRun(run)[0] != '0'
    ensures Pad(run) == PadRun(run)
  {
    PadOfRun(run, "");
    assert run + "" == run;
  }
}
