/**
 PDF values (ISO 32000-1:2008, section 7.3): how the exporter writes them and how a reader
 parses them. The parser is the reader's own definition: it skips white space, reads
 delimiters and tells "n g R" references from plain integers by looking ahead.
 */
module PdfSyntax {
  import opened Wrappers
  import opened Decimal

  datatype Val =
    | Name(name: string)
    | Int(n: int)
    | Ref(num: nat, gen: nat)
    | Arr(items: Vals)
    | Dict(entries: Entries)

  datatype Vals = NoVals | Vals(head: Val, tail: Vals)

  datatype Entries = NoEntries | Entry(key: string, val: Val, rest: Entries)

  /* ---- writing ---- */

  function Print(v: Val): string {
    match v
    case Name(s) => "/" + s
    case Int(n) => IntText(n)
    case Ref(num, gen) => Digits(num) + " " + Digits(gen) + " R"
    case Arr(items) => "[" + PrintItems(items) + "]"
    case Dict(entries) => "<<" + PrintEntries(entries) + " >>"
  }

  function PrintItems(vs: Vals): string {
    match vs
    case NoVals => ""
    case Vals(v, NoVals) => Print(v)
    case Vals(v, more) => Print(v) + " " + PrintItems(more)
  }

  function PrintEntries(es: Entries): string {
    match es
    case NoEntries => ""
    case Entry(k, v, more) => " /" + k + " " + Print(v) + PrintEntries(more)
  }

  /* ---- reading ---- */

  predicate IsSpace(c: char) {
    c == ' ' || c == '\n' || c == '\r' || c == '\t'
  }

  predicate IsDelimiter(c: char) {
    || c == '(' || c == ')' || c == '<' || c == '>' || c == '[' || c == ']'
    || c == '{' || c == '}' || c == '/' || c == '%'
  }

  predicate IsRegular(c: char) {
    !IsSpace(c) && !IsDelimiter(c)
  }

  datatype Class = Space | Digit | Regular

  predicate In(c: char, k: Class) {
    match k
    case Space => IsSpace(c)
    case Digit => IsDigit(c)
    case Regular => IsRegular(c)
  }

  /** Length of the longest prefix of s whose characters are all of one class. */
  function Span(s: string, p: Class): (k: nat)
    ensures k <= |s|
    ensures forall i :: 0 <= i < k ==> In(s[i], p)
    ensures k < |s| ==> !In(s[k], p)
  {
    if s == "" || !In(s[0], p) then 0 else 1 + Span(s[1..], p)
  }

  function SkipSpace(s: string): (r: string)
    ensures |r| <= |s|
  {
    s[Span(s, Space)..]
  }

  /** A natural number at the front of s, and what follows it. */
  function ParseNat(s: string): (r: Option<(nat, string)>)
    ensures r.Some? ==> |r.value.1| < |s|
  {
    var k := Span(s, Digit);
    if k == 0 then None else Some((Value(s[..k]), s[k..]))
  }

  /** After an integer: " g R" with white space between, as in a reference; yields g and the rest. */
  function ParseRefTail(s: string): (r: Option<(nat, string)>)
    ensures r.Some? ==> |r.value.1| < |s|
  {
    if Span(s, Space) == 0 then None else
    match ParseNat(SkipSpace(s))
    case None => None
    case Some((g, s1)) =>
      if Span(s1, Space) == 0 then None else
      var s2 := SkipSpace(s1);
      if |s2| > 0 && s2[0] == 'R' then Some((g, s2[1..])) else None
  }

  function ParseNumber(s: string): (r: Option<(Val, string)>)
    ensures r.Some? ==> |r.value.1| < |s|
  {
    if |s| > 0 && s[0] == '-' then
      match ParseNat(s[1..])
      case None => None
      case Some((n, rest)) => Some((Int(0 - n), rest))
    else
      match ParseNat(s)
      case None => None
      case Some((n, rest)) =>
        match ParseRefTail(rest)
        case Some((g, rest')) => Some((Ref(n, g), rest'))
        case None => Some((Int(n), rest))
  }

  function ParseName(s: string): (string, string) {
    var k := Span(s, Regular);
    (s[..k], s[k..])
  }

  function ParseVal(s0: string): (r: Option<(Val, string)>)
    ensures r.Some? ==> |r.value.1| < |s0|
    decreases |s0|, 0
  {
    var s := SkipSpace(s0);
    if s == "" then None
    else if s[0] == '/' then
      var (name, rest) := ParseName(s[1..]);
      Some((Name(name), rest))
    else if s[0] == '[' then
      (match ParseItems(s[1..])
       case None => None
       case Some((vs, rest)) => Some((Arr(vs), rest)))
    else if |s| >= 2 && s[0] == '<' && s[1] == '<' then
      (match ParseEntries(s[2..])
       case None => None
       case Some((es, rest)) => Some((Dict(es), rest)))
    else
      ParseNumber(s)
  }

  function ParseItems(s0: string): (r: Option<(Vals, string)>)
    ensures r.Some? ==> |r.value.1| < |s0|
    decreases |s0|, 1
  {
    var s := SkipSpace(s0);
    if s == "" then None
    else if s[0] == ']' then Some((NoVals, s[1..]))
    else
      match ParseVal(s)
      case None => None
      case Some((v, s1)) =>
        match ParseItems(s1)
        case None => None
        case Some((vs, rest)) => Some((Vals(v, vs), rest))
  }

  function ParseEntries(s0: string): (r: Option<(Entries, string)>)
    ensures r.Some? ==> |r.value.1| < |s0|
    decreases |s0|, 1
  {
    var s := SkipSpace(s0);
    if |s| >= 2 && s[0] == '>' && s[1] == '>' then Some((NoEntries, s[2..]))
    else if |s| >= 1 && s[0] == '/' then
      var (key, s1) := ParseName(s[1..]);
      match ParseVal(s1)
      case None => None
      case Some((v, s2)) =>
        match ParseEntries(s2)
        case None => None
        case Some((es, rest)) => Some((Entry(key, v, es), rest))
    else None
  }

  function Lookup(es: Entries, key: string): Option<Val> {
    match es
    case NoEntries => None
    case Entry(k, v, more) => if k == key then Some(v) else Lookup(more, key)
  }

  /* ---- reading back what was written ---- */

  ghost predicate WellFormed(v: Val) {
    match v
    case Name(s) => forall i :: 0 <= i < |s| ==> IsRegular(s[i])
    case Arr(items) => WellFormedItems(items)
    case Dict(entries) => WellFormedEntries(entries)
    case _ => true
  }

  ghost predicate WellFormedItems(vs: Vals) {
    vs.Vals? ==> WellFormed(vs.head) && WellFormedItems(vs.tail)
  }

  ghost predicate WellFormedEntries(es: Entries) {
    es.Entry? ==>
      && (forall i :: 0 <= i < |es.key| ==> IsRegular(es.key[i]))
      && WellFormed(es.val)
      && WellFormedEntries(es.rest)
  }

  /** The text after a value ends it: nothing, white space or a delimiter. */
  ghost predicate Ends(t: string) {
    t == "" || !IsRegular(t[0])
  }

  lemma {:induction false} SpanIs(s: string, t: string, p: Class)
    requires forall i :: 0 <= i < |s| ==> In(s[i], p)
    requires t == "" || !In(t[0], p)
    ensures Span(s + t, p) == |s|
    ensures (s + t)[..|s|] == s && (s + t)[|s|..] == t
  {
    if s == "" {
      assert s + t == t;
    } else {
      SpanIs(s[1..], t, p);
      assert (s + t)[1..] == s[1..] + t;
    }
  }

  lemma NatReadsBack(n: nat, t: string)
    requires t == "" || !IsDigit(t[0])
    ensures ParseNat(Digits(n) + t) == Some((n, t))
  {
    SpanIs(Digits(n), t, Digit);
  }

  lemma NoNat(t: string)
    requires t == "" || !IsDigit(t[0])
    ensures ParseNat(t) == None
  {
  }

  lemma SkipNone(s: string)
    requires s == "" || !IsSpace(s[0])
    ensures SkipSpace(s) == s && Span(s, Space) == 0
  {
  }

  lemma SkipOne(s: string)
    requires s == "" || !IsSpace(s[0])
    ensures SkipSpace(" " + s) == s && Span(" " + s, Space) == 1
  {
    SpanIs(" ", s, Space);
  }

  /** A reference tail needs white space, a number, white space and an 'R'. */
  lemma RefTailOf(g: nat, t: string)
    ensures ParseRefTail(" " + (Digits(g) + (" " + ("R" + t)))) == Some((g, t))
  {
    var u := " " + ("R" + t);
    assert IsDigit(Digits(g)[0]);
    SkipOne(Digits(g) + u);
    NatReadsBack(g, u);
    SkipOne("R" + t);
    assert ("R" + t)[1..] == t;
  }

  lemma NoTailWithoutSpace(t: string)
    requires t == "" || !IsSpace(t[0])
    ensures ParseRefTail(t) == None
  {
  }

  lemma NoTailWithoutNumber(t: string)
    requires t == "" || (!IsSpace(t[0]) && !IsDigit(t[0]))
    ensures ParseRefTail(" " + t) == None
  {
    SkipOne(t);
    NoNat(t);
  }

  lemma NoTailWithoutR(g: nat, t: string)
    requires t == "" || !IsDigit(t[0])
    requires Span(t, Space) == 0 || SkipSpace(t) == "" || SkipSpace(t)[0] != 'R'
    ensures ParseRefTail(" " + (Digits(g) + t)) == None
  {
    assert IsDigit(Digits(g)[0]);
    SkipOne(Digits(g) + t);
    NatReadsBack(g, t);
  }

  /** A written value starts with a character that is neither white space, 'R', ']' nor '>'. */
  lemma FirstChar(v: Val)
    ensures |Print(v)| >= 1
    ensures !IsSpace(Print(v)[0]) && Print(v)[0] != 'R' && Print(v)[0] != ']' && Print(v)[0] != '>'
    ensures !v.Ref? && (v.Int? ==> v.n < 0) ==> !IsDigit(Print(v)[0])
  {
    match v
    case Int(n) => if n >= 0 { assert IsDigit(Digits(n)[0]); }
    case Ref(n, g) => assert Print(v)[0] == Digits(n)[0] && IsDigit(Digits(n)[0]);
    case _ =>
  }

  /** In an array, what follows a value: the closing bracket, or a space and another value. */
  ghost predicate NextItem(t: string) {
    && t != ""
    && (t[0] == ']' || (t[0] == ' ' && |t| >= 2 && !IsSpace(t[1]) && t[1] != 'R'))
  }

  /** A value followed by another one is not misread as the tail of a reference. */
  lemma NoRefTail(v: Val, t: string)
    requires NextItem(t)
    ensures ParseRefTail(" " + (Print(v) + t)) == None
  {
    FirstChar(v);
    if v.Ref? {
      var u := " " + (Digits(v.gen) + (" R" + t));
      assert Print(v) + t == Digits(v.num) + u;
      assert IsDigit(Digits(v.gen)[0]);
      SkipOne(Digits(v.gen) + (" R" + t));
      NoTailWithoutR(v.num, u);
    } else if v.Int? && v.n >= 0 {
      if t[0] == ' ' {
        assert t == " " + t[1..];
        SkipOne(t[1..]);
      }
      NoTailWithoutR(v.n, t);
    } else {
      NoTailWithoutNumber(Print(v) + t);
    }
  }

  /** Text that opens neither a name, an array nor a dictionary is read as a number. */
  lemma ReadsAsNumber(s: string)
    requires s != "" && (IsDigit(s[0]) || s[0] == '-')
    ensures ParseVal(s) == ParseNumber(s)
  {
    SkipNone(s);
  }

  lemma IntReadsBack(n: int, t: string)
    requires Ends(t) && ParseRefTail(t) == None
    ensures ParseNumber(IntText(n) + t) == Some((Int(n), t))
  {
    if n < 0 {
      NegativeReadsBack(-n, t);
      Bracketed("", "-", Digits(-n), t);
      assert IntText(n) + t == "-" + (Digits(-n) + t);
    } else {
      PositiveReadsBack(n, t);
    }
  }

  lemma PositiveReadsBack(n: nat, t: string)
    requires t == "" || !IsDigit(t[0])
    requires ParseRefTail(t) == None
    ensures ParseNumber(Digits(n) + t) == Some((Int(n), t))
  {
    NatReadsBack(n, t);
    assert IsDigit((Digits(n) + t)[0]);
  }

  lemma NegativeReadsBack(n: nat, t: string)
    requires t == "" || !IsDigit(t[0])
    ensures ParseNumber("-" + (Digits(n) + t)) == Some((Int(0 - n), t))
  {
    NatReadsBack(n, t);
    assert ("-" + (Digits(n) + t))[1..] == Digits(n) + t;
  }

  lemma RefText(n: string, g: string, t: string)
    ensures n + " " + g + " R" + t == n + (" " + (g + (" " + ("R" + t))))
  {
  }

  lemma RefReadsBack(n: nat, g: nat, t: string)
    ensures ParseNumber(Digits(n) + (" " + (Digits(g) + (" " + ("R" + t))))) == Some((Ref(n, g), t))
  {
    var u := " " + (Digits(g) + (" " + ("R" + t)));
    assert IsDigit((Digits(n) + u)[0]);
    NatReadsBack(n, u);
    RefTailOf(g, t);
  }

  lemma NameReadsBack(name: string, t: string)
    requires Ends(t) && forall i :: 0 <= i < |name| ==> IsRegular(name[i])
    ensures ParseVal("/" + (name + t)) == Some((Name(name), t))
  {
    SpanIs(name, t, Regular);
    OpensName(name + t);
  }

  lemma OpensName(s: string)
    ensures ParseVal("/" + s) == var (name, rest) := ParseName(s); Some((Name(name), rest))
  {
    SkipNone("/" + s);
    assert ("/" + s)[1..] == s;
  }

  lemma OpensArray(s: string, vs: Vals, rest: string)
    requires ParseItems(s) == Some((vs, rest))
    ensures ParseVal("[" + s) == Some((Arr(vs), rest))
  {
    var u := "[" + s;
    assert u[0] == '[' && u[1..] == s;
    SkipNone(u);
  }

  lemma OpensDict(s: string, es: Entries, rest: string)
    requires ParseEntries(s) == Some((es, rest))
    ensures ParseVal("<<" + s) == Some((Dict(es), rest))
  {
    var u := "<<" + s;
    assert u[0] == '<' && u[1] == '<' && u[2..] == s;
    SkipNone(u);
  }

  /** Reading a written value gives it back, and leaves what follows it unread. */
  lemma {:induction false} ValReadsBack(v: Val, t: string)
    requires WellFormed(v) && Ends(t)
    requires v.Int? ==> ParseRefTail(t) == None
    ensures ParseVal(Print(v) + t) == Some((v, t))
    decreases v, 1
  {
    match v
    case Name(name) =>
      NameReadsBack(name, t);
      assert "/" + name + t == "/" + (name + t);
    case Int(n) =>
      FirstChar(v);
      IntReadsBack(n, t);
      ReadsAsNumber(IntText(n) + t);
    case Ref(n, g) =>
      RefReadsBack(n, g, t);
      RefText(Digits(n), Digits(g), t);
      assert IsDigit(Digits(n)[0]);
      ReadsAsNumber(Digits(n) + (" " + (Digits(g) + (" " + ("R" + t)))));
    case Arr(items) =>
      ArrReadsBack(items, t);
    case Dict(entries) =>
      DictReadsBack(entries, t);
  }

  lemma Bracketed(open: string, s: string, close: string, t: string)
    ensures open + s + close + t == open + (s + (close + t))
  {
  }

  lemma ArrReadsBack(items: Vals, t: string)
    requires WellFormedItems(items)
    ensures ParseVal("[" + PrintItems(items) + "]" + t) == Some((Arr(items), t))
    decreases items, 1
  {
    Bracketed("[", PrintItems(items), "]", t);
    ItemsReadBack(items, t);
    OpensArray(PrintItems(items) + ("]" + t), items, t);
  }

  lemma DictReadsBack(entries: Entries, t: string)
    requires WellFormedEntries(entries)
    ensures ParseVal("<<" + PrintEntries(entries) + " >>" + t) == Some((Dict(entries), t))
    decreases entries, 1
  {
    Bracketed("<<", PrintEntries(entries), " >>", t);
    EntriesReadBack(entries, t);
    OpensDict(PrintEntries(entries) + (" >>" + t), entries, t);
  }

  lemma {:induction false} ItemsReadBack(vs: Vals, t: string)
    requires WellFormedItems(vs)
    ensures ParseItems(PrintItems(vs) + ("]" + t)) == Some((vs, t))
    decreases vs, 0
  {
    var closing := "]" + t;
    assert closing[1..] == t;
    SkipNone(closing);
    match vs
    case NoVals =>
      assert PrintItems(vs) + closing == closing;
    case Vals(v, NoVals) =>
      NoTailWithoutSpace(closing);
      ValReadsBack(v, closing);
      assert ParseItems(closing) == Some((NoVals, t));
      FirstChar(v);
      OneItem(v, Print(v) + closing, NoVals, closing, t);
    case Vals(v, more) =>
      MoreItems(more, t);
      var rest := PrintItems(more) + closing;
      ValReadsBack(v, " " + rest);
      ItemsReadBack(more, t);
      ItemsAfterSpace(rest);
      FirstChar(v);
      OneItem(v, Print(v) + (" " + rest), more, " " + rest, t);
      ItemsText(Print(v), PrintItems(more), closing);
  }

  lemma ItemsText(v: string, more: string, closing: string)
    ensures v + " " + more + closing == v + (" " + (more + closing))
  {
  }

  lemma ItemsAfterSpace(s: string)
    requires s != "" && !IsSpace(s[0])
    ensures ParseItems(" " + s) == ParseItems(s)
  {
    SkipOne(s);
    SkipNone(s);
  }

  lemma OneItem(v: Val, s: string, more: Vals, after: string, t: string)
    requires s != "" && !IsSpace(s[0]) && s[0] != ']'
    requires ParseVal(s) == Some((v, after))
    requires ParseItems(after) == Some((more, t))
    ensures ParseItems(s) == Some((Vals(v, more), t))
  {
    SkipNone(s);
  }

  /** The remaining items of an array start with a value and are no reference tail. */
  lemma MoreItems(vs: Vals, t: string)
    requires vs.Vals?
    ensures var s := PrintItems(vs) + ("]" + t);
            |s| > 0 && !IsSpace(s[0]) && ParseRefTail(" " + s) == None
  {
    FirstChar(vs.head);
    var s := PrintItems(vs) + ("]" + t);
    if vs.tail.NoVals? {
      NoRefTail(vs.head, "]" + t);
    } else {
      FirstChar(vs.tail.head);
      var w := " " + (PrintItems(vs.tail) + ("]" + t));
      assert PrintItems(vs.tail)[0] == Print(vs.tail.head)[0];
      ItemsText(Print(vs.head), PrintItems(vs.tail), "]" + t);
      NoRefTail(vs.head, w);
    }
  }

  lemma {:induction false} EntriesReadBack(es: Entries, t: string)
    requires WellFormedEntries(es)
    ensures ParseEntries(PrintEntries(es) + (" >>" + t)) == Some((es, t))
    decreases es, 0
  {
    match es
    case NoEntries =>
      assert PrintEntries(es) + (" >>" + t) == " " + (">>" + t);
      SkipOne(">>" + t);
      assert (">>" + t)[2..] == t;
    case Entry(k, v, more) =>
      var after := PrintEntries(more) + (" >>" + t);
      AfterValue(more, t);
      ValueAfterSpace(v, after);
      EntriesReadBack(more, t);
      OneEntry(k, v, " " + (Print(v) + after), more, after, t);
      EntryParts(k, Print(v), PrintEntries(more), " >>" + t);
  }

  lemma EntryParts(k: string, v: string, more: string, t: string)
    ensures " /" + k + " " + v + more + t == " /" + (k + (" " + (v + (more + t))))
  {
  }

  lemma ValueAfterSpace(v: Val, after: string)
    requires WellFormed(v) && Ends(after) && ParseRefTail(after) == None
    ensures ParseVal(" " + (Print(v) + after)) == Some((v, after))
    decreases v, 2
  {
    FirstChar(v);
    ValReadsBack(v, after);
    SkipOne(Print(v) + after);
    SkipNone(Print(v) + after);
  }

  lemma OneEntry(k: string, v: Val, u: string, more: Entries, after: string, t: string)
    requires forall i :: 0 <= i < |k| ==> IsRegular(k[i])
    requires u != "" && u[0] == ' '
    requires ParseVal(u) == Some((v, after))
    requires ParseEntries(after) == Some((more, t))
    ensures ParseEntries(" /" + (k + u)) == Some((Entry(k, v, more), t))
  {
    var s := "/" + (k + u);
    assert " /" + (k + u) == " " + s;
    SkipOne(s);
    assert s[1..] == k + u;
    SpanIs(k, u, Regular);
  }

  /** What follows an entry's value is white space and then '/' or '>', so no reference tail. */
  lemma AfterValue(es: Entries, t: string)
    ensures var after := PrintEntries(es) + (" >>" + t);
            Ends(after) && ParseRefTail(after) == None
  {
    var after := PrintEntries(es) + (" >>" + t);
    assert after[0] == ' ' && (after[1] == '/' || after[1] == '>');
    assert after == " " + after[1..];
    NoTailWithoutNumber(after[1..]);
  }
}
