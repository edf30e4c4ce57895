/**
 Content streams (ISO 32000-1:2008, section 7.8.2): a reader that takes the drawing of one image, and
 only that, from the commands of a page. Operands come before their operator; the operators it knows
 are q and Q (8.4.4), cm (8.4.4) and Do (8.8).
 */
module PdfContent {
  import opened Wrappers
  import opened Decimal
  import opened PdfSyntax

  datatype Token = Number(n: int) | Named(name: string) | Operator(word: string)

  /** A coordinate transformation: (x, y) goes to (a x + c y + e, b x + d y + f), as in section 8.3.3. */
  datatype Matrix = Matrix(a: int, b: int, c: int, d: int, e: int, f: int)

  /** The unit square of the named image, placed by a matrix. */
  datatype Drawing = Drawing(matrix: Matrix, image: string)

  /** One token at the front of s, and what follows it. */
  function ReadToken(s: string): (r: Option<(Token, string)>)
    requires s != "" && !IsSpace(s[0])
    ensures r.Some? ==> |r.value.1| < |s|
  {
    if s[0] == '/' then
      var (name, rest) := ParseName(s[1..]);
      Some((Named(name), rest))
    else if s[0] == '-' then
      match ParseNat(s[1..])
      case None => None
      case Some((n, rest)) => Some((Number(0 - n), rest))
    else if IsDigit(s[0]) then
      match ParseNat(s)
      case None => None
      case Some((n, rest)) => Some((Number(n), rest))
    else
      var (word, rest) := ParseName(s);
      if word == "" then None else Some((Operator(word), rest))
  }

  function ReadTokens(s0: string): Option<seq<Token>>
    decreases |s0|
  {
    var s := SkipSpace(s0);
    if s == "" then Some([]) else
    match ReadToken(s)
    case None => None
    case Some((t, rest)) =>
      match ReadTokens(rest)
      case None => None
      case Some(ts) => Some([t] + ts)
  }

  /** The operands of cm: six numbers. */
  function ReadMatrix(ts: seq<Token>): Option<Matrix>
    requires |ts| == 6
  {
    if forall i :: 0 <= i < 6 ==> ts[i].Number?
    then Some(Matrix(ts[0].n, ts[1].n, ts[2].n, ts[3].n, ts[4].n, ts[5].n))
    else None
  }

  /** q a b c d e f cm /name Do Q */
  function ReadDrawing(content: string): Option<Drawing> {
    match ReadTokens(content)
    case None => None
    case Some(ts) =>
      if && |ts| == 11
         && ts[0] == Operator("q") && ts[7] == Operator("cm") && ts[8].Named?
         && ts[9] == Operator("Do") && ts[10] == Operator("Q")
      then
        match ReadMatrix(ts[1..7])
        case None => None
        case Some(m) => Some(Drawing(m, ts[8].name))
      else None
  }

  /* ---- what is written token by token reads back ---- */

  function TokenText(t: Token): string {
    match t
    case Number(n) => IntText(n)
    case Named(name) => "/" + name
    case Operator(word) => word
  }

  function TokensText(ts: seq<Token>): string {
    if ts == [] then ""
    else if |ts| == 1 then TokenText(ts[0])
    else TokenText(ts[0]) + (" " + TokensText(ts[1..]))
  }

  predicate Plain(t: Token) {
    match t
    case Number(_) => true
    case Named(name) => forall i :: 0 <= i < |name| ==> IsRegular(name[i])
    case Operator(word) =>
      && word != "" && word[0] != '-' && !IsDigit(word[0])
      && forall i :: 0 <= i < |word| ==> IsRegular(word[i])
  }

  lemma NumberReadsBack(n: int, rest: string)
    requires rest == "" || rest[0] == ' '
    ensures var s := IntText(n) + rest;
            s != "" && !IsSpace(s[0]) && ReadToken(s) == Some((Number(n), rest))
  {
    hide Digits, ParseNat;
    var s := IntText(n) + rest;
    if n < 0 {
      NatReadsBack(-n, rest);
      assert s[1..] == Digits(-n) + rest;
    } else {
      NatReadsBack(n, rest);
      assert IsDigit(Digits(n)[0]) && s[0] == Digits(n)[0];
    }
  }

  lemma NamedReadsBack(name: string, rest: string)
    requires forall i :: 0 <= i < |name| ==> IsRegular(name[i])
    requires rest == "" || rest[0] == ' '
    ensures ReadToken("/" + name + rest) == Some((Named(name), rest))
  {
    SpanIs(name, rest, Regular);
    hide Span;
    assert ("/" + name + rest)[1..] == name + rest;
  }

  lemma OperatorReadsBack(word: string, rest: string)
    requires Plain(Operator(word)) && (rest == "" || rest[0] == ' ')
    ensures var s := word + rest;
            s != "" && !IsSpace(s[0]) && ReadToken(s) == Some((Operator(word), rest))
  {
    SpanIs(word, rest, Regular);
    hide Span, ParseNat;
    assert IsRegular(word[0]);
  }

  lemma TokenReadsBack(t: Token, rest: string)
    requires Plain(t) && (rest == "" || rest[0] == ' ')
    ensures var s := TokenText(t) + rest;
            s != "" && !IsSpace(s[0]) && ReadToken(s) == Some((t, rest))
  {
    hide ReadToken, IntText;
    match t
    case Number(n) => NumberReadsBack(n, rest);
    case Named(name) => NamedReadsBack(name, rest);
    case Operator(word) => OperatorReadsBack(word, rest);
  }

  lemma {:induction false} TokensReadBack(ts: seq<Token>)
    requires forall i :: 0 <= i < |ts| ==> Plain(ts[i])
    ensures ReadTokens(TokensText(ts)) == Some(ts)
    ensures ReadTokens(" " + TokensText(ts)) == Some(ts)
    decreases |ts|
  {
    hide ReadToken, TokenText, Plain;
    if ts == [] {
      SkipNone("");
      SkipOne("");
    } else {
      var more := ts[1..];
      var rest := if more == [] then "" else " " + TokensText(more);
      TokenReadsBack(ts[0], rest);
      var s := TokenText(ts[0]) + rest;
      assert TokensText(ts) == s by {
        assert TokenText(ts[0]) + "" == TokenText(ts[0]);
      }
      TokensReadBack(more);
      if more == [] { assert TokensText(more) == ""; }
      SkipNone(s);
      SkipOne(s);
      assert [ts[0]] + more == ts;
    }
  }
}
