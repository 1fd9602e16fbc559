/** Naming-series patterns: parsing and rendering in awo/naming/pattern.go. */
module NamingPattern {
  import opened Names
  import opened Decimal

  datatype Token = Literal(text: string) | YYYY | YY | MM | DD | YYYYMM | FY | ORG | SEQ(width: nat)

  datatype ParseError = Unclosed | UnknownPlaceholder(text: string)

  datatype Result<T> = Ok(value: T) | Err(error: ParseError)

  // ---------------------------------------------------------------------------
  // Parsing.

  predicate AllZeros(s: string)
  {
    s != "" && forall i :: 0 <= i < |s| ==> s[i] == '0'
  }

  /** A SEQ width: one or more digits denoting 1 to 20. */
  function WidthOf(s: string): Result<nat>
  {
    if s != "" && AllDigits(s) && 1 <= NumberOf(s) <= 20 then Ok(NumberOf(s)) else Err(UnknownPlaceholder(s))
  }

  method ParseWidth(s: string) returns (r: Result<nat>)
    ensures r == WidthOf(s)
  {
    if |s| == 0 { return Err(UnknownPlaceholder(s)); }
    var w := 0;
    for i := 0 to |s|
      invariant AllDigits(s[..i]) && w == NumberOf(s[..i])
    {
      if !IsDigit(s[i]) { return Err(UnknownPlaceholder(s)); }
      assert s[..i + 1][..i] == s[..i];
      w := w * 10 + DigitValue(s[i]);
    }
    assert s[..|s|] == s;
    if w < 1 || w > 20 { return Err(UnknownPlaceholder(s)); }
    r := Ok(w);
  }

  predicate HasPrefix(s: string, p: string)
  {
    p <= s
  }

  function Placeholder(s: string): Result<Token>
  {
    if s == "YYYY" then Ok(YYYY)
    else if s == "YY" then Ok(YY)
    else if s == "MM" then Ok(MM)
    else if s == "DD" then Ok(DD)
    else if s == "YYYYMM" then Ok(YYYYMM)
    else if s == "FY" then Ok(FY)
    else if s == "ORG" then Ok(ORG)
    else if HasPrefix(s, "SEQ:") then
      var w := WidthOf(s[4..]);
      if w.Ok? then Ok(SEQ(w.value)) else Err(UnknownPlaceholder(s))
    else if AllZeros(s) then Ok(SEQ(|s|))
    else Err(UnknownPlaceholder(s))
  }

  method ParsePlaceholder(s: string) returns (r: Result<Token>)
    ensures r == Placeholder(s)
    ensures r.Ok? ==> Denotes(s, r.value)
    ensures r.Err? ==> forall t :: !Denotes(s, t)
  {
    forall t ensures Placeholder(s) == Ok(t) <==> Denotes(s, t) { PlaceholderIff(s, t); }
    if s == "YYYY" { return Ok(YYYY); }
    if s == "YY" { return Ok(YY); }
    if s == "MM" { return Ok(MM); }
    if s == "DD" { return Ok(DD); }
    if s == "YYYYMM" { return Ok(YYYYMM); }
    if s == "FY" { return Ok(FY); }
    if s == "ORG" { return Ok(ORG); }
    if HasPrefix(s, "SEQ:") {
      var w := ParseWidth(s[4..]);
      if w.Err? { return Err(UnknownPlaceholder(s)); }
      return Ok(SEQ(w.value));
    }
    if AllZeros(s) { return Ok(SEQ(|s|)); }
    r := Err(UnknownPlaceholder(s));
  }

  function Prepend(ts: seq<Token>, r: Result<seq<Token>>): Result<seq<Token>>
  {
    if r.Ok? then Ok(ts + r.value) else r
  }

  /** The text up to and including the first placeholder, or all of it when there is none. */
  datatype Cut = Last(tokens: seq<Token>) | Malformed(error: ParseError) | More(tokens: seq<Token>, rest: string)

  function LiteralBefore(text: string): seq<Token>
  {
    if text == "" then [] else [Literal(text)]
  }

  function CutFirst(p: string): (c: Cut)
    ensures c.More? ==> |c.rest| < |p|
  {
    var open := Index(p, '{');
    if open < 0 then Last(LiteralBefore(p))
    else
      var rest := p[open..];
      var close := Index(rest, '}');
      if close < 0 then Malformed(Unclosed)
      else
        var t := Placeholder(rest[1..close]);
        if t.Err? then Malformed(t.error) else More(LiteralBefore(p[..open]) + [t.value], rest[close + 1..])
  }

  /** The token list of a pattern. */
  function Parse(p: string): (r: Result<seq<Token>>)
    decreases |p|
  {
    match CutFirst(p)
    case Last(ts) => Ok(ts)
    case Malformed(e) => Err(e)
    case More(ts, rest) => Prepend(ts, Parse(rest))
  }

  /** The body of ParsePattern's loop (pattern.go:58-81). */
  method TakeFirst(remaining: string) returns (c: Cut)
    ensures c == CutFirst(remaining)
  {
    var open := Index(remaining, '{');
    var tokens: seq<Token> := [];
    if open < 0 { return Last(if remaining == "" then [] else [Literal(remaining)]); }
    if open > 0 { tokens := tokens + [Literal(remaining[..open])]; }
    var rest := remaining[open..];
    var close := Index(rest, '}');
    if close < 0 { return Malformed(Unclosed); }
    var t := ParsePlaceholder(rest[1..close]);
    if t.Err? { return Malformed(t.error); }
    c := More(tokens + [t.value], rest[close + 1..]);
  }

  method ParsePattern(pattern: string) returns (r: Result<seq<Token>>)
    ensures r == Parse(pattern)
  {
    var tokens: seq<Token>, remaining := [], pattern;
    PrependNothing(Parse(pattern));
    while |remaining| > 0
      invariant Prepend(tokens, Parse(remaining)) == Parse(pattern)
      decreases |remaining|
    {
      var cut := TakeFirst(remaining);
      ParseCut(tokens, remaining);
      match cut
      case Last(ts) => return Ok(tokens + ts);
      case Malformed(e) => return Err(e);
      case More(ts, rest) => tokens, remaining := tokens + ts, rest;
    }
    ParseCut(tokens, remaining);
    assert tokens + [] == tokens;
    r := Ok(tokens);
  }

  lemma ParseCut(before: seq<Token>, p: string)
    ensures match CutFirst(p)
            case Last(ts) => Prepend(before, Parse(p)) == Ok(before + ts)
            case Malformed(e) => Prepend(before, Parse(p)) == Err(e)
            case More(ts, rest) => Prepend(before, Parse(p)) == Prepend(before + ts, Parse(rest))
  {
    var cut := CutFirst(p);
    if cut.More? { PrependTwice(before, cut.tokens, Parse(cut.rest)); }
  }

  lemma PrependNothing(r: Result<seq<Token>>)
    ensures Prepend([], r) == r
  {
    if r.Ok? { assert [] + r.value == r.value; }
  }

  lemma PrependTwice(a: seq<Token>, b: seq<Token>, r: Result<seq<Token>>)
    ensures Prepend(a, Prepend(b, r)) == Prepend(a + b, r)
  {
    if r.Ok? { assert a + (b + r.value) == a + b + r.value; }
  }

  // ---------------------------------------------------------------------------
  // Printing a token list back, and the lists that survive it.

  function Zeros(w: nat): string
  {
    seq(w, i => '0')
  }

  /** The text between the braces. */
  function Inner(t: Token): string
    requires !t.Literal?
  {
    match t
    case YYYY => "YYYY"
    case YY => "YY"
    case MM => "MM"
    case DD => "DD"
    case YYYYMM => "YYYYMM"
    case FY => "FY"
    case ORG => "ORG"
    case SEQ(w) => Zeros(w)
  }

  function Spell(t: Token): string
  {
    if t.Literal? then t.text else "{" + Inner(t) + "}"
  }

  function SpellAll(ts: seq<Token>): string
  {
    if ts == [] then "" else Spell(ts[0]) + SpellAll(ts[1..])
  }

  /** Literals are non-empty, free of opening braces and never adjacent; widths are positive. */
  ghost predicate Normal(ts: seq<Token>)
  {
    && (forall i :: 0 <= i < |ts| ==> (ts[i].Literal? ==> ts[i].text != "" && '{' !in ts[i].text) && (ts[i].SEQ? ==> ts[i].width >= 1))
    && (forall i :: 0 <= i < |ts| - 1 ==> !(ts[i].Literal? && ts[i + 1].Literal?))
  }

  lemma InnerParses(t: Token)
    requires !t.Literal? && (t.SEQ? ==> t.width >= 1)
    ensures Placeholder(Inner(t)) == Ok(t) && '}' !in Inner(t)
  {
    if t.SEQ? { assert Inner(t)[0] == '0'; }
  }

  /** A brace-free prefix, then a closed placeholder. */
  lemma CutRound(prefix: string, inner: string, more: string)
    requires '{' !in prefix && '}' !in inner && Placeholder(inner).Ok?
    ensures CutFirst(prefix + ['{'] + (inner + ['}'] + more)) == More(LiteralBefore(prefix) + [Placeholder(inner).value], more)
  {
    FirstAt(prefix, '{', inner + ['}'] + more);
    FirstAt("{" + inner, '}', more);
    RoundSlices(prefix, inner, more);
  }

  lemma RoundSlices(prefix: string, inner: string, more: string)
    ensures var p, rest := prefix + ['{'] + (inner + ['}'] + more), ("{" + inner) + ['}'] + more;
            && p[..|prefix|] == prefix && p[|prefix|..] == rest
            && rest[1..|inner| + 1] == inner && rest[|inner| + 2..] == more
  { }

  lemma {:induction false} RoundTrip(ts: seq<Token>)
    requires Normal(ts)
    ensures Parse(SpellAll(ts)) == Ok(ts)
    decreases |ts|, 1
  {
    if ts == [] {
    } else if !ts[0].Literal? {
      PlaceholderFirst("", ts);
      assert "" + SpellAll(ts) == SpellAll(ts) && [] + ts == ts;
    } else if |ts| == 1 {
      LiteralOnly(ts);
    } else {
      NormalTail(ts);
      PlaceholderFirst(ts[0].text, ts[1..]);
      assert ts == [ts[0]] + ts[1..];
    }
  }

  lemma LiteralOnly(ts: seq<Token>)
    requires |ts| == 1 && ts[0].Literal? && ts[0].text != "" && '{' !in ts[0].text
    ensures Parse(SpellAll(ts)) == Ok(ts)
  {
    assert ts[1..] == [];
    assert ts[0].text + "" == ts[0].text;
    assert ts == [ts[0]];
  }

  /** A literal prefix without an opening brace, then a placeholder. */
  lemma {:induction false} PlaceholderFirst(prefix: string, ts: seq<Token>)
    requires '{' !in prefix && Normal(ts) && ts != [] && !ts[0].Literal?
    ensures Parse(prefix + SpellAll(ts)) == Ok(LiteralBefore(prefix) + ts)
    decreases |ts|, 0
  {
    InnerParses(ts[0]);
    SpellPlaceholder(prefix, ts);
    CutRound(prefix, Inner(ts[0]), SpellAll(ts[1..]));
    NormalTail(ts);
    RoundTrip(ts[1..]);
    Rejoin(LiteralBefore(prefix), ts);
  }

  lemma {:induction false} SpellPlaceholder(prefix: string, ts: seq<Token>)
    requires ts != [] && !ts[0].Literal?
    ensures prefix + SpellAll(ts) == prefix + ['{'] + (Inner(ts[0]) + ['}'] + SpellAll(ts[1..]))
  {
    Braced(prefix, Inner(ts[0]), SpellAll(ts[1..]));
  }

  lemma Braced(prefix: string, inner: string, more: string)
    ensures prefix + (("{" + inner + "}") + more) == prefix + ['{'] + (inner + ['}'] + more)
  { }

  lemma Rejoin(lits: seq<Token>, ts: seq<Token>)
    requires ts != []
    ensures Prepend(lits + [ts[0]], Ok(ts[1..])) == Ok(lits + ts)
  {
    assert lits + [ts[0]] + ts[1..] == lits + ts;
  }

  lemma NormalTail(ts: seq<Token>)
    requires Normal(ts) && ts != []
    ensures Normal(ts[1..])
  { }

  lemma NormalAfterPlaceholder(prefix: string, t: Token, more: seq<Token>)
    requires '{' !in prefix && !t.Literal? && (t.SEQ? ==> t.width >= 1) && Normal(more)
    ensures Normal(LiteralBefore(prefix) + [t] + more)
  {
    var lits := LiteralBefore(prefix);
    var ts := lits + [t] + more;
    forall i | |lits| < i < |ts| ensures ts[i] == more[i - |lits| - 1] { }
  }

  lemma CutIsNormal(p: string, more: seq<Token>)
    requires CutFirst(p).More? && Normal(more)
    ensures Normal(CutFirst(p).tokens + more)
  {
    var open := Index(p, '{');
    var rest := p[open..];
    var close := Index(rest, '}');
    NormalAfterPlaceholder(p[..open], Placeholder(rest[1..close]).value, more);
  }

  /** The parser only returns normal lists. */
  lemma {:induction false} ParsedIsNormal(p: string)
    requires Parse(p).Ok?
    ensures Normal(Parse(p).value)
    decreases |p|
  {
    var cut := CutFirst(p);
    if cut.More? {
      ParsedIsNormal(cut.rest);
      CutIsNormal(p, Parse(cut.rest).value);
    }
  }

  /** Exactly the normal lists are what some pattern parses to, and each is its own spelling's parse. */
  lemma NormalIff(ts: seq<Token>)
    ensures Normal(ts) <==> Parse(SpellAll(ts)) == Ok(ts)
    ensures Normal(ts) <==> exists p :: Parse(p) == Ok(ts)
  {
    if Normal(ts) { RoundTrip(ts); }
    forall p | Parse(p) == Ok(ts) ensures Normal(ts) { ParsedIsNormal(p); }
  }

  // ---------------------------------------------------------------------------
  // Which placeholders there are.

  /** The texts that stand for a token: its own spelling, or for a sequence `SEQ:` and its width. */
  ghost predicate Denotes(s: string, t: Token)
  {
    && !t.Literal? && (t.SEQ? ==> t.width >= 1)
    && (s == Inner(t) || (t.SEQ? && t.width <= 20 && exists d :: s == "SEQ:" + d && d != "" && AllDigits(d) && NumberOf(d) == t.width))
  }

  lemma ZerosOnly(s: string)
    requires AllZeros(s)
    ensures s == Zeros(|s|)
  { }

  lemma WidthReads(d: string, w: nat)
    requires d != "" && AllDigits(d) && NumberOf(d) == w && 1 <= w <= 20
    ensures Placeholder("SEQ:" + d) == Ok(SEQ(w))
  {
    var s := "SEQ:" + d;
    assert s[4..] == d && s[0] == 'S' && HasPrefix(s, "SEQ:");
  }

  lemma PrefixSplits(s: string)
    requires HasPrefix(s, "SEQ:")
    ensures s == "SEQ:" + s[4..]
  { }

  /** A placeholder is accepted as a token exactly when it is one of the token's texts. */
  lemma PlaceholderIff(s: string, t: Token)
    ensures Placeholder(s) == Ok(t) <==> Denotes(s, t)
  {
    if Denotes(s, t) {
      if s == Inner(t) {
        InnerParses(t);
      } else {
        var d :| s == "SEQ:" + d && d != "" && AllDigits(d) && NumberOf(d) == t.width;
        WidthReads(d, t.width);
      }
    }
    if Placeholder(s) == Ok(t) {
      if HasPrefix(s, "SEQ:") { PrefixSplits(s); }
      if AllZeros(s) { ZerosOnly(s); }
    }
  }

  /** Among the digit placeholders exactly the runs of zeros are sequences, as wide as they are long. */
  lemma DigitPlaceholderIff(s: string)
    requires s != "" && AllDigits(s)
    ensures Placeholder(s).Ok? <==> AllZeros(s)
    ensures AllZeros(s) ==> Placeholder(s) == Ok(SEQ(|s|))
  {
    assert IsDigit(s[0]);
    assert !HasPrefix(s, "SEQ:");
  }

  lemma CutRejects(prefix: string, inner: string, more: string)
    requires '{' !in prefix && '}' !in inner && Placeholder(inner).Err?
    ensures CutFirst(prefix + ['{'] + (inner + ['}'] + more)) == Malformed(Placeholder(inner).error)
  {
    FirstAt(prefix, '{', inner + ['}'] + more);
    FirstAt("{" + inner, '}', more);
    RoundSlices(prefix, inner, more);
  }

  /** A pattern whose first placeholder is a digit string is rejected unless that is all zeros. */
  lemma DigitPatternRejected(prefix: string, s: string, more: string)
    requires '{' !in prefix && s != "" && AllDigits(s) && !AllZeros(s)
    ensures Parse(prefix + ['{'] + (s + ['}'] + more)).Err?
  {
    DigitPlaceholderIff(s);
    assert '}' !in s;
    CutRejects(prefix, s, more);
  }

  /** After a normal list that ends with a placeholder the parser goes on with what follows. */
  lemma {:induction false} ParseAfter(ts: seq<Token>, rest: string)
    requires Normal(ts) && (ts != [] ==> !ts[|ts| - 1].Literal?)
    ensures Parse(SpellAll(ts) + rest) == Prepend(ts, Parse(rest))
    decreases |ts|, 1
  {
    if ts == [] {
      assert "" + rest == rest;
      PrependNothing(Parse(rest));
    } else if ts[0].Literal? {
      assert ts[1..][0] == ts[1] && !ts[1].Literal?;
      NormalTail(ts);
      PlaceholderThen(ts[0].text, ts[1..], rest);
      SpellAppend(ts[0].text, SpellAll(ts[1..]), rest);
      assert [ts[0]] + ts[1..] == ts;
    } else {
      PlaceholderThen("", ts, rest);
      assert "" + (SpellAll(ts) + rest) == SpellAll(ts) + rest;
      assert [] + ts == ts;
    }
  }

  lemma SpellAppend(a: string, b: string, c: string)
    ensures (a + b) + c == a + (b + c)
  { }

  lemma {:induction false} PlaceholderThen(prefix: string, ts: seq<Token>, rest: string)
    requires '{' !in prefix && Normal(ts) && ts != [] && !ts[0].Literal? && !ts[|ts| - 1].Literal?
    ensures Parse(prefix + (SpellAll(ts) + rest)) == Prepend(LiteralBefore(prefix) + ts, Parse(rest))
    decreases |ts|, 0
  {
    InnerParses(ts[0]);
    SpellThen(prefix, ts, rest);
    NormalTail(ts);
    ParseAfter(ts[1..], rest);
    RoundThen(prefix, ts[0], SpellAll(ts[1..]) + rest);
    RejoinThen(LiteralBefore(prefix), ts, Parse(rest));
  }

  lemma RoundThen(prefix: string, t: Token, more: string)
    requires '{' !in prefix && !t.Literal? && Placeholder(Inner(t)) == Ok(t) && '}' !in Inner(t)
    ensures Parse(prefix + ['{'] + (Inner(t) + ['}'] + more)) == Prepend(LiteralBefore(prefix) + [t], Parse(more))
  {
    CutRound(prefix, Inner(t), more);
  }

  lemma {:induction false} SpellThen(prefix: string, ts: seq<Token>, rest: string)
    requires ts != [] && !ts[0].Literal?
    ensures prefix + (SpellAll(ts) + rest) == prefix + ['{'] + (Inner(ts[0]) + ['}'] + (SpellAll(ts[1..]) + rest))
  {
    Shuffle(prefix, Inner(ts[0]), SpellAll(ts[1..]), rest);
  }

  lemma RejoinThen(lits: seq<Token>, ts: seq<Token>, r: Result<seq<Token>>)
    requires ts != []
    ensures Prepend(lits + [ts[0]], Prepend(ts[1..], r)) == Prepend(lits + ts, r)
  {
    PrependTwice(lits + [ts[0]], ts[1..], r);
    assert lits + [ts[0]] + ts[1..] == lits + ts;
  }

  lemma Shuffle(prefix: string, inner: string, tail: string, rest: string)
    ensures prefix + (("{" + inner + "}" + tail) + rest) == prefix + ['{'] + (inner + ['}'] + (tail + rest))
  { }

  /** No placeholder text contains an opening brace. */
  lemma BraceInside(s: string)
    requires '{' in s
    ensures Placeholder(s).Err?
  {
    if HasPrefix(s, "SEQ:") {
      PrefixSplits(s);
      assert '{' in s[4..];
    }
    assert !AllDigits(s) || !IsDigit('{');
  }

  /** A text with an opening brace, cut at the first one. */
  lemma CutAt(p: string, c: char) returns (a: string, q: string)
    requires c in p
    ensures p == a + [c] + q && c !in a
  {
    var i := Index(p, c);
    a, q := p[..i], p[i + 1..];
  }

  /** A digit placeholder other than a run of zeros is rejected whatever comes before it. */
  lemma {:induction false} DigitsRejectedAnywhere(p: string, s: string, more: string)
    requires s != "" && AllDigits(s) && !AllZeros(s)
    ensures Parse(p + ['{'] + (s + ['}'] + more)).Err?
    decreases |p|
  {
    if '{' !in p {
      DigitPatternRejected(p, s, more);
    } else {
      var a, q := CutAt(p, '{');
      if '}' in q {
        var inner, p' := CutAt(q, '}');
        DigitsRejectedAnywhere(p', s, more);
        ClosedBefore(a, inner, p', s, more);
      } else {
        OpenBefore(a, q, s, more);
      }
    }
  }

  /** The first placeholder closes before the digits. */
  lemma ClosedBefore(a: string, inner: string, p: string, s: string, more: string)
    requires '{' !in a && '}' !in inner && Parse(p + ['{'] + (s + ['}'] + more)).Err?
    ensures Parse(a + ['{'] + (inner + ['}'] + p) + ['{'] + (s + ['}'] + more)).Err?
  {
    var rest := p + ['{'] + (s + ['}'] + more);
    RegroupClosed(a, inner, p, s + ['}'] + more);
    RejectedAfter(a, inner, rest);
  }

  lemma RejectedAfter(a: string, inner: string, rest: string)
    requires '{' !in a && '}' !in inner && Parse(rest).Err?
    ensures Parse(a + ['{'] + (inner + ['}'] + rest)).Err?
  {
    if Placeholder(inner).Ok? { CutRound(a, inner, rest); } else { CutRejects(a, inner, rest); }
  }

  lemma RegroupClosed(a: string, inner: string, p: string, tail: string)
    ensures a + ['{'] + (inner + ['}'] + p) + ['{'] + tail == a + ['{'] + (inner + ['}'] + (p + ['{'] + tail))
  { }

  /** The first placeholder is still open where the digits begin, so that it contains a brace. */
  lemma OpenBefore(a: string, q: string, s: string, more: string)
    requires '{' !in a && '}' !in q && AllDigits(s)
    ensures Parse(a + ['{'] + q + ['{'] + (s + ['}'] + more)).Err?
  {
    var inner := q + ['{'] + s;
    assert inner[|q|] == '{';
    BraceInside(inner);
    assert '}' !in s;
    RegroupOpen(a, q, s, more);
    CutRejects(a, inner, more);
  }

  lemma RegroupOpen(a: string, q: string, s: string, more: string)
    ensures a + ['{'] + q + ['{'] + (s + ['}'] + more) == a + ['{'] + ((q + ['{'] + s) + ['}'] + more)
  { }

  /** The documented pattern `PAY-{YYYYMM}-{000001}` is rejected. */
  lemma DocumentedPatternRejected()
    ensures Parse("PAY-{YYYYMM}-{000001}").Err?
  {
    assert "PAY-{YYYYMM}-{000001}" == "PAY-{YYYYMM}-" + ['{'] + ("000001" + ['}'] + "");
    assert "000001"[5] == '1';
    DigitsRejectedAnywhere("PAY-{YYYYMM}-", "000001", "");
  }
}
