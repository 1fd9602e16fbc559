/** The emitted text means what the filter tree means. */
module ReportCorrect {
  import opened Options
  import opened SqlCondition
  import opened ReportSql

  /** `n + 1, ..., n + count`. */
  function Range(n: int, count: nat): seq<int>
  {
    if count == 0 then [] else Range(n, count - 1) + [n + count]
  }

  lemma {:induction false} RangeAt(n: int, count: nat)
    ensures |Range(n, count)| == count && forall i :: 0 <= i < count ==> Range(n, count)[i] == n + 1 + i
  {
    if count > 0 { RangeAt(n, count - 1); }
  }

  predicate AllWellFormed(fs: seq<Filter>)
  {
    forall i :: 0 <= i < |fs| ==> WellFormed(fs[i])
  }

  /** The condition a filter's text should parse to. */
  function Compiled(f: Filter, n: int): Condition
    requires WellFormed(f)
    decreases f, 1
  {
    match f
    case Cmp(op, field, _) => CCmp(op, Unquoted(field), n + 1)
    case IsNull(field) => CNull(Unquoted(field))
    case IsNotNull(field) => CNotNull(Unquoted(field))
    case Like(_, field, _) => CLike(Unquoted(field), n + 1)
    case In(field, values) => CIn(Unquoted(field), Range(n, |values|))
    case NotIn(field, values) => CNotIn(Unquoted(field), Range(n, |values|))
    case Between(field, _, _) => CBetween(Unquoted(field), n + 1, n + 2)
    case And(sub) => AndChain(Compiled(sub[0], n), sub[1..], n + |Args(sub[0])|)
    case Or(sub) => OrChain(Compiled(sub[0], n), sub[1..], n + |Args(sub[0])|)
    case Not(sub) => CNot(Compiled(sub[0], n))
  }

  function AndChain(left: Condition, fs: seq<Filter>, n: int): Condition
    requires AllWellFormed(fs)
    decreases fs, 0
  {
    if fs == [] then left else AndChain(CAnd(left, Compiled(fs[0], n)), fs[1..], n + |Args(fs[0])|)
  }

  function OrChain(left: Condition, fs: seq<Filter>, n: int): Condition
    requires AllWellFormed(fs)
    decreases fs, 0
  {
    if fs == [] then left else OrChain(COr(left, Compiled(fs[0], n)), fs[1..], n + |Args(fs[0])|)
  }

  /** The end of the text or of a parenthesis. */
  predicate Closes(rest: seq<Token>)
  {
    rest == [] || rest[0] == RParen
  }

  // ---------------------------------------------------------------------------
  // Parsing.

  lemma Unwrap(p: seq<Token>, m: seq<Token>, rest: seq<Token>)
    ensures ([LParen] + p + [RParen] + m) + rest == [LParen] + (p + ([RParen] + (m + rest)))
  { }

  lemma UnwrapMore(word: Token, p: seq<Token>, m: seq<Token>, rest: seq<Token>)
    ensures ([word, LParen] + p + [RParen] + m) + rest == [word] + ([LParen] + (p + ([RParen] + (m + rest))))
  { }

  /** The part of a placeholder list after its first `seen` entries. */
  function CommaTail(n: int, seen: nat, total: nat): seq<Token>
    requires seen <= total
    decreases total - seen
  {
    if seen == total then [] else [Comma, Param(n + seen + 1)] + CommaTail(n, seen + 1, total)
  }

  lemma {:induction false} PlaceholdersSplit(n: int, seen: nat, total: nat)
    requires 1 <= seen <= total
    ensures Placeholders(n, total) == Placeholders(n, seen) + CommaTail(n, seen, total)
    decreases total - seen
  {
    if seen < total {
      PlaceholdersSplit(n, seen + 1, total);
      assert Placeholders(n, seen + 1) == Placeholders(n, seen) + [Comma, Param(n + seen + 1)];
    }
  }

  lemma OneMoreParam(seen: seq<int>, k: int, tail: seq<Token>)
    ensures ParseParams(seen, [Comma, Param(k)] + tail) == ParseParams(seen + [k], tail)
  {
    assert ([Comma, Param(k)] + tail)[2..] == tail;
  }

  lemma ParamsEnd(seen: seq<int>, rest: seq<Token>)
    ensures ParseParams(seen, [RParen] + rest) == List(seen, rest)
  {
    assert ([RParen] + rest)[1..] == rest;
  }

  /** Parameter lists parse back to their numbers. */
  lemma {:induction false} ParamsParse(n: int, seen: nat, total: nat, rest: seq<Token>)
    requires 1 <= seen <= total
    ensures ParseParams(Range(n, seen), CommaTail(n, seen, total) + ([RParen] + rest)) == List(Range(n, total), rest)
    decreases total - seen
  {
    var close := [RParen] + rest;
    if seen < total {
      var tail := CommaTail(n, seen + 1, total) + close;
      assert CommaTail(n, seen, total) + close == [Comma, Param(n + seen + 1)] + tail;
      OneMoreParam(Range(n, seen), n + seen + 1, tail);
      ParamsParse(n, seen + 1, total, rest);
    } else {
      assert [] + close == close;
      ParamsEnd(Range(n, total), rest);
    }
  }

  lemma InTail(n: int, count: nat, rest: seq<Token>)
    requires count >= 1
    ensures var tail := CommaTail(n, 1, count) + ([RParen] + rest);
            && Placeholders(n, count) + [RParen] + rest == [Param(n + 1)] + tail
            && ParseParams([n + 1], tail) == List(Range(n, count), rest)
  {
    PlaceholdersSplit(n, 1, count);
    assert Placeholders(n, 1) == [Param(n + 1)];
    TailAssoc(Param(n + 1), CommaTail(n, 1, count), rest);
    ParamsParse(n, 1, count, rest);
    assert Range(n, 1) == [n + 1];
  }

  lemma TailAssoc(first: Token, tail: seq<Token>, rest: seq<Token>)
    ensures ([first] + tail) + [RParen] + rest == [first] + (tail + ([RParen] + rest))
  { }

  /** The opening of an IN or NOT IN predicate, up to its first parameter. */
  lemma InOpens(col: string, k: int, tail: seq<Token>, ks: seq<int>, rest: seq<Token>)
    requires ParseParams([k], tail) == List(ks, rest)
    ensures ParsePredicate(col, [InWord, LParen, Param(k)] + tail) == Got(CIn(col, ks), rest)
    ensures ParsePredicate(col, [NotWord, InWord, LParen, Param(k)] + tail) == Got(CNotIn(col, ks), rest)
  {
    assert ([InWord, LParen, Param(k)] + tail)[3..] == tail;
    assert ([NotWord, InWord, LParen, Param(k)] + tail)[4..] == tail;
  }

  lemma ColumnOpens(col: string, ts: seq<Token>)
    ensures ParsePrimary([Column(col)] + ts) == ParsePredicate(col, ts)
  {
    assert ([Column(col)] + ts)[1..] == ts;
  }

  lemma Reshape(col: Token, words: seq<Token>, p: seq<Token>, first: Token, tail: seq<Token>, rest: seq<Token>)
    requires p + [RParen] + rest == [first] + tail
    ensures [col] + words + p + [RParen] + rest == [col] + (words + [first] + tail)
  {
    assert [col] + words + p + [RParen] + rest == [col] + words + (p + [RParen] + rest);
  }

  lemma InParses(col: string, n: int, count: nat, rest: seq<Token>)
    requires count >= 1
    ensures ParsePrimary([Column(col), InWord, LParen] + Placeholders(n, count) + [RParen] + rest) == Got(CIn(col, Range(n, count)), rest)
  {
    InTail(n, count, rest);
    var tail := CommaTail(n, 1, count) + ([RParen] + rest);
    InOpens(col, n + 1, tail, Range(n, count), rest);
    ColumnOpens(col, [InWord, LParen, Param(n + 1)] + tail);
    assert [InWord, LParen] + [Param(n + 1)] == [InWord, LParen, Param(n + 1)];
    assert [Column(col)] + [InWord, LParen] == [Column(col), InWord, LParen];
    Reshape(Column(col), [InWord, LParen], Placeholders(n, count), Param(n + 1), tail, rest);
  }

  lemma NotInParses(col: string, n: int, count: nat, rest: seq<Token>)
    requires count >= 1
    ensures ParsePrimary([Column(col), NotWord, InWord, LParen] + Placeholders(n, count) + [RParen] + rest) ==
            Got(CNotIn(col, Range(n, count)), rest)
  {
    InTail(n, count, rest);
    var tail := CommaTail(n, 1, count) + ([RParen] + rest);
    InOpens(col, n + 1, tail, Range(n, count), rest);
    ColumnOpens(col, [NotWord, InWord, LParen, Param(n + 1)] + tail);
    assert [NotWord, InWord, LParen] + [Param(n + 1)] == [NotWord, InWord, LParen, Param(n + 1)];
    assert [Column(col)] + [NotWord, InWord, LParen] == [Column(col), NotWord, InWord, LParen];
    Reshape(Column(col), [NotWord, InWord, LParen], Placeholders(n, count), Param(n + 1), tail, rest);
  }

  predicate IsLeaf(f: Filter)
  {
    !f.And? && !f.Or? && !f.Not? && !f.Custom?
  }

  lemma PlainParses(f: Filter, n: int, rest: seq<Token>)
    requires IsLeaf(f) && !f.In? && !f.NotIn?
    ensures ParsePrimary(Print(f, n) + rest) == Got(Compiled(f, n), rest)
  {
    var col, body := Unquoted(f.field), Print(f, n)[1..];
    assert Print(f, n) + rest == [Column(col)] + (body + rest);
    ColumnOpens(col, body + rest);
    PredicateParses(f, n, rest);
  }

  lemma PredicateParses(f: Filter, n: int, rest: seq<Token>)
    requires IsLeaf(f) && !f.In? && !f.NotIn?
    ensures Print(f, n) != [] && Print(f, n)[0] == Column(Unquoted(f.field))
    ensures ParsePredicate(Unquoted(f.field), Print(f, n)[1..] + rest) == Got(Compiled(f, n), rest)
  {
    var body := Print(f, n)[1..];
    assert (body + rest)[|body|..] == rest;
  }

  lemma LeafParses(f: Filter, n: int, rest: seq<Token>)
    requires IsLeaf(f) && WellFormed(f)
    ensures ParseNot(Print(f, n) + rest) == Got(Compiled(f, n), rest)
  {
    if f.In? {
      InParses(Unquoted(f.field), n, |f.values|, rest);
    } else if f.NotIn? {
      NotInParses(Unquoted(f.field), n, |f.values|, rest);
    } else {
      PlainParses(f, n, rest);
    }
    assert !Starts(Print(f, n) + rest, NotWord);
  }

  /** A negation followed by neither AND nor OR is a whole condition. */
  lemma NegationIsCondition(ts: seq<Token>, c: Condition, rest: seq<Token>)
    requires ParseNot(ts) == Got(c, rest) && Closes(rest)
    ensures ParseOr(ts) == Got(c, rest)
  {
    assert AndTail(c, rest) == Got(c, rest);
    assert ParseAnd(ts) == Got(c, rest);
    assert OrTail(c, rest) == Got(c, rest);
  }

  lemma {:induction false} Parses(f: Filter, n: int, rest: seq<Token>)
    requires WellFormed(f) && Closes(rest)
    ensures ParseOr(Print(f, n) + rest) == Got(Compiled(f, n), rest)
    decreases f, 1
  {
    if IsLeaf(f) {
      LeafParses(f, n, rest);
      NegationIsCondition(Print(f, n) + rest, Compiled(f, n), rest);
    } else if f.Not? {
      NotParses(f.sub[0], n, rest);
      SingleChild(f.sub, n);
      NegationIsCondition(Print(f, n) + rest, Compiled(f, n), rest);
    } else if f.And? {
      AndParses(f.sub, n, rest);
    } else {
      OrParses(f.sub, n, rest);
    }
  }

  lemma {:induction false} NotParses(f: Filter, n: int, rest: seq<Token>)
    requires WellFormed(f)
    ensures ParseNot([NotWord, LParen] + Print(f, n) + [RParen] + rest) == Got(CNot(Compiled(f, n)), rest)
    decreases f, 3
  {
    var ts := [NotWord, LParen] + Print(f, n) + [RParen] + rest;
    var group := [LParen] + (Print(f, n) + ([RParen] + rest));
    assert ts == [NotWord] + group;
    assert ts[1..] == group;
    GroupParses(f, n, rest);
  }

  lemma PrintAllOpens(sub: seq<Filter>, word: Token, n: int, rest: seq<Token>)
    requires sub != []
    ensures var more := PrintMore(sub[1..], word, n + |Args(sub[0])|);
            PrintAll(sub, word, n) + rest == [LParen] + (Print(sub[0], n) + ([RParen] + (more + rest)))
  {
    Unwrap(Print(sub[0], n), PrintMore(sub[1..], word, n + |Args(sub[0])|), rest);
  }

  /** A disjunction whose first operand is followed by a chain of ANDs up to the end. */
  lemma AndChainIsCondition(ts: seq<Token>, c: Condition, tail: seq<Token>, d: Condition, rest: seq<Token>)
    requires ParseNot(ts) == Got(c, tail) && AndTail(c, tail) == Got(d, rest) && Closes(rest)
    ensures ParseOr(ts) == Got(d, rest)
  {
    assert ParseAnd(ts) == Got(d, rest);
    assert OrTail(d, rest) == Got(d, rest);
  }

  /** A disjunction whose first operand is not followed by AND. */
  lemma OrChainIsCondition(ts: seq<Token>, c: Condition, tail: seq<Token>)
    requires ParseNot(ts) == Got(c, tail) && !Starts(tail, AndWord)
    ensures ParseOr(ts) == OrTail(c, tail)
  {
    assert ParseAnd(ts) == Got(c, tail);
  }

  lemma {:induction false} AndParses(sub: seq<Filter>, n: int, rest: seq<Token>)
    requires sub != [] && AllWellFormed(sub) && Closes(rest)
    ensures ParseOr(PrintAll(sub, AndWord, n) + rest) == Got(AndChain(Compiled(sub[0], n), sub[1..], n + |Args(sub[0])|), rest)
    decreases sub, 1
  {
    var n1 := n + |Args(sub[0])|;
    var more := PrintMore(sub[1..], AndWord, n1);
    var first := Compiled(sub[0], n);
    PrintAllOpens(sub, AndWord, n, rest);
    GroupParses(sub[0], n, more + rest);
    AndTailParses(first, sub[1..], n1, rest);
    AndChainIsCondition(PrintAll(sub, AndWord, n) + rest, first, more + rest, AndChain(first, sub[1..], n1), rest);
  }

  lemma {:induction false} OrParses(sub: seq<Filter>, n: int, rest: seq<Token>)
    requires sub != [] && AllWellFormed(sub) && Closes(rest)
    ensures ParseOr(PrintAll(sub, OrWord, n) + rest) == Got(OrChain(Compiled(sub[0], n), sub[1..], n + |Args(sub[0])|), rest)
    decreases sub, 1
  {
    var n1 := n + |Args(sub[0])|;
    var more := PrintMore(sub[1..], OrWord, n1);
    PrintAllOpens(sub, OrWord, n, rest);
    GroupParses(sub[0], n, more + rest);
    NoAndFollows(sub[1..], n1, rest);
    OrTailParses(Compiled(sub[0], n), sub[1..], n1, rest);
    OrChainIsCondition(PrintAll(sub, OrWord, n) + rest, Compiled(sub[0], n), more + rest);
  }

  /** A parenthesised filter, whatever follows. */
  lemma {:induction false} GroupParses(f: Filter, n: int, rest: seq<Token>)
    requires WellFormed(f)
    ensures var ts := [LParen] + (Print(f, n) + ([RParen] + rest));
            ParsePrimary(ts) == Got(Compiled(f, n), rest) && ParseNot(ts) == Got(Compiled(f, n), rest)
    decreases f, 2
  {
    var ts := [LParen] + (Print(f, n) + ([RParen] + rest));
    Parses(f, n, [RParen] + rest);
    assert ts[1..] == Print(f, n) + ([RParen] + rest);
    assert ([RParen] + rest)[1..] == rest;
  }

  lemma PrintMoreOpens(fs: seq<Filter>, word: Token, n: int, rest: seq<Token>)
    requires fs != []
    ensures var more := PrintMore(fs[1..], word, n + |Args(fs[0])|);
            PrintMore(fs, word, n) + rest == [word] + ([LParen] + (Print(fs[0], n) + ([RParen] + (more + rest))))
  {
    UnwrapMore(word, Print(fs[0], n), PrintMore(fs[1..], word, n + |Args(fs[0])|), rest);
  }

  /** One more operand of an AND chain. */
  lemma AndTailStep(left: Condition, group: seq<Token>)
    ensures var p := ParseNot(group);
            AndTail(left, [AndWord] + group) == if p.Fail? then Fail else AndTail(CAnd(left, p.cond), p.rest)
  {
    assert ([AndWord] + group)[1..] == group;
  }

  /** One more operand of an OR chain, when no AND follows it. */
  lemma OrTailStep(left: Condition, group: seq<Token>)
    requires var p := ParseNot(group); p.Got? ==> !Starts(p.rest, AndWord)
    ensures var p := ParseNot(group);
            OrTail(left, [OrWord] + group) == if p.Fail? then Fail else OrTail(COr(left, p.cond), p.rest)
  {
    assert ([OrWord] + group)[1..] == group;
    assert ParseAnd(group) == ParseNot(group);
  }

  lemma AndTailNext(left: Condition, group: seq<Token>, c: Condition, tail: seq<Token>, d: Condition, rest: seq<Token>)
    requires ParseNot(group) == Got(c, tail) && AndTail(CAnd(left, c), tail) == Got(d, rest)
    ensures AndTail(left, [AndWord] + group) == Got(d, rest)
  {
    AndTailStep(left, group);
  }

  lemma AndTailEnds(left: Condition, rest: seq<Token>)
    requires Closes(rest)
    ensures AndTail(left, [] + rest) == Got(left, rest)
  {
    assert [] + rest == rest;
  }

  lemma {:induction false} AndChainNext(left: Condition, fs: seq<Filter>, n: int)
    requires AllWellFormed(fs) && fs != []
    ensures AndChain(left, fs, n) == AndChain(CAnd(left, Compiled(fs[0], n)), fs[1..], n + |Args(fs[0])|)
  { }

  lemma {:induction false} AndTailParses(left: Condition, fs: seq<Filter>, n: int, rest: seq<Token>)
    requires AllWellFormed(fs) && Closes(rest)
    ensures AndTail(left, PrintMore(fs, AndWord, n) + rest) == Got(AndChain(left, fs, n), rest)
    decreases fs, 0
  {
    if fs == [] {
      AndTailEnds(left, rest);
    } else {
      var n1, c := n + |Args(fs[0])|, Compiled(fs[0], n);
      var tail := PrintMore(fs[1..], AndWord, n1) + rest;
      var group := [LParen] + (Print(fs[0], n) + ([RParen] + tail));
      GroupParses(fs[0], n, tail);
      AndTailParses(CAnd(left, c), fs[1..], n1, rest);
      AndChainNext(left, fs, n);
      AndTailNext(left, group, c, tail, AndChain(left, fs, n), rest);
      PrintMoreOpens(fs, AndWord, n, rest);
      assert PrintMore(fs, AndWord, n) + rest == [AndWord] + group;
    }
  }

  lemma NoAndFollows(fs: seq<Filter>, n: int, rest: seq<Token>)
    requires Closes(rest)
    ensures !Starts(PrintMore(fs, OrWord, n) + rest, AndWord)
  {
    if fs == [] { assert [] + rest == rest; }
  }

  lemma OrTailNext(left: Condition, group: seq<Token>, c: Condition, tail: seq<Token>, d: Condition, rest: seq<Token>)
    requires ParseNot(group) == Got(c, tail) && !Starts(tail, AndWord) && OrTail(COr(left, c), tail) == Got(d, rest)
    ensures OrTail(left, [OrWord] + group) == Got(d, rest)
  {
    OrTailStep(left, group);
  }

  lemma OrTailEnds(left: Condition, rest: seq<Token>)
    requires Closes(rest)
    ensures OrTail(left, [] + rest) == Got(left, rest)
  {
    assert [] + rest == rest;
  }

  lemma {:induction false} OrChainNext(left: Condition, fs: seq<Filter>, n: int)
    requires AllWellFormed(fs) && fs != []
    ensures OrChain(left, fs, n) == OrChain(COr(left, Compiled(fs[0], n)), fs[1..], n + |Args(fs[0])|)
  { }

  lemma {:induction false} OrTailParses(left: Condition, fs: seq<Filter>, n: int, rest: seq<Token>)
    requires AllWellFormed(fs) && Closes(rest)
    ensures OrTail(left, PrintMore(fs, OrWord, n) + rest) == Got(OrChain(left, fs, n), rest)
    decreases fs, 0
  {
    if fs == [] {
      OrTailEnds(left, rest);
    } else {
      var n1, c := n + |Args(fs[0])|, Compiled(fs[0], n);
      var tail := PrintMore(fs[1..], OrWord, n1) + rest;
      var group := [LParen] + (Print(fs[0], n) + ([RParen] + tail));
      GroupParses(fs[0], n, tail);
      NoAndFollows(fs[1..], n1, rest);
      OrTailParses(COr(left, c), fs[1..], n1, rest);
      OrChainNext(left, fs, n);
      OrTailNext(left, group, c, tail, OrChain(left, fs, n), rest);
      PrintMoreOpens(fs, OrWord, n, rest);
      assert PrintMore(fs, OrWord, n) + rest == [OrWord] + group;
    }
  }

  // ---------------------------------------------------------------------------
  // Trees that do not print as valid SQL.

  lemma {:induction false} Breaks(f: Filter, n: int, rest: seq<Token>)
    requires Supported(f) && !WellFormed(f) && Closes(rest)
    ensures ParseOr(Print(f, n) + rest).Fail?
    decreases f, 1
  {
    if f.In? || f.NotIn? {
      EmptyListFails(f, n, rest);
    } else if f.Not? {
      NotBreaks(f.sub[0], n, rest);
      SingleChild(f.sub, n);
    } else if f.sub == [] {
      assert Print(f, n) + rest == rest;
      NothingFails(rest);
    } else {
      ChildrenBreak(f.sub, f.And?, n, rest);
    }
  }

  lemma NothingFails(rest: seq<Token>)
    requires Closes(rest)
    ensures ParseOr(rest).Fail?
  {
    assert ParsePrimary(rest).Fail?;
    assert ParseNot(rest).Fail?;
    assert ParseAnd(rest).Fail?;
  }

  lemma {:induction false} NotBreaks(f: Filter, n: int, rest: seq<Token>)
    requires Supported(f) && !WellFormed(f)
    ensures ParseOr([NotWord, LParen] + Print(f, n) + [RParen] + rest).Fail?
    decreases f, 3
  {
    var ts := [NotWord, LParen] + Print(f, n) + [RParen] + rest;
    var group := [LParen] + (Print(f, n) + ([RParen] + rest));
    assert ts == [NotWord] + group;
    assert ts[1..] == group;
    GroupBreaks(f, n, rest);
    assert ParseNot(ts).Fail?;
    assert ParseAnd(ts).Fail?;
  }

  lemma EmptyListFails(f: Filter, n: int, rest: seq<Token>)
    requires (f.In? || f.NotIn?) && f.values == []
    ensures ParseOr(Print(f, n) + rest).Fail?
  {
    var ts := Print(f, n) + rest;
    assert ts[0] == Column(Unquoted(f.field));
    assert f.In? ==> ts[1..][0] == InWord && ts[1..][2] == RParen;
    assert f.NotIn? ==> ts[1..][0] == NotWord && ts[1..][3] == RParen;
    assert ParsePrimary(ts).Fail?;
    assert ParseNot(ts).Fail?;
    assert ParseAnd(ts).Fail?;
  }

  lemma {:induction false} GroupBreaks(f: Filter, n: int, rest: seq<Token>)
    requires Supported(f) && !WellFormed(f)
    ensures var ts := [LParen] + (Print(f, n) + ([RParen] + rest)); ParsePrimary(ts).Fail? && ParseNot(ts).Fail?
    decreases f, 2
  {
    var ts := [LParen] + (Print(f, n) + ([RParen] + rest));
    assert ts[1..] == Print(f, n) + ([RParen] + rest);
    Breaks(f, n, [RParen] + rest);
  }

  lemma {:induction false} ChildrenBreak(sub: seq<Filter>, conj: bool, n: int, rest: seq<Token>)
    requires AllSupported(sub) && SomeBroken(sub) && Closes(rest)
    ensures ParseOr(PrintAll(sub, if conj then AndWord else OrWord, n) + rest).Fail?
    decreases sub, 1
  {
    BrokenRest(sub);
    var word := if conj then AndWord else OrWord;
    var n1 := n + |Args(sub[0])|;
    var more := PrintMore(sub[1..], word, n1);
    var ts := PrintAll(sub, word, n) + rest;
    Unwrap(Print(sub[0], n), more, rest);
    if !WellFormed(sub[0]) {
      GroupBreaks(sub[0], n, more + rest);
      assert ParseAnd(ts).Fail?;
    } else {
      GroupParses(sub[0], n, more + rest);
      if conj {
        AndTailBreaks(Compiled(sub[0], n), sub[1..], n1, rest);
        assert ParseAnd(ts).Fail?;
      } else {
        OrTailBreaks(Compiled(sub[0], n), sub[1..], n1, rest);
        NoAndFollows(sub[1..], n1, rest);
        assert ParseAnd(ts) == Got(Compiled(sub[0], n), more + rest);
      }
    }
  }

  predicate AllSupported(fs: seq<Filter>)
  {
    forall c :: c in fs ==> Supported(c)
  }

  predicate SomeBroken(fs: seq<Filter>)
  {
    exists c :: c in fs && !WellFormed(c)
  }

  lemma BrokenRest(fs: seq<Filter>)
    requires AllSupported(fs) && SomeBroken(fs)
    ensures fs != [] && Supported(fs[0]) && AllSupported(fs[1..]) && (WellFormed(fs[0]) ==> SomeBroken(fs[1..]))
  {
    assert fs == [fs[0]] + fs[1..];
  }

  lemma {:induction false} AndTailBreaks(left: Condition, fs: seq<Filter>, n: int, rest: seq<Token>)
    requires AllSupported(fs) && SomeBroken(fs) && Closes(rest)
    ensures AndTail(left, PrintMore(fs, AndWord, n) + rest).Fail?
    decreases fs, 0
  {
    var n1 := n + |Args(fs[0])|;
    var tail := PrintMore(fs[1..], AndWord, n1) + rest;
    var group := [LParen] + (Print(fs[0], n) + ([RParen] + tail));
    PrintMoreOpens(fs, AndWord, n, rest);
    BrokenRest(fs);
    if !WellFormed(fs[0]) {
      GroupBreaks(fs[0], n, tail);
      AndTailStep(left, group);
    } else {
      GroupParses(fs[0], n, tail);
      AndTailBreaks(CAnd(left, Compiled(fs[0], n)), fs[1..], n1, rest);
      AndTailStep(left, group);
    }
  }

  lemma {:induction false} OrTailBreaks(left: Condition, fs: seq<Filter>, n: int, rest: seq<Token>)
    requires AllSupported(fs) && SomeBroken(fs) && Closes(rest)
    ensures OrTail(left, PrintMore(fs, OrWord, n) + rest).Fail?
    decreases fs, 0
  {
    var n1 := n + |Args(fs[0])|;
    var tail := PrintMore(fs[1..], OrWord, n1) + rest;
    var group := [LParen] + (Print(fs[0], n) + ([RParen] + tail));
    PrintMoreOpens(fs, OrWord, n, rest);
    BrokenRest(fs);
    if !WellFormed(fs[0]) {
      GroupBreaks(fs[0], n, tail);
      OrTailStep(left, group);
    } else {
      GroupParses(fs[0], n, tail);
      NoAndFollows(fs[1..], n1, rest);
      OrTailBreaks(COr(left, Compiled(fs[0], n)), fs[1..], n1, rest);
      OrTailStep(left, group);
    }
  }

  /** The text of a supported filter is a valid condition exactly when no IN list, AND or OR in it is empty. */
  lemma ValidSqlIff(f: Filter, n: int)
    requires Supported(f)
    ensures ParseCondition(Print(f, n)).Got? <==> WellFormed(f)
  {
    assert Print(f, n) + [] == Print(f, n);
    if WellFormed(f) { Parses(f, n, []); } else { Breaks(f, n, []); }
  }

  // ---------------------------------------------------------------------------
  // Meaning.

  /** `args` carries the parameters `n + 1 .. n + |values|`. */
  ghost predicate Binds(args: seq<Value>, n: int, values: seq<Value>)
  {
    0 <= n && n + |values| <= |args| && args[n..n + |values|] == values
  }

  lemma BindsSplit(args: seq<Value>, n: int, a: seq<Value>, b: seq<Value>)
    requires Binds(args, n, a + b)
    ensures Binds(args, n, a) && Binds(args, n + |a|, b)
  {
    assert args[n..n + |a|] == (a + b)[..|a|] == a;
    assert args[n + |a|..n + |a| + |b|] == (a + b)[|a|..] == b;
  }

  lemma BoundRange(args: seq<Value>, n: int, values: seq<Value>)
    requires Binds(args, n, values)
    ensures BoundAll(args, Range(n, |values|)) == values
  {
    RangeAt(n, |values|);
    forall i | 0 <= i < |values| ensures Bound(args, Range(n, |values|)[i]) == values[i] {
      assert args[n..n + |values|][i] == args[n + i];
    }
  }

  lemma LeafMeans(f: Filter, n: int, env: Env, args: seq<Value>)
    requires IsLeaf(f) && WellFormed(f) && Binds(args, n, Args(f))
    ensures Evaluate(Compiled(f, n), env, args) == Meaning(f, Through(env))
  {
    if f.In? || f.NotIn? {
      BoundRange(args, n, f.values);
    } else {
      if f.Between? { BoundAt(args, n, Args(f), 0); BoundAt(args, n, Args(f), 1); }
      if f.Cmp? || f.Like? { BoundAt(args, n, Args(f), 0); }
    }
  }

  lemma BoundAt(args: seq<Value>, n: int, values: seq<Value>, i: nat)
    requires Binds(args, n, values) && i < |values|
    ensures Bound(args, n + 1 + i) == values[i]
  {
    assert args[n..n + |values|][i] == args[n + i];
  }

  lemma {:induction false} Means(f: Filter, n: int, env: Env, args: seq<Value>)
    requires WellFormed(f) && Binds(args, n, Args(f))
    ensures Evaluate(Compiled(f, n), env, args) == Meaning(f, Through(env))
    decreases f, 1
  {
    if IsLeaf(f) {
      LeafMeans(f, n, env, args);
    } else {
      var sub, n1 := f.sub, n + |Args(f.sub[0])|;
      assert Args(f) == ArgsOfAll(sub) == Args(sub[0]) + ArgsOfAll(sub[1..]);
      BindsSplit(args, n, Args(sub[0]), ArgsOfAll(sub[1..]));
      Means(sub[0], n, env, args);
      if f.And? {
        AndChainMeans(Compiled(sub[0], n), sub[1..], n1, env, args);
      } else if f.Or? {
        OrChainMeans(Compiled(sub[0], n), sub[1..], n1, env, args);
      }
    }
  }

  lemma {:induction false} AndChainMeans(left: Condition, fs: seq<Filter>, n: int, env: Env, args: seq<Value>)
    requires AllWellFormed(fs)
    requires Binds(args, n, ArgsOfAll(fs))
    ensures Evaluate(AndChain(left, fs, n), env, args) == And3(Evaluate(left, env, args), AllTrue(fs, Through(env)))
    decreases fs, 0
  {
    if fs != [] {
      BindsSplit(args, n, Args(fs[0]), ArgsOfAll(fs[1..]));
      Means(fs[0], n, env, args);
      AndChainMeans(CAnd(left, Compiled(fs[0], n)), fs[1..], n + |Args(fs[0])|, env, args);
    }
  }

  lemma {:induction false} OrChainMeans(left: Condition, fs: seq<Filter>, n: int, env: Env, args: seq<Value>)
    requires AllWellFormed(fs)
    requires Binds(args, n, ArgsOfAll(fs))
    ensures Evaluate(OrChain(left, fs, n), env, args) == Or3(Evaluate(left, env, args), SomeTrue(fs, Through(env)))
    decreases fs, 0
  {
    if fs != [] {
      BindsSplit(args, n, Args(fs[0]), ArgsOfAll(fs[1..]));
      Means(fs[0], n, env, args);
      OrChainMeans(COr(left, Compiled(fs[0], n)), fs[1..], n + |Args(fs[0])|, env, args);
    }
  }

  lemma {:induction false} CleanUnquoted(id: string)
    requires '"' !in id
    ensures Unquoted(id) == id
  {
    if id != "" { CleanUnquoted(id[1..]); }
  }

  /** Without double quotes in field names the text addresses the columns the tree names. */
  lemma {:induction false} CleanMeaning(f: Filter, env: Env)
    requires CleanFields(f)
    ensures Meaning(f, Through(env)) == Meaning(f, env)
    decreases f, 1
  {
    match f
    case And(sub) => CleanMeanings(sub, env);
    case Or(sub) => CleanMeanings(sub, env);
    case Not(sub) => if |sub| == 1 { CleanMeaning(sub[0], env); }
    case Custom(_) =>
    case _ => CleanUnquoted(f.field);
  }

  lemma {:induction false} CleanMeanings(fs: seq<Filter>, env: Env)
    requires forall c :: c in fs ==> CleanFields(c)
    ensures AllTrue(fs, Through(env)) == AllTrue(fs, env) && SomeTrue(fs, Through(env)) == SomeTrue(fs, env)
    decreases fs, 0
  {
    if fs != [] {
      CleanMeaning(fs[0], env);
      CleanMeanings(fs[1..], env);
    }
  }

  /** Only the double quotes go. */
  lemma {:induction false} UnquotedSplits(a: string, b: string)
    ensures Unquoted(a + ['"'] + b) == Unquoted(a) + Unquoted(b)
  {
    var all := a + ['"'] + b;
    if a == "" {
      assert all[0] == '"' && all[1..] == b;
    } else {
      UnquotedSplits(a[1..], b);
      assert all[0] == a[0] && all[1..] == a[1..] + ['"'] + b;
    }
  }

  lemma {:induction false} UnquotedShorter(id: string)
    ensures |Unquoted(id)| <= |id|
    ensures '"' in id ==> |Unquoted(id)| < |id|
  {
    if id != "" {
      UnquotedShorter(id[1..]);
      assert '"' in id ==> id[0] == '"' || '"' in id[1..];
    }
  }

  /** Every row has the truth value the leaf gives it, whatever the database's operators. */
  ghost predicate LeafFaithful(f: Filter)
    requires WellFormed(f)
  {
    forall env: Env, args, n {:trigger Evaluate(Compiled(f, n), env, args)} ::
      Binds(args, n, Args(f)) ==> Evaluate(Compiled(f, n), env, args) == Meaning(f, env)
  }

  /** A row that tells the printed column from the named one, for operators that do. */
  function Telling(field: string): Env
  {
    Env(c => if c == field then Null else Number(0),
        (op, v, w) => if v == Null then Unknown else True,
        (v, w) => if v == Null then Unknown else True)
  }

  lemma AmongNull(cmp: (CmpOp, Value, Value) -> Truth, v: Value, values: seq<Value>, truth: Truth)
    requires values != [] && truth != False && forall w :: cmp(Eq, v, w) == truth
    ensures AmongTruth(cmp, v, values) == truth
  {
    if |values| > 1 {
      AmongNull(cmp, v, values[..|values| - 1], truth);
    } else {
      assert values[..0] == [];
    }
  }

  lemma TellingMeans(f: Filter, env: Env)
    requires IsLeaf(f) && WellFormed(f) && env == Telling(f.field) && Unquoted(f.field) != f.field
    ensures Meaning(f, env) != Meaning(f, Through(env))
  {
    if f.In? || f.NotIn? {
      AmongNull(env.cmp, Null, f.values, Unknown);
      AmongNull(env.cmp, Number(0), f.values, True);
    }
  }

  /** A leaf is read as written by every database if and only if its field name has no double quote. */
  lemma LeafFaithfulIff(f: Filter)
    requires IsLeaf(f) && WellFormed(f)
    ensures LeafFaithful(f) <==> '"' !in f.field
  {
    if '"' in f.field {
      UnquotedShorter(f.field);
      var env, args := Telling(f.field), Args(f);
      assert args[0..|args|] == args;
      LeafMeans(f, 0, env, args);
      TellingMeans(f, env);
    } else {
      forall env: Env, args, n | Binds(args, n, Args(f)) ensures Evaluate(Compiled(f, n), env, args) == Meaning(f, env) {
        LeafMeans(f, n, env, args);
        CleanMeaning(f, env);
      }
    }
  }

  lemma NullOrNot(field: string, env: Env)
    ensures Meaning(Or([IsNull(field), IsNotNull(field)]), env) == True
  {
    var sub := [IsNull(field), IsNotNull(field)];
    assert sub[1..] == [IsNotNull(field)];
    assert SomeTrue([IsNotNull(field)], env) == Or3(Meaning(IsNotNull(field), env), SomeTrue([IsNotNull(field)][1..], env));
    assert SomeTrue(sub, env) == Or3(Meaning(IsNull(field), env), SomeTrue([IsNotNull(field)], env));
  }

  /** For whole trees a double quote need not matter: this one is true of every row either way. */
  lemma QuotedTautology(field: string, env: Env)
    ensures var f := Or([IsNull(field), IsNotNull(field)]); Meaning(f, env) == Meaning(f, Through(env)) == True
  {
    NullOrNot(field, env);
    NullOrNot(field, Through(env));
  }

  /** The parentheses suffice: the printed condition, parsed under SQL precedence and evaluated
      with the parameters bound, gives every row the truth value the tree gives it, reading
      columns without their double quotes. */
  lemma CompiledFaithfully(f: Filter, n: int, env: Env, args: seq<Value>)
    requires WellFormed(f) && Binds(args, n, Args(f))
    ensures ParseCondition(Print(f, n)).Got?
    ensures Evaluate(ParseCondition(Print(f, n)).cond, env, args) == Meaning(f, Through(env))
    ensures CleanFields(f) ==> Evaluate(ParseCondition(Print(f, n)).cond, env, args) == Meaning(f, env)
  {
    assert Print(f, n) + [] == Print(f, n);
    Parses(f, n, []);
    Means(f, n, env, args);
    if CleanFields(f) { CleanMeaning(f, env); }
  }

  // ---------------------------------------------------------------------------
  // Placeholders.

  /** The parameter numbers of a text, left to right. */
  function ParamsOf(ts: seq<Token>): seq<int>
  {
    if ts == [] then []
    else if ts[0].Param? then [ts[0].n] + ParamsOf(ts[1..])
    else ParamsOf(ts[1..])
  }

  lemma {:induction false} ParamsOfConcat(a: seq<Token>, b: seq<Token>)
    ensures ParamsOf(a + b) == ParamsOf(a) + ParamsOf(b)
  {
    if a == [] {
      assert a + b == b;
    } else {
      assert (a + b)[1..] == a[1..] + b;
      ParamsOfConcat(a[1..], b);
    }
  }

  lemma {:induction false} RangeConcat(n: int, a: nat, b: nat)
    ensures Range(n, a) + Range(n + a, b) == Range(n, a + b)
  {
    if b > 0 { RangeConcat(n, a, b - 1); }
  }

  lemma {:induction false} NoParams(ts: seq<Token>)
    requires forall i :: 0 <= i < |ts| ==> !ts[i].Param?
    ensures ParamsOf(ts) == []
  {
    if ts != [] { NoParams(ts[1..]); }
  }

  lemma OneParam(head: seq<Token>, k: int)
    requires forall i :: 0 <= i < |head| ==> !head[i].Param?
    ensures ParamsOf(head + [Param(k)]) == [k]
  {
    NoParams(head);
    ParamsOfConcat(head, [Param(k)]);
  }

  lemma {:induction false} PlaceholderParams(n: int, count: nat)
    ensures ParamsOf(Placeholders(n, count)) == Range(n, count)
  {
    if count == 1 {
      OneParam([], n + 1);
      assert [] + [Param(n + 1)] == [Param(n + 1)];
      assert Range(n, 1) == [n + 1];
    } else if count > 1 {
      PlaceholderParams(n, count - 1);
      OneParam([Comma], n + count);
      ParamsOfConcat(Placeholders(n, count - 1), [Comma, Param(n + count)]);
      assert [Comma] + [Param(n + count)] == [Comma, Param(n + count)];
    }
  }

  /** `build` started at `n` emits exactly `$n+1 .. $n+k`, each once and in order, `k` being the number of values it binds. */
  lemma {:induction false} PrintedParams(f: Filter, n: int)
    ensures ParamsOf(Print(f, n)) == Range(n, |Args(f)|)
    decreases f, 1
  {
    match f
    case And(sub) => AllParams(sub, AndWord, n);
    case Or(sub) => AllParams(sub, OrWord, n);
    case Not(sub) => AllParams(sub, AndWord, n); ParamsOfConcat([NotWord], PrintAll(sub, AndWord, n));
    case In(field, values) => ListParams([Column(Unquoted(field)), InWord, LParen], n, |values|);
    case NotIn(field, values) => ListParams([Column(Unquoted(field)), NotWord, InWord, LParen], n, |values|);
    case _ => LeafParams(f, n);
  }

  lemma ListParams(head: seq<Token>, n: int, count: nat)
    requires forall i :: 0 <= i < |head| ==> !head[i].Param?
    ensures ParamsOf(head + Placeholders(n, count) + [RParen]) == Range(n, count)
  {
    PlaceholderParams(n, count);
    ClosedParams(head, Placeholders(n, count));
  }

  lemma ClosedParams(head: seq<Token>, p: seq<Token>)
    requires forall i :: 0 <= i < |head| ==> !head[i].Param?
    ensures ParamsOf(head + p + [RParen]) == ParamsOf(p)
  {
    NoParams(head);
    NoParams([RParen]);
    ParamsOfConcat(head, p);
    ParamsOfConcat(head + p, [RParen]);
  }

  lemma LeafParams(f: Filter, n: int)
    requires !f.And? && !f.Or? && !f.Not? && !f.In? && !f.NotIn?
    ensures ParamsOf(Print(f, n)) == Range(n, |Args(f)|)
  {
    if f.Between? {
      OneParam([Column(Unquoted(f.field)), BetweenWord], n + 1);
      OneParam([AndWord], n + 2);
      ParamsOfConcat([Column(Unquoted(f.field)), BetweenWord] + [Param(n + 1)], [AndWord] + [Param(n + 2)]);
      assert Print(f, n) == [Column(Unquoted(f.field)), BetweenWord] + [Param(n + 1)] + ([AndWord] + [Param(n + 2)]);
      assert Range(n, 2) == [n + 1, n + 2];
    } else if f.Cmp? || f.Like? {
      OneParam(Print(f, n)[..2], n + 1);
      assert Print(f, n) == Print(f, n)[..2] + [Param(n + 1)];
      assert Range(n, 1) == [n + 1];
    } else {
      NoParams(Print(f, n));
    }
  }

  lemma {:induction false} AllParams(fs: seq<Filter>, word: Token, n: int)
    requires !word.Param?
    ensures ParamsOf(PrintAll(fs, word, n)) == Range(n, |ArgsOfAll(fs)|)
    decreases fs, 0
  {
    if fs != [] {
      var n1 := n + |Args(fs[0])|;
      PrintedParams(fs[0], n);
      MoreParams(fs[1..], word, n1);
      GroupParams([LParen], Print(fs[0], n), PrintMore(fs[1..], word, n1));
      RangeConcat(n, |Args(fs[0])|, |ArgsOfAll(fs[1..])|);
    }
  }

  lemma {:induction false} MoreParams(fs: seq<Filter>, word: Token, n: int)
    requires !word.Param?
    ensures ParamsOf(PrintMore(fs, word, n)) == Range(n, |ArgsOfAll(fs)|)
    decreases fs, 0
  {
    if fs != [] {
      var n1 := n + |Args(fs[0])|;
      PrintedParams(fs[0], n);
      MoreParams(fs[1..], word, n1);
      GroupParams([word, LParen], Print(fs[0], n), PrintMore(fs[1..], word, n1));
      RangeConcat(n, |Args(fs[0])|, |ArgsOfAll(fs[1..])|);
    }
  }

  lemma {:induction false} GroupParams(head: seq<Token>, p: seq<Token>, more: seq<Token>)
    requires forall i :: 0 <= i < |head| ==> !head[i].Param?
    ensures ParamsOf(head + p + [RParen] + more) == ParamsOf(p) + ParamsOf(more)
  {
    ClosedParams(head, p);
    ParamsOfConcat(head + p + [RParen], more);
  }

  // ---------------------------------------------------------------------------
  // The whole query.

  /** The clauses that carry parameters; an absent clause is empty. */
  datatype Query = Query(where: seq<Token>, having: seq<Token>, limit: seq<Token>, offset: seq<Token>, args: seq<Value>)

  function ArgsOf(f: Option<Filter>): seq<Value>
  {
    if f.Some? then Args(f.value) else []
  }

  function PrintOf(f: Option<Filter>, n: int): seq<Token>
  {
    if f.Some? then Print(f.value, n) else []
  }

  predicate SupportedOpt(f: Option<Filter>)
  {
    f.Some? ==> Supported(f.value)
  }

  /** LIMIT and OFFSET take part only when positive. */
  function Positive(k: int): seq<Value>
  {
    if k > 0 then [Number(k)] else []
  }

  /** buildFilterSQL. */
  method BuildFilterSQL(f: Option<Filter>, start: int) returns (ok: bool, toks: seq<Token>, args: seq<Value>)
    ensures ok <==> SupportedOpt(f)
    ensures ok ==> toks == PrintOf(f, start) && args == ArgsOf(f)
  {
    if f.None? { return true, [], []; }
    var b := new FilterBuilder(start);
    var r := b.Build(f.value);
    ok, toks, args := r.Some?, if r.Some? then r.value else [], b.args;
  }

  /** The query as its clauses intend it: WHERE, HAVING, LIMIT and OFFSET number their parameters
      in this order, and the arguments follow suit. */
  ghost predicate Assembled(filters: Option<Filter>, having: Option<Filter>, limit: int, offset: int, q: Query)
  {
    var w, h, l := |ArgsOf(filters)|, |ArgsOf(having)|, |Positive(limit)|;
    && q.args == ArgsOf(filters) + ArgsOf(having) + Positive(limit) + Positive(offset)
    && q.where == PrintOf(filters, 0) && q.having == PrintOf(having, w)
    && q.limit == (if limit > 0 then [Param(w + h + 1)] else [])
    && q.offset == (if offset > 0 then [Param(w + h + l + 1)] else [])
  }

  /** Parameter assembly of GenerateSQL (report.go:267-299 and 337-346). */
  method GenerateSQL(filters: Option<Filter>, having: Option<Filter>, limit: int, offset: int) returns (r: Option<Query>)
    ensures r.Some? <==> SupportedOpt(filters) && SupportedOpt(having)
    ensures r.Some? ==> Assembled(filters, having, limit, offset, r.value)
  {
    var args, argN := [], 0;
    var ok, where, wArgs := BuildFilterSQL(filters, argN);
    if !ok { return None; }
    args, argN := args + wArgs, argN + |wArgs|;
    var having', hArgs;
    ok, having', hArgs := BuildFilterSQL(having, argN);
    if !ok { return None; }
    args, argN := args + hArgs, argN + |hArgs|;
    var limit', offset';
    limit', args, argN := BindPositive(limit, args, argN);
    offset', args, argN := BindPositive(offset, args, argN);
    r := Some(Query(where, having', limit', offset', args));
  }

  /** LIMIT and OFFSET: bound as the next parameter when positive. */
  method BindPositive(k: int, args: seq<Value>, argN: int) returns (toks: seq<Token>, args': seq<Value>, argN': int)
    ensures toks == (if k > 0 then [Param(argN + 1)] else []) && args' == args + Positive(k) && argN' == argN + |Positive(k)|
  {
    toks, args', argN' := [], args, argN;
    if k > 0 {
      argN' := argN' + 1;
      args' := args' + [Number(k)];
      toks := [Param(argN')];
    }
  }

  /** Read left to right, the placeholders of a generated query are `$1 .. $len(args)`, each once. */
  lemma QueryPlaceholders(filters: Option<Filter>, having: Option<Filter>, limit: int, offset: int, q: Query)
    requires Assembled(filters, having, limit, offset, q)
    ensures ParamsOf(q.where + q.having + q.limit + q.offset) == Range(0, |q.args|)
  {
    var w, h, l, o := |ArgsOf(filters)|, |ArgsOf(having)|, |Positive(limit)|, |Positive(offset)|;
    ClauseParams(filters, 0);
    ClauseParams(having, w);
    SingleParam(w + h, limit, q.limit);
    SingleParam(w + h + l, offset, q.offset);
    ParamsOfFour(q.where, q.having, q.limit, q.offset);
    RangeOfFour(w, h, l, o);
  }

  lemma ParamsOfFour(a: seq<Token>, b: seq<Token>, c: seq<Token>, d: seq<Token>)
    ensures ParamsOf(a + b + c + d) == ParamsOf(a) + ParamsOf(b) + ParamsOf(c) + ParamsOf(d)
  {
    ParamsOfConcat(a, b);
    ParamsOfConcat(a + b, c);
    ParamsOfConcat(a + b + c, d);
  }

  lemma RangeOfFour(a: nat, b: nat, c: nat, d: nat)
    ensures Range(0, a + b + c + d) == Range(0, a) + Range(a, b) + Range(a + b, c) + Range(a + b + c, d)
  {
    RangeConcat(0, a, b);
    RangeConcat(0, a + b, c);
    RangeConcat(0, a + b + c, d);
  }

  lemma ClauseParams(f: Option<Filter>, n: int)
    ensures ParamsOf(PrintOf(f, n)) == Range(n, |ArgsOf(f)|)
  {
    if f.Some? { PrintedParams(f.value, n); }
  }

  lemma SingleParam(n: int, k: int, ts: seq<Token>)
    requires ts == if k > 0 then [Param(n + 1)] else []
    ensures ParamsOf(ts) == Range(n, |Positive(k)|)
  {
    if k > 0 {
      OneParam([], n + 1);
      assert [] + [Param(n + 1)] == ts;
      assert Range(n, 1) == [n + 1];
    }
  }

  lemma ArgsLayout(a: seq<Value>, b: seq<Value>, limit: int, offset: int)
    ensures var args := a + b + Positive(limit) + Positive(offset);
            && Binds(args, 0, a) && Binds(args, |a|, b)
            && (limit > 0 ==> Bound(args, |a| + |b| + 1) == Number(limit))
            && (offset > 0 ==> Bound(args, |a| + |b| + |Positive(limit)| + 1) == Number(offset))
  {
    var args := a + b + Positive(limit) + Positive(offset);
    assert args[0..|a|] == a;
    assert args[|a|..|a| + |b|] == b;
  }

  /** What a WHERE or HAVING clause makes of a row: an empty text leaves the clause out, which keeps
      every row; None stands for a text that is not SQL. */
  function Keeps(ts: seq<Token>, env: Env, args: seq<Value>): Option<Truth>
  {
    if ts == [] then Some(True)
    else
      var c := ParseCondition(ts);
      if c.Got? then Some(Evaluate(c.cond, env, args)) else None
  }

  /** The clause keeps exactly what the tree says. */
  predicate ClauseMeans(ts: seq<Token>, f: Filter, env: Env, args: seq<Value>)
  {
    Keeps(ts, env, args) == Some(Meaning(f, env))
  }

  /** The same with the tree's columns read without their double quotes. */
  predicate ClauseReads(ts: seq<Token>, f: Filter, env: Env, args: seq<Value>)
  {
    Keeps(ts, env, args) == Some(Meaning(f, Through(env)))
  }

  lemma EmptyText(f: Filter, n: int)
    requires Supported(f)
    ensures Print(f, n) == [] <==> f == And([]) || f == Or([])
  { }

  /** Nothing in the tree is empty, or it is the empty AND itself. */
  predicate Expressible(f: Filter)
  {
    WellFormed(f) || f == And([])
  }

  /** For every supported tree without double quotes in its field names: its clause means what the
      tree means exactly when no list in it is empty, or it is the empty AND itself. The empty OR,
      which no row meets, keeps every row. With double quotes the same holds of the tree whose
      columns have lost them. */
  lemma ClauseMeansIff(f: Filter, n: int, env: Env, args: seq<Value>)
    requires Supported(f) && Binds(args, n, Args(f))
    ensures ClauseReads(Print(f, n), f, env, args) <==> Expressible(f)
    ensures CleanFields(f) ==> (ClauseMeans(Print(f, n), f, env, args) <==> Expressible(f))
  {
    EmptyText(f, n);
    ValidSqlIff(f, n);
    if WellFormed(f) { CompiledFaithfully(f, n, env, args); }
    if CleanFields(f) { CleanMeaning(f, env); }
  }

  /** In a generated query each condition means what its tree means, under exactly the conditions of
      ClauseMeansIff, and LIMIT and OFFSET are bound to their own values. */
  lemma QueryMeans(filters: Option<Filter>, having: Option<Filter>, limit: int, offset: int, q: Query, env: Env)
    requires SupportedOpt(filters) && SupportedOpt(having)
    requires Assembled(filters, having, limit, offset, q)
    ensures filters.Some? && CleanFields(filters.value) ==>
              (ClauseMeans(q.where, filters.value, env, q.args) <==> Expressible(filters.value))
    ensures having.Some? && CleanFields(having.value) ==>
              (ClauseMeans(q.having, having.value, env, q.args) <==> Expressible(having.value))
    ensures filters.Some? ==> (ClauseReads(q.where, filters.value, env, q.args) <==> Expressible(filters.value))
    ensures having.Some? ==> (ClauseReads(q.having, having.value, env, q.args) <==> Expressible(having.value))
    ensures limit > 0 ==> Bound(q.args, |ArgsOf(filters)| + |ArgsOf(having)| + 1) == Number(limit)
    ensures offset > 0 ==> Bound(q.args, |ArgsOf(filters)| + |ArgsOf(having)| + |Positive(limit)| + 1) == Number(offset)
  {
    ArgsLayout(ArgsOf(filters), ArgsOf(having), limit, offset);
    if filters.Some? { ClauseMeansIff(filters.value, 0, env, q.args); }
    if having.Some? { ClauseMeansIff(having.value, |ArgsOf(filters)|, env, q.args); }
  }
}
