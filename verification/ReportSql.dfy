/** The report query generator's filter compiler: filterBuilder and the parameter assembly of
    GenerateSQL in awo/report/report.go. */
module ReportSql {
  import opened Options
  import opened SqlCondition

  /** `quote` drops double quotes from an identifier. */
  function Unquoted(id: string): string
  {
    if id == "" then "" else (if id[0] == '"' then "" else [id[0]]) + Unquoted(id[1..])
  }

  /** The ILIKE pattern of a substring, prefix or suffix match. */
  function Pattern(kind: LikeKind, text: string): Value
  {
    match kind
    case Contains => Text("%" + text + "%")
    case StartsWith => Text(text + "%")
    case EndsWith => Text("%" + text)
  }

  // ---------------------------------------------------------------------------
  // What `build` prints and binds.

  /** The parameter values of a filter, in the order in which they are bound. */
  function Args(f: Filter): seq<Value>
    decreases f, 1
  {
    match f
    case Cmp(_, _, value) => [value]
    case IsNull(_) => []
    case IsNotNull(_) => []
    case Like(kind, _, text) => [Pattern(kind, text)]
    case In(_, values) => values
    case NotIn(_, values) => values
    case Between(_, lo, hi) => [lo, hi]
    case And(sub) => ArgsOfAll(sub)
    case Or(sub) => ArgsOfAll(sub)
    case Not(sub) => ArgsOfAll(sub)
    case Custom(_) => []
  }

  function ArgsOfAll(fs: seq<Filter>): seq<Value>
    decreases fs, 0
  {
    if fs == [] then [] else Args(fs[0]) + ArgsOfAll(fs[1..])
  }

  /** `$n+1, $n+2, ...` separated by commas. */
  function Placeholders(n: int, count: nat): seq<Token>
  {
    if count == 0 then [] else if count == 1 then [Param(n + 1)]
    else Placeholders(n, count - 1) + [Comma, Param(n + count)]
  }

  /** The tokens of a filter whose parameters are numbered from `n + 1`. */
  function Print(f: Filter, n: int): seq<Token>
    decreases f, 1
  {
    match f
    case Cmp(op, field, _) => [Column(Unquoted(field)), Operator(op), Param(n + 1)]
    case IsNull(field) => [Column(Unquoted(field)), IsWord, NullWord]
    case IsNotNull(field) => [Column(Unquoted(field)), IsWord, NotWord, NullWord]
    case Like(_, field, _) => [Column(Unquoted(field)), ILikeWord, Param(n + 1)]
    case In(field, values) => [Column(Unquoted(field)), InWord, LParen] + Placeholders(n, |values|) + [RParen]
    case NotIn(field, values) => [Column(Unquoted(field)), NotWord, InWord, LParen] + Placeholders(n, |values|) + [RParen]
    case Between(field, _, _) => [Column(Unquoted(field)), BetweenWord, Param(n + 1), AndWord, Param(n + 2)]
    case And(sub) => PrintAll(sub, AndWord, n)
    case Or(sub) => PrintAll(sub, OrWord, n)
    case Not(sub) => [NotWord] + PrintAll(sub, AndWord, n)
    case Custom(_) => []
  }

  /** Children in parentheses, joined by `word`. */
  function PrintAll(fs: seq<Filter>, word: Token, n: int): seq<Token>
    decreases fs, 0
  {
    if fs == [] then [] else [LParen] + Print(fs[0], n) + [RParen] + PrintMore(fs[1..], word, n + |Args(fs[0])|)
  }

  function PrintMore(fs: seq<Filter>, word: Token, n: int): seq<Token>
    decreases fs, 0
  {
    if fs == [] then []
    else [word, LParen] + Print(fs[0], n) + [RParen] + PrintMore(fs[1..], word, n + |Args(fs[0])|)
  }

  /** `build` returns an error for custom kinds and for NOT without exactly one child. */
  predicate Supported(f: Filter)
    decreases f
  {
    match f
    case And(sub) => forall c :: c in sub ==> Supported(c)
    case Or(sub) => forall c :: c in sub ==> Supported(c)
    case Not(sub) => |sub| == 1 && Supported(sub[0])
    case Custom(_) => false
    case _ => true
  }

  /** Lists that SQL does not allow to be empty are not. */
  predicate WellFormed(f: Filter)
    decreases f
  {
    match f
    case In(_, values) => values != []
    case NotIn(_, values) => values != []
    case And(sub) => sub != [] && forall c :: c in sub ==> WellFormed(c)
    case Or(sub) => sub != [] && forall c :: c in sub ==> WellFormed(c)
    case Not(sub) => |sub| == 1 && WellFormed(sub[0])
    case Custom(_) => false
    case _ => true
  }

  /** The row as the generated text addresses it: column names lose their double quotes. */
  function Through(env: Env): Env
  {
    env.(row := (c: string) => env.row(Unquoted(c)))
  }

  /** No field name contains a double quote. */
  predicate CleanFields(f: Filter)
    decreases f
  {
    match f
    case And(sub) => forall c :: c in sub ==> CleanFields(c)
    case Or(sub) => forall c :: c in sub ==> CleanFields(c)
    case Not(sub) => forall c :: c in sub ==> CleanFields(c)
    case Custom(_) => true
    case _ => '"' !in f.field
  }

  // ---------------------------------------------------------------------------
  // The builder.

  /** strings.Join(parts, " AND ") and the like. */
  function Join(parts: seq<seq<Token>>, word: Token): seq<Token>
  {
    if parts == [] then [] else if |parts| == 1 then parts[0]
    else Join(parts[..|parts| - 1], word) + [word] + parts[|parts| - 1]
  }

  lemma {:induction false} PrintMoreAppend(fs: seq<Filter>, f: Filter, word: Token, n: int)
    ensures PrintMore(fs + [f], word, n) == PrintMore(fs, word, n) + [word, LParen] + Print(f, n + |ArgsOfAll(fs)|) + [RParen]
  {
    if fs == [] {
      assert ([] + [f])[1..] == [] && ([] + [f])[0] == f;
    } else {
      assert (fs + [f])[1..] == fs[1..] + [f];
      PrintMoreAppend(fs[1..], f, word, n + |Args(fs[0])|);
    }
  }

  lemma Regroup(a: seq<Token>, m: seq<Token>, word: Token, p: seq<Token>)
    ensures a + (m + [word, LParen] + p + [RParen]) == (a + m + [word]) + ([LParen] + p + [RParen])
  { }

  lemma {:induction false} PrintAllAppend(fs: seq<Filter>, f: Filter, word: Token, n: int)
    ensures PrintAll(fs + [f], word, n) ==
            (if fs == [] then [] else PrintAll(fs, word, n) + [word]) + ([LParen] + Print(f, n + |ArgsOfAll(fs)|) + [RParen])
  {
    if fs == [] {
      assert ([] + [f])[1..] == [] && ([] + [f])[0] == f;
    } else {
      var all, n1 := fs + [f], n + |Args(fs[0])|;
      assert all[1..] == fs[1..] + [f] && all[0] == fs[0];
      var head := [LParen] + Print(fs[0], n) + [RParen];
      var p := Print(f, n1 + |ArgsOfAll(fs[1..])|);
      PrintMoreAppend(fs[1..], f, word, n1);
      assert PrintAll(all, word, n) == head + (PrintMore(fs[1..], word, n1) + [word, LParen] + p + [RParen]);
      Regroup(head, PrintMore(fs[1..], word, n1), word, p);
    }
  }

  lemma {:induction false} ArgsAppend(fs: seq<Filter>, f: Filter)
    ensures ArgsOfAll(fs + [f]) == ArgsOfAll(fs) + Args(f)
  {
    if fs == [] {
      assert ([] + [f])[1..] == [];
    } else {
      assert (fs + [f])[1..] == fs[1..] + [f];
      ArgsAppend(fs[1..], f);
    }
  }

  /** Joining one more operand. */
  lemma {:induction false} JoinOne(fs: seq<Filter>, i: nat, word: Token, n: int, parts: seq<seq<Token>>, text: seq<Token>)
    requires i < |fs| && |parts| == i && Join(parts, word) == PrintAll(fs[..i], word, n)
    requires text == Print(fs[i], n + |ArgsOfAll(fs[..i])|)
    ensures Join(parts + [[LParen] + text + [RParen]], word) == PrintAll(fs[..i + 1], word, n)
    ensures ArgsOfAll(fs[..i + 1]) == ArgsOfAll(fs[..i]) + Args(fs[i])
  {
    assert fs[..i + 1] == fs[..i] + [fs[i]];
    PrintAllAppend(fs[..i], fs[i], word, n);
    ArgsAppend(fs[..i], fs[i]);
    assert (parts + [[LParen] + text + [RParen]])[..i] == parts;
  }

  class FilterBuilder {
    var n: int
    var args: seq<Value>

    constructor (start: int)
      ensures n == start && args == []
    {
      n, args := start, [];
    }

    method Bind(v: Value) returns (t: Token)
      modifies this
      ensures n == old(n) + 1 && args == old(args) + [v] && t == Param(n)
    {
      n := n + 1;
      args := args + [v];
      t := Param(n);
    }

    /** The placeholder list of IN and NOT IN. */
    method BindAll(values: seq<Value>) returns (toks: seq<Token>)
      modifies this
      ensures n == old(n) + |values| && args == old(args) + values
      ensures toks == Placeholders(old(n), |values|)
    {
      toks := [];
      for i := 0 to |values|
        invariant n == old(n) + i && args == old(args) + values[..i] && toks == Placeholders(old(n), i)
      {
        var t := Bind(values[i]);
        assert values[..i + 1] == values[..i] + [values[i]];
        toks := if i == 0 then [t] else toks + [Comma, t];
      }
      assert values[..|values|] == values;
    }

    /** The loop over the children of AND and OR. */
    method BuildAll(fs: seq<Filter>, word: Token) returns (r: Option<seq<Token>>)
      modifies this
      ensures r.Some? <==> forall c :: c in fs ==> Supported(c)
      ensures r.Some? ==> r.value == PrintAll(fs, word, old(n)) && n == old(n) + |ArgsOfAll(fs)| && args == old(args) + ArgsOfAll(fs)
      decreases fs, 0
    {
      var parts: seq<seq<Token>> := [];
      var i := 0;
      while i < |fs|
        invariant 0 <= i <= |fs| && |parts| == i
        invariant forall k :: 0 <= k < i ==> Supported(fs[k])
        invariant Join(parts, word) == PrintAll(fs[..i], word, old(n))
        invariant n == old(n) + |ArgsOfAll(fs[..i])| && args == old(args) + ArgsOfAll(fs[..i])
      {
        var s := Build(fs[i]);
        if s.None? { return None; }
        JoinOne(fs, i, word, old(n), parts, s.value);
        parts := parts + [[LParen] + s.value + [RParen]];
        i := i + 1;
      }
      assert fs[..i] == fs;
      r := Some(Join(parts, word));
    }

    /** Fails exactly on unsupported trees; otherwise it prints the filter with its parameters
        numbered on from `n`, and appends exactly their values. */
    method Build(f: Filter) returns (r: Option<seq<Token>>)
      modifies this
      ensures r.Some? <==> Supported(f)
      ensures r.Some? ==> r.value == Print(f, old(n)) && n == old(n) + |Args(f)| && args == old(args) + Args(f)
      decreases f, 1
    {
      match f
      case And(sub) =>
        r := BuildAll(sub, AndWord);
      case Or(sub) =>
        r := BuildAll(sub, OrWord);
      case Not(sub) =>
        if |sub| != 1 { return None; }
        var s := Build(sub[0]);
        if s.None? { return None; }
        SingleChild(sub, old(n));
        r := Some([NotWord, LParen] + s.value + [RParen]);
      case Cmp(op, field, value) =>
        var t := Bind(value);
        r := Some([Column(Unquoted(field)), Operator(op), t]);
      case IsNull(field) =>
        r := Some([Column(Unquoted(field)), IsWord, NullWord]);
      case IsNotNull(field) =>
        r := Some([Column(Unquoted(field)), IsWord, NotWord, NullWord]);
      case Like(kind, field, text) =>
        var t := Bind(Pattern(kind, text));
        r := Some([Column(Unquoted(field)), ILikeWord, t]);
      case In(field, values) =>
        var ts := BindAll(values);
        r := Some([Column(Unquoted(field)), InWord, LParen] + ts + [RParen]);
      case NotIn(field, values) =>
        var ts := BindAll(values);
        r := Some([Column(Unquoted(field)), NotWord, InWord, LParen] + ts + [RParen]);
      case Between(field, lo, hi) =>
        var t := Bind(lo);
        var u := Bind(hi);
        r := Some([Column(Unquoted(field)), BetweenWord, t, AndWord, u]);
      case Custom(_) =>
        r := None;
    }
  }

  lemma SingleChild(sub: seq<Filter>, n: int)
    requires |sub| == 1
    ensures [NotWord] + PrintAll(sub, AndWord, n) == [NotWord, LParen] + Print(sub[0], n) + [RParen]
    ensures ArgsOfAll(sub) == Args(sub[0])
  {
    assert sub[1..] == [];
  }
}
