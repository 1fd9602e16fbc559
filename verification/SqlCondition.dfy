/** Filter trees (awo/filter/filter.go), SQL conditions over numbered parameters, and their
    three-valued meanings. Operator precedence follows section 4.1.6 of the PostgreSQL manual:
    NOT binds tighter than AND, AND tighter than OR, and the AND of BETWEEN belongs to it. */
module SqlCondition {

  datatype Value = Null | Text(text: string) | Number(number: int) | Other(id: int)

  datatype CmpOp = Eq | Neq | Gt | Gte | Lt | Lte

  datatype LikeKind = Contains | StartsWith | EndsWith

  datatype Filter =
    | Cmp(op: CmpOp, field: string, value: Value)
    | IsNull(field: string)
    | IsNotNull(field: string)
    | Like(kind: LikeKind, field: string, text: string)
    | In(field: string, values: seq<Value>)
    | NotIn(field: string, values: seq<Value>)
    | Between(field: string, lo: Value, hi: Value)
    | And(sub: seq<Filter>)
    | Or(sub: seq<Filter>)
    | Not(sub: seq<Filter>)
    | Custom(customKind: string)

  // ---------------------------------------------------------------------------
  // Three-valued logic.

  datatype Truth = True | False | Unknown

  function And3(a: Truth, b: Truth): Truth
  {
    if a == False || b == False then False else if a == True && b == True then True else Unknown
  }

  function Or3(a: Truth, b: Truth): Truth
  {
    if a == True || b == True then True else if a == False && b == False then False else Unknown
  }

  function Not3(a: Truth): Truth
  {
    match a case True => False case False => True case Unknown => Unknown
  }

  /** A row together with the database's comparison operators. */
  datatype Env = Env(row: string -> Value, cmp: (CmpOp, Value, Value) -> Truth, ilike: (Value, Value) -> Truth)

  function IsNull3(v: Value): Truth
  {
    if v == Null then True else False
  }

  /** `v IN (values)`: some element compares equal. */
  function AmongTruth(cmp: (CmpOp, Value, Value) -> Truth, v: Value, values: seq<Value>): Truth
  {
    if values == [] then False
    else Or3(AmongTruth(cmp, v, values[..|values| - 1]), cmp(Eq, v, values[|values| - 1]))
  }

  function BetweenTruth(env: Env, v: Value, lo: Value, hi: Value): Truth
  {
    And3(env.cmp(Gte, v, lo), env.cmp(Lte, v, hi))
  }

  /** What a filter tree says about a row. */
  function Meaning(f: Filter, env: Env): Truth
    decreases f, 1
  {
    match f
    case Cmp(op, field, value) => env.cmp(op, env.row(field), value)
    case IsNull(field) => IsNull3(env.row(field))
    case IsNotNull(field) => Not3(IsNull3(env.row(field)))
    case Like(Contains, field, text) => env.ilike(env.row(field), Text("%" + text + "%"))
    case Like(StartsWith, field, text) => env.ilike(env.row(field), Text(text + "%"))
    case Like(EndsWith, field, text) => env.ilike(env.row(field), Text("%" + text))
    case In(field, values) => AmongTruth(env.cmp, env.row(field), values)
    case NotIn(field, values) => Not3(AmongTruth(env.cmp, env.row(field), values))
    case Between(field, lo, hi) => BetweenTruth(env, env.row(field), lo, hi)
    case And(sub) => AllTrue(sub, env)
    case Or(sub) => SomeTrue(sub, env)
    case Not(sub) => if |sub| == 1 then Not3(Meaning(sub[0], env)) else Unknown
    case Custom(_) => Unknown
  }

  function AllTrue(fs: seq<Filter>, env: Env): Truth
    decreases fs, 0
  {
    if fs == [] then True else And3(Meaning(fs[0], env), AllTrue(fs[1..], env))
  }

  function SomeTrue(fs: seq<Filter>, env: Env): Truth
    decreases fs, 0
  {
    if fs == [] then False else Or3(Meaning(fs[0], env), SomeTrue(fs[1..], env))
  }

  // ---------------------------------------------------------------------------
  // The connectives, said without their tables.

  /** False below Unknown below True. */
  function Rank(t: Truth): int
  {
    match t case False => 0 case Unknown => 1 case True => 2
  }

  /** AND is the lower of two truth values, OR the higher, and NOT turns the scale round. */
  lemma Connectives(a: Truth, b: Truth)
    ensures Rank(And3(a, b)) == if Rank(a) <= Rank(b) then Rank(a) else Rank(b)
    ensures Rank(Or3(a, b)) == if Rank(a) <= Rank(b) then Rank(b) else Rank(a)
    ensures Rank(Not3(a)) == 2 - Rank(a)
  { }

  /** IN is true when some element compares equal and false when every one compares unequal. */
  lemma {:induction false} AmongIff(cmp: (CmpOp, Value, Value) -> Truth, v: Value, values: seq<Value>)
    ensures AmongTruth(cmp, v, values) == True <==> exists i :: 0 <= i < |values| && cmp(Eq, v, values[i]) == True
    ensures AmongTruth(cmp, v, values) == False <==> forall i :: 0 <= i < |values| ==> cmp(Eq, v, values[i]) == False
  {
    if values != [] {
      var init, last := values[..|values| - 1], values[|values| - 1];
      AmongIff(cmp, v, init);
      assert forall i :: 0 <= i < |init| ==> init[i] == values[i];
      if i :| 0 <= i < |init| && cmp(Eq, v, init[i]) == True { assert cmp(Eq, v, values[i]) == True; }
    }
  }

  lemma BetweenIff(env: Env, v: Value, lo: Value, hi: Value)
    ensures BetweenTruth(env, v, lo, hi) == True <==> env.cmp(Gte, v, lo) == True && env.cmp(Lte, v, hi) == True
    ensures BetweenTruth(env, v, lo, hi) == False <==> env.cmp(Gte, v, lo) == False || env.cmp(Lte, v, hi) == False
  { }

  /** A conjunction is true when every part is and false when some part is. */
  lemma {:induction false} AllTrueIff(fs: seq<Filter>, env: Env)
    ensures AllTrue(fs, env) == True <==> forall i :: 0 <= i < |fs| ==> Meaning(fs[i], env) == True
    ensures AllTrue(fs, env) == False <==> exists i :: 0 <= i < |fs| && Meaning(fs[i], env) == False
  {
    if fs != [] {
      AllTrueIff(fs[1..], env);
      assert forall i :: 0 <= i < |fs[1..]| ==> fs[1..][i] == fs[i + 1];
      assert forall i :: 1 <= i < |fs| ==> fs[i] == fs[1..][i - 1];
    }
  }

  lemma {:induction false} SomeTrueIff(fs: seq<Filter>, env: Env)
    ensures SomeTrue(fs, env) == True <==> exists i :: 0 <= i < |fs| && Meaning(fs[i], env) == True
    ensures SomeTrue(fs, env) == False <==> forall i :: 0 <= i < |fs| ==> Meaning(fs[i], env) == False
  {
    if fs != [] {
      SomeTrueIff(fs[1..], env);
      assert forall i :: 0 <= i < |fs[1..]| ==> fs[1..][i] == fs[i + 1];
      assert forall i :: 1 <= i < |fs| ==> fs[i] == fs[1..][i - 1];
    }
  }

  // ---------------------------------------------------------------------------
  // SQL text as tokens, and its grammar.

  datatype Token =
    | LParen | RParen | Comma
    | AndWord | OrWord | NotWord | IsWord | NullWord | InWord | BetweenWord | ILikeWord
    | Column(name: string)
    | Operator(op: CmpOp)
    | Param(n: int)

  datatype Condition =
    | CAnd(left: Condition, right: Condition)
    | COr(left: Condition, right: Condition)
    | CNot(operand: Condition)
    | CCmp(op: CmpOp, column: string, param: int)
    | CNull(column: string)
    | CNotNull(column: string)
    | CLike(column: string, param: int)
    | CIn(column: string, params: seq<int>)
    | CNotIn(column: string, params: seq<int>)
    | CBetween(column: string, low: int, high: int)

  function Bound(args: seq<Value>, k: int): Value
  {
    if 1 <= k <= |args| then args[k - 1] else Null
  }

  function BoundAll(args: seq<Value>, ks: seq<int>): seq<Value>
  {
    seq(|ks|, i requires 0 <= i < |ks| => Bound(args, ks[i]))
  }

  /** What the database makes of a parsed condition. */
  function Evaluate(c: Condition, env: Env, args: seq<Value>): Truth
  {
    match c
    case CAnd(l, r) => And3(Evaluate(l, env, args), Evaluate(r, env, args))
    case COr(l, r) => Or3(Evaluate(l, env, args), Evaluate(r, env, args))
    case CNot(o) => Not3(Evaluate(o, env, args))
    case CCmp(op, col, k) => env.cmp(op, env.row(col), Bound(args, k))
    case CNull(col) => IsNull3(env.row(col))
    case CNotNull(col) => Not3(IsNull3(env.row(col)))
    case CLike(col, k) => env.ilike(env.row(col), Bound(args, k))
    case CIn(col, ks) => AmongTruth(env.cmp, env.row(col), BoundAll(args, ks))
    case CNotIn(col, ks) => Not3(AmongTruth(env.cmp, env.row(col), BoundAll(args, ks)))
    case CBetween(col, lo, hi) => BetweenTruth(env, env.row(col), Bound(args, lo), Bound(args, hi))
  }

  datatype Parsed = Fail | Got(cond: Condition, rest: seq<Token>)

  predicate Starts(ts: seq<Token>, t: Token)
  {
    ts != [] && ts[0] == t
  }

  /** disjunction := conjunction { OR conjunction } */
  function ParseOr(ts: seq<Token>): (p: Parsed)
    ensures p.Got? ==> |p.rest| < |ts|
    decreases |ts|, 3
  {
    var p := ParseAnd(ts);
    if p.Fail? then Fail else OrTail(p.cond, p.rest)
  }

  function OrTail(left: Condition, ts: seq<Token>): (p: Parsed)
    ensures p.Got? ==> |p.rest| <= |ts|
    decreases |ts|, 3
  {
    if !Starts(ts, OrWord) then Got(left, ts)
    else
      var p := ParseAnd(ts[1..]);
      if p.Fail? then Fail else OrTail(COr(left, p.cond), p.rest)
  }

  /** conjunction := negation { AND negation } */
  function ParseAnd(ts: seq<Token>): (p: Parsed)
    ensures p.Got? ==> |p.rest| < |ts|
    decreases |ts|, 2
  {
    var p := ParseNot(ts);
    if p.Fail? then Fail else AndTail(p.cond, p.rest)
  }

  function AndTail(left: Condition, ts: seq<Token>): (p: Parsed)
    ensures p.Got? ==> |p.rest| <= |ts|
    decreases |ts|, 2
  {
    if !Starts(ts, AndWord) then Got(left, ts)
    else
      var p := ParseNot(ts[1..]);
      if p.Fail? then Fail else AndTail(CAnd(left, p.cond), p.rest)
  }

  /** negation := NOT negation | primary */
  function ParseNot(ts: seq<Token>): (p: Parsed)
    ensures p.Got? ==> |p.rest| < |ts|
    decreases |ts|, 1
  {
    if Starts(ts, NotWord) then
      var p := ParseNot(ts[1..]);
      if p.Fail? then Fail else Got(CNot(p.cond), p.rest)
    else ParsePrimary(ts)
  }

  /** primary := ( disjunction ) | column predicate */
  function ParsePrimary(ts: seq<Token>): (p: Parsed)
    ensures p.Got? ==> |p.rest| < |ts|
    decreases |ts|, 0
  {
    if Starts(ts, LParen) then
      var p := ParseOr(ts[1..]);
      if p.Got? && Starts(p.rest, RParen) then Got(p.cond, p.rest[1..]) else Fail
    else if ts != [] && ts[0].Column? then ParsePredicate(ts[0].name, ts[1..])
    else Fail
  }

  /** predicate := op $n | IS [NOT] NULL | ILIKE $n | [NOT] IN ( $n {, $n} ) | BETWEEN $n AND $n */
  function ParsePredicate(col: string, ts: seq<Token>): (p: Parsed)
    ensures p.Got? ==> |p.rest| < |ts|
  {
    if |ts| >= 2 && ts[0].Operator? && ts[1].Param? then Got(CCmp(ts[0].op, col, ts[1].n), ts[2..])
    else if |ts| >= 2 && ts[0] == IsWord && ts[1] == NullWord then Got(CNull(col), ts[2..])
    else if |ts| >= 3 && ts[0] == IsWord && ts[1] == NotWord && ts[2] == NullWord then Got(CNotNull(col), ts[3..])
    else if |ts| >= 2 && ts[0] == ILikeWord && ts[1].Param? then Got(CLike(col, ts[1].n), ts[2..])
    else if |ts| >= 4 && ts[0] == BetweenWord && ts[1].Param? && ts[2] == AndWord && ts[3].Param? then
      Got(CBetween(col, ts[1].n, ts[3].n), ts[4..])
    else if |ts| >= 3 && ts[0] == InWord && ts[1] == LParen && ts[2].Param? then
      var l := ParseParams([ts[2].n], ts[3..]);
      if l.NoList? then Fail else Got(CIn(col, l.params), l.rest)
    else if |ts| >= 4 && ts[0] == NotWord && ts[1] == InWord && ts[2] == LParen && ts[3].Param? then
      var l := ParseParams([ts[3].n], ts[4..]);
      if l.NoList? then Fail else Got(CNotIn(col, l.params), l.rest)
    else Fail
  }

  datatype ParamList = NoList | List(params: seq<int>, rest: seq<Token>)

  /** The rest of a parameter list after its first parameter, up to the closing parenthesis. */
  function ParseParams(seen: seq<int>, ts: seq<Token>): (l: ParamList)
    ensures l.List? ==> |l.rest| < |ts|
    decreases |ts|
  {
    if Starts(ts, RParen) then List(seen, ts[1..])
    else if |ts| >= 2 && ts[0] == Comma && ts[1].Param? then ParseParams(seen + [ts[1].n], ts[2..])
    else NoList
  }

  /** A whole WHERE or HAVING condition. */
  function ParseCondition(ts: seq<Token>): Parsed
  {
    var p := ParseOr(ts);
    if p.Got? && p.rest == [] then p else Fail
  }
}
