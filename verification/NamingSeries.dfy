/** Rendering identifiers and allocating them: Render in awo/naming/pattern.go and
    awo/naming/service.go. */
module NamingSeries {
  import opened Names
  import opened Decimal
  import opened NamingPattern

  /** A calendar date; a zero `Now` has been replaced by the clock. */
  datatype Instant = Instant(year: nat, month: nat, day: nat)

  predicate ValidInstant(t: Instant)
  {
    t.year <= 9999 && 1 <= t.month <= 12 && 1 <= t.day <= 31
  }

  datatype Vars = Vars(now: Instant, orgCode: string, fiscalLabel: string, sequence: nat)

  datatype Input = Input(tenant: string, pattern: string, orgCode: string, fiscalLabel: string, now: Instant)

  /** A UUID prints as 36 characters. */
  predicate ValidInput(i: Input)
  {
    |i.tenant| == 36 && ValidInstant(i.now)
  }

  // ---------------------------------------------------------------------------
  // Rendering.

  function RenderToken(t: Token, v: Vars): string
  {
    match t
    case Literal(text) => text
    case YYYY => Pad(4, v.now.year)
    case YY => Pad(2, v.now.year % 100)
    case MM => Pad(2, v.now.month)
    case DD => Pad(2, v.now.day)
    case YYYYMM => Pad(4, v.now.year) + Pad(2, v.now.month)
    case FY => if v.fiscalLabel != "" then v.fiscalLabel else "FY" + Pad(4, v.now.year)
    case ORG => v.orgCode
    case SEQ(w) => Pad(if w < 1 then 6 else w, v.sequence)
  }

  function RenderSpec(ts: seq<Token>, v: Vars): string
  {
    if ts == [] then "" else RenderSpec(ts[..|ts| - 1], v) + RenderToken(ts[|ts| - 1], v)
  }

  method Render(ts: seq<Token>, v: Vars) returns (s: string)
    ensures s == RenderSpec(ts, v)
    ensures Shown(ts, v, s)
  {
    RenderShows(ts, v);
    s := "";
    for i := 0 to |ts|
      invariant s == RenderSpec(ts[..i], v)
    {
      assert ts[..i + 1][..i] == ts[..i];
      s := s + RenderToken(ts[i], v);
    }
    assert ts[..|ts|] == ts;
  }

  // ---------------------------------------------------------------------------
  // What a rendering shows.

  /** What each token contributes, said without rendering it. */
  ghost predicate Shows(t: Token, v: Vars, part: string)
  {
    match t
    case Literal(text) => part == text
    case YYYY => ShowsNumber(part, 4, v.now.year)
    case YY => ShowsNumber(part, 2, v.now.year % 100)
    case MM => ShowsNumber(part, 2, v.now.month)
    case DD => ShowsNumber(part, 2, v.now.day)
    case YYYYMM => ShowsYearMonth(part, v.now)
    case FY => part == v.fiscalLabel != "" || (v.fiscalLabel == "" && exists y :: part == "FY" + y && ShowsNumber(y, 4, v.now.year))
    case ORG => part == v.orgCode
    case SEQ(w) => ShowsNumber(part, if w < 1 then 6 else w, v.sequence)
  }

  ghost predicate ShowsYearMonth(part: string, now: Instant)
  {
    exists y, m :: part == y + m && ShowsNumber(y, 4, now.year) && ShowsNumber(m, 2, now.month)
  }

  function Joined(parts: seq<string>): string
  {
    if parts == [] then "" else Joined(parts[..|parts| - 1]) + parts[|parts| - 1]
  }

  /** The parts of `s`, one for each token, show what the tokens ask for. */
  ghost predicate Shown(ts: seq<Token>, v: Vars, s: string)
  {
    exists parts :: s == Joined(parts) && ShownBy(ts, v, parts)
  }

  ghost predicate ShownBy(ts: seq<Token>, v: Vars, parts: seq<string>)
  {
    |parts| == |ts| && forall i :: 0 <= i < |ts| ==> Shows(ts[i], v, parts[i])
  }

  lemma YearMonthShown(now: Instant)
    ensures ShowsYearMonth(Pad(4, now.year) + Pad(2, now.month), now)
  {
    PadShows(4, now.year);
    PadShows(2, now.month);
  }

  lemma TokenShows(t: Token, v: Vars)
    ensures Shows(t, v, RenderToken(t, v))
  {
    match t
    case YYYY => PadShows(4, v.now.year);
    case YY => PadShows(2, v.now.year % 100);
    case MM => PadShows(2, v.now.month);
    case DD => PadShows(2, v.now.day);
    case YYYYMM => YearMonthShown(v.now);
    case FY => PadShows(4, v.now.year);
    case SEQ(w) => PadShows(if w < 1 then 6 else w, v.sequence);
    case _ =>
  }

  function Parts(ts: seq<Token>, v: Vars): (parts: seq<string>)
    ensures |parts| == |ts|
  {
    seq(|ts|, i requires 0 <= i < |ts| => RenderToken(ts[i], v))
  }

  lemma {:induction false} JoinedParts(ts: seq<Token>, v: Vars)
    ensures RenderSpec(ts, v) == Joined(Parts(ts, v))
  {
    if ts != [] {
      JoinedParts(ts[..|ts| - 1], v);
      assert Parts(ts, v)[..|ts| - 1] == Parts(ts[..|ts| - 1], v);
    }
  }

  /** Every rendering shows what its tokens ask for. */
  lemma RenderShows(ts: seq<Token>, v: Vars)
    ensures Shown(ts, v, RenderSpec(ts, v))
  {
    forall i | 0 <= i < |ts| ensures Shows(ts[i], v, Parts(ts, v)[i]) { TokenShows(ts[i], v); }
    JoinedParts(ts, v);
    assert ShownBy(ts, v, Parts(ts, v));
  }

  /** The key of a counter: tenant, what the tokens other than sequences show, year and month. */
  ghost predicate ShowsKey(ts: seq<Token>, input: Input, key: string)
  {
    exists parts, period :: && ShowsKeyParts(ts, input, parts) && ShowsYearMonth(period, input.now)
                            && key == "naming:counter:" + input.tenant + ":" + Joined(parts) + ":" + period
  }

  ghost predicate ShowsKeyParts(ts: seq<Token>, input: Input, parts: seq<string>)
  {
    && |parts| == |ts|
    && forall i :: 0 <= i < |ts| ==>
         if ts[i].SEQ? then parts[i] == "" else Shows(ts[i], Vars(input.now, input.orgCode, input.fiscalLabel, 0), parts[i])
  }

  lemma KeyShows(ts: seq<Token>, input: Input)
    ensures ShowsKey(ts, input, KeyOf(ts, input))
  {
    var v := Vars(input.now, input.orgCode, input.fiscalLabel, 0);
    var parts := Parts(Stripped(ts), v);
    forall i | 0 <= i < |ts| ensures if ts[i].SEQ? then parts[i] == "" else Shows(ts[i], v, parts[i]) { TokenShows(Stripped(ts)[i], v); }
    JoinedParts(Stripped(ts), v);
    YearMonthShown(input.now);
    assert ShowsKeyParts(ts, input, parts);
  }

  /** Sequence tokens replaced by an empty literal. */
  function Stripped(ts: seq<Token>): seq<Token>
  {
    seq(|ts|, i requires 0 <= i < |ts| => if ts[i].SEQ? then Literal("") else ts[i])
  }

  method RenderWithoutSEQ(ts: seq<Token>, v: Vars) returns (s: string)
    ensures s == Prefix(ts, v)
  {
    var stripped := [];
    for i := 0 to |ts|
      invariant stripped == Stripped(ts[..i])
    {
      stripped := stripped + [if ts[i].SEQ? then Literal("") else ts[i]];
    }
    assert ts[..|ts|] == ts;
    s := Render(stripped, v.(sequence := 0));
  }

  function Prefix(ts: seq<Token>, v: Vars): string
  {
    RenderSpec(Stripped(ts), v.(sequence := 0))
  }

  const KEY_HEAD := "naming:counter:"

  function CounterKey(tenant: string, prefix: string, now: Instant): string
  {
    KEY_HEAD + tenant + ":" + prefix + ":" + (Pad(4, now.year) + Pad(2, now.month))
  }

  predicate HasSEQ(ts: seq<Token>)
  {
    exists i :: 0 <= i < |ts| && ts[i].SEQ?
  }

  /** Some token shows the four-digit year. */
  predicate ShowsYear(ts: seq<Token>, fiscalLabel: string)
  {
    exists i :: 0 <= i < |ts| && (ts[i].YYYY? || ts[i].YYYYMM? || (ts[i].FY? && fiscalLabel == ""))
  }

  predicate ShowsMonth(ts: seq<Token>)
  {
    exists i :: 0 <= i < |ts| && (ts[i].MM? || ts[i].YYYYMM?)
  }

  // ---------------------------------------------------------------------------
  // An identifier determines its parts.

  lemma FixedWidths(t: Instant)
    requires ValidInstant(t)
    ensures |Pad(4, t.year)| == 4 && |Pad(2, t.year % 100)| == 2 && |Pad(2, t.month)| == 2 && |Pad(2, t.day)| == 2
  {
    assert Pow10(2) == 100 && Pow10(4) == 10000 by { assert Pow10(1) == 10; assert Pow10(3) == 1000; }
    DigitsBound(t.year, 4);
    DigitsBound(t.year % 100, 2);
    DigitsBound(t.month, 2);
    DigitsBound(t.day, 2);
  }

  /** Two renderings of one pattern for one organisation and fiscal label. */
  ghost predicate SameScope(v: Vars, w: Vars)
  {
    ValidInstant(v.now) && ValidInstant(w.now) && v.orgCode == w.orgCode && v.fiscalLabel == w.fiscalLabel
  }

  /** Only sequence tokens vary in width, and they all grow with the number of digits. */
  lemma TokenWidths(t: Token, v: Vars, w: Vars)
    requires SameScope(v, w) && NumDigits(v.sequence) <= NumDigits(w.sequence)
    ensures |RenderToken(t, v)| <= |RenderToken(t, w)|
  {
    FixedWidths(v.now);
    FixedWidths(w.now);
  }

  lemma {:induction false} TotalWidths(ts: seq<Token>, v: Vars, w: Vars)
    requires SameScope(v, w) && NumDigits(v.sequence) <= NumDigits(w.sequence)
    ensures |RenderSpec(ts, v)| <= |RenderSpec(ts, w)|
  {
    if ts != [] {
      TotalWidths(ts[..|ts| - 1], v, w);
      TokenWidths(ts[|ts| - 1], v, w);
    }
  }

  lemma SplitEnd(a: string, x: string, b: string, y: string)
    requires a + x == b + y && |a| <= |b| && |x| <= |y|
    ensures a == b && x == y
  {
    assert |a + x| == |b + y|;
    assert (a + x)[..|a|] == a && (b + y)[..|b|] == b;
    assert (a + x)[|a|..] == x && (b + y)[|b|..] == y;
  }

  /** Equal identifiers agree token by token, although sequence numbers have no fixed width. */
  lemma {:induction false} TokensAgree(ts: seq<Token>, v: Vars, w: Vars, i: nat)
    requires SameScope(v, w) && NumDigits(v.sequence) <= NumDigits(w.sequence)
    requires RenderSpec(ts, v) == RenderSpec(ts, w) && i < |ts|
    ensures RenderToken(ts[i], v) == RenderToken(ts[i], w)
  {
    var init, last := ts[..|ts| - 1], ts[|ts| - 1];
    TotalWidths(init, v, w);
    TokenWidths(last, v, w);
    SplitEnd(RenderSpec(init, v), RenderToken(last, v), RenderSpec(init, w), RenderToken(last, w));
    if i < |ts| - 1 { TokensAgree(init, v, w, i); }
  }

  lemma TokensAgreeAll(ts: seq<Token>, v: Vars, w: Vars)
    requires SameScope(v, w) && RenderSpec(ts, v) == RenderSpec(ts, w)
    ensures forall i :: 0 <= i < |ts| ==> RenderToken(ts[i], v) == RenderToken(ts[i], w)
  {
    forall i | 0 <= i < |ts| ensures RenderToken(ts[i], v) == RenderToken(ts[i], w) {
      if NumDigits(v.sequence) <= NumDigits(w.sequence) { TokensAgree(ts, v, w, i); } else { TokensAgree(ts, w, v, i); }
    }
  }

  /** Rendering is injective in the sequence number. */
  lemma SequenceDetermined(ts: seq<Token>, v: Vars, w: Vars)
    requires SameScope(v, w) && HasSEQ(ts) && RenderSpec(ts, v) == RenderSpec(ts, w)
    ensures v.sequence == w.sequence
  {
    TokensAgreeAll(ts, v, w);
    var i :| 0 <= i < |ts| && ts[i].SEQ?;
    PadInjective(if ts[i].width < 1 then 6 else ts[i].width, v.sequence, w.sequence);
  }

  lemma PeriodDetermined(ts: seq<Token>, v: Vars, w: Vars)
    requires SameScope(v, w) && RenderSpec(ts, v) == RenderSpec(ts, w)
    ensures ShowsYear(ts, v.fiscalLabel) ==> v.now.year == w.now.year
    ensures ShowsMonth(ts) ==> v.now.month == w.now.month
  {
    TokensAgreeAll(ts, v, w);
    FixedWidths(v.now);
    FixedWidths(w.now);
    if ShowsYear(ts, v.fiscalLabel) {
      var i :| 0 <= i < |ts| && (ts[i].YYYY? || ts[i].YYYYMM? || (ts[i].FY? && v.fiscalLabel == ""));
      YearOf(ts[i], v, w);
    }
    if ShowsMonth(ts) {
      var i :| 0 <= i < |ts| && (ts[i].MM? || ts[i].YYYYMM?);
      MonthOf(ts[i], v, w);
    }
  }

  lemma YearOf(t: Token, v: Vars, w: Vars)
    requires SameScope(v, w) && RenderToken(t, v) == RenderToken(t, w)
    requires t.YYYY? || t.YYYYMM? || (t.FY? && v.fiscalLabel == "")
    ensures v.now.year == w.now.year
  {
    FixedWidths(v.now);
    FixedWidths(w.now);
    if t.YYYYMM? {
      SplitEnd(Pad(4, v.now.year), Pad(2, v.now.month), Pad(4, w.now.year), Pad(2, w.now.month));
    } else if t.FY? {
      SplitEnd("FY", Pad(4, v.now.year), "FY", Pad(4, w.now.year));
    }
    PadInjective(4, v.now.year, w.now.year);
  }

  lemma MonthOf(t: Token, v: Vars, w: Vars)
    requires SameScope(v, w) && RenderToken(t, v) == RenderToken(t, w)
    requires t.MM? || t.YYYYMM?
    ensures v.now.month == w.now.month
  {
    FixedWidths(v.now);
    FixedWidths(w.now);
    if t.YYYYMM? {
      SplitEnd(Pad(4, v.now.year), Pad(2, v.now.month), Pad(4, w.now.year), Pad(2, w.now.month));
    }
    PadInjective(2, v.now.month, w.now.month);
  }

  lemma {:induction false} RenderCongruent(ts: seq<Token>, v: Vars, w: Vars)
    requires forall i :: 0 <= i < |ts| ==> RenderToken(ts[i], v) == RenderToken(ts[i], w)
    ensures RenderSpec(ts, v) == RenderSpec(ts, w)
  {
    if ts != [] { RenderCongruent(ts[..|ts| - 1], v, w); }
  }

  /** Tokens that agree apart from the sequence give the same counter prefix. */
  lemma PrefixDetermined(ts: seq<Token>, v: Vars, w: Vars)
    requires forall i :: 0 <= i < |ts| && !ts[i].SEQ? ==> RenderToken(ts[i], v) == RenderToken(ts[i], w)
    ensures Prefix(ts, v) == Prefix(ts, w)
  {
    var s, v0, w0 := Stripped(ts), v.(sequence := 0), w.(sequence := 0);
    forall i | 0 <= i < |s| ensures RenderToken(s[i], v0) == RenderToken(s[i], w0) {
      if !ts[i].SEQ? { IgnoresSequence(ts[i], v); IgnoresSequence(ts[i], w); }
    }
    RenderCongruent(s, v0, w0);
  }

  lemma IgnoresSequence(t: Token, v: Vars)
    requires !t.SEQ?
    ensures RenderToken(t, v) == RenderToken(t, v.(sequence := 0))
  { }

  /** The counter key decodes into tenant, prefix and month. */
  lemma KeyDecodes(t1: string, p1: string, n1: Instant, t2: string, p2: string, n2: Instant)
    requires |t1| == |t2| == 36 && ValidInstant(n1) && ValidInstant(n2)
    requires CounterKey(t1, p1, n1) == CounterKey(t2, p2, n2)
    ensures t1 == t2 && p1 == p2 && n1.year == n2.year && n1.month == n2.month
  {
    FixedWidths(n1);
    FixedWidths(n2);
    var m1, m2 := Pad(4, n1.year) + Pad(2, n1.month), Pad(4, n2.year) + Pad(2, n2.month);
    SplitEnd(KEY_HEAD + t1 + ":" + p1 + ":", m1, KEY_HEAD + t2 + ":" + p2 + ":", m2);
    SplitEnd(KEY_HEAD + t1 + ":" + p1, ":", KEY_HEAD + t2 + ":" + p2, ":");
    SplitEnd(KEY_HEAD + t1 + ":", p1, KEY_HEAD + t2 + ":", p2);
    SplitEnd(KEY_HEAD + t1, ":", KEY_HEAD + t2, ":");
    SplitEnd(KEY_HEAD, t1, KEY_HEAD, t2);
    SplitEnd(Pad(4, n1.year), Pad(2, n1.month), Pad(4, n2.year), Pad(2, n2.month));
    PadInjective(4, n1.year, n2.year);
    PadInjective(2, n1.month, n2.month);
  }

  function VarsOf(input: Input, sequence: nat): Vars
  {
    Vars(input.now, input.orgCode, input.fiscalLabel, sequence)
  }

  function KeyOf(ts: seq<Token>, input: Input): string
  {
    CounterKey(input.tenant, Prefix(ts, VarsOf(input, 0)), input.now)
  }

  function Count(counters: map<string, nat>, key: string): nat
  {
    if key in counters then counters[key] else 0
  }

  /** What the counter store does with an increment: answers, fails before it, or loses the reply. */
  datatype CounterOutcome = Answers | Fails | LosesReply

  datatype Allocation = Allocated(identifier: string, sequence: nat) | BadPattern(error: ParseError) | CounterDown

  /** The service with its token cache and the external counter store. */
  class Service {
    var tokens: map<string, seq<Token>>
    var counters: map<string, nat>

    /** Every cached list is what a fresh parse would return. */
    ghost predicate Valid()
      reads this
    {
      forall p :: p in tokens ==> Parse(p) == Ok(tokens[p])
    }

    constructor (counters: map<string, nat>)
      ensures Valid() && tokens == map[] && this.counters == counters
    {
      this.tokens, this.counters := map[], counters;
    }

    method CachedParse(pattern: string) returns (r: Result<seq<Token>>)
      requires Valid()
      modifies this`tokens
      ensures Valid() && r == Parse(pattern)
      ensures tokens == if r.Ok? then old(tokens)[pattern := r.value] else old(tokens)
    {
      if pattern in tokens {
        assert tokens == tokens[pattern := tokens[pattern]];
        return Ok(tokens[pattern]);
      }
      r := ParsePattern(pattern);
      if r.Ok? { tokens := tokens[pattern := r.value]; }
    }

    /** Fails for a bad pattern, which changes nothing, or with the counter; otherwise the identifier
        shows the next value of its counter. */
    method Allocate(input: Input, counter: CounterOutcome) returns (r: Allocation)
      requires Valid()
      modifies this
      ensures Valid()
      ensures r.BadPattern? <==> Parse(input.pattern).Err?
      ensures r.BadPattern? ==> tokens == old(tokens) && counters == old(counters)
      ensures !r.BadPattern? ==>
                var ts := Parse(input.pattern).value;
                tokens == old(tokens)[input.pattern := ts] && Took(ts, input, counter, old(counters), counters, r)
    {
      var parsed := CachedParse(input.pattern);
      if parsed.Err? { return BadPattern(parsed.error); }
      r := TakeNumber(parsed.value, input, counter);
    }

    /** Counting and rendering (service.go:85-102). */
    method TakeNumber(ts: seq<Token>, input: Input, counter: CounterOutcome) returns (r: Allocation)
      modifies this`counters
      ensures !r.BadPattern? && Took(ts, input, counter, old(counters), counters, r)
    {
      KeyShows(ts, input);
      var prefix := RenderWithoutSEQ(ts, VarsOf(input, 0));
      var key := CounterKey(input.tenant, prefix, input.now);
      if counter == Fails { return CounterDown; }
      var n := Count(counters, key) + 1;
      counters := counters[key := n];
      if counter == LosesReply { return CounterDown; }
      var id := Render(ts, VarsOf(input, n));
      r := Allocated(id, n);
    }
  }

  /** What a call with these tokens does: unless the store fails it takes the next value of the counter
      under a key that shows tenant, prefix and month, and if the store answers, the identifier shows
      this value. A lost reply takes a value that no identifier shows. */
  ghost predicate Took(ts: seq<Token>, input: Input, counter: CounterOutcome,
                       before: map<string, nat>, after: map<string, nat>, r: Allocation)
  {
    var key := KeyOf(ts, input);
    var next := if key in before then before[key] + 1 else 1;
    && ShowsKey(ts, input, key)
    && after == (if counter == Fails then before else before[key := next])
    && (counter == Answers <==> r.Allocated?) && (counter != Answers <==> r.CounterDown?)
    && (r.Allocated? ==>
          && r.sequence == next
          && r.identifier == RenderSpec(ts, VarsOf(input, r.sequence))
          && Shown(ts, Vars(input.now, input.orgCode, input.fiscalLabel, r.sequence), r.identifier))
  }

  /** Two identifiers of one pattern, tenant, organisation and fiscal label that show the period
      can only coincide if they came from the same counter at the same value. */
  lemma SameIdentifierSameCount(ts: seq<Token>, a: Input, b: Input, m: nat, n: nat)
    requires ValidInput(a) && ValidInput(b)
    requires a.tenant == b.tenant && a.orgCode == b.orgCode && a.fiscalLabel == b.fiscalLabel
    requires HasSEQ(ts) && ShowsYear(ts, a.fiscalLabel) && ShowsMonth(ts)
    requires RenderSpec(ts, VarsOf(a, m)) == RenderSpec(ts, VarsOf(b, n))
    ensures m == n && KeyOf(ts, a) == KeyOf(ts, b)
  {
    var v, w := VarsOf(a, m), VarsOf(b, n);
    SequenceDetermined(ts, v, w);
    PeriodDetermined(ts, v, w);
    TokensAgreeAll(ts, v, w);
    forall i | 0 <= i < |ts| && !ts[i].SEQ? ensures RenderToken(ts[i], VarsOf(a, 0)) == RenderToken(ts[i], VarsOf(b, 0)) {
      IgnoresSequence(ts[i], v);
      IgnoresSequence(ts[i], w);
    }
    PrefixDetermined(ts, VarsOf(a, 0), VarsOf(b, 0));
  }
}
