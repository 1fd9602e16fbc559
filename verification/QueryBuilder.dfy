/** The chained query builder and the combinators it relies on: awo/filter/builder.go and
    And/nonNilFilters in awo/filter/filter.go. Filters are pointers and slices share arrays, so
    both are modelled as heap objects. */
module QueryBuilder {

  datatype Kind = Leaf(id: int) | AndKind | OrKind | NotKind

  /** A Go slice that starts at the beginning of its array; the array's length is its capacity. */
  datatype Slice = Slice(arr: array<Filter?>, len: nat)

  class Filter {
    const kind: Kind
    const sub: Slice

    constructor (kind: Kind, sub: Slice)
      ensures this.kind == kind && this.sub == sub
    {
      this.kind, this.sub := kind, sub;
    }
  }

  ghost predicate ValidSlice(s: Slice)
  {
    s.len <= s.arr.Length
  }

  ghost function Elements(s: Slice): seq<Filter?>
    requires ValidSlice(s)
    reads s.arr
  {
    s.arr[..s.len]
  }

  /** The non-nil entries, in order. */
  ghost function Compact(s: seq<Filter?>): seq<Filter?>
  {
    if s == [] then []
    else
      var rest := Compact(s[..|s| - 1]);
      if s[|s| - 1] == null then rest else rest + [s[|s| - 1]]
  }

  lemma CompactShorter(s: seq<Filter?>)
    ensures |Compact(s)| <= |s|
    ensures null !in Compact(s)
  { }

  lemma CompactAppend(s: seq<Filter?>, f: Filter?)
    ensures Compact(s + [f]) == if f == null then Compact(s) else Compact(s) + [f]
  {
    assert (s + [f])[..|s|] == s;
  }

  lemma {:induction false} CompactAllPresent(s: seq<Filter?>)
    requires null !in s
    ensures Compact(s) == s
  {
    if s != [] {
      CompactAllPresent(s[..|s| - 1]);
      assert s == s[..|s| - 1] + [s[|s| - 1]];
    }
  }

  /** What an array prefix holds after the in-place compaction. */
  ghost function Compacted(s: seq<Filter?>): (r: seq<Filter?>)
    ensures |r| == |s|
  {
    CompactShorter(s);
    Compact(s) + s[|Compact(s)|..]
  }

  /** nonNilFilters: `out := filters[:0]` and appends to it, so it writes over its argument. */
  method NonNilFilters(filters: Slice) returns (out: Slice)
    requires ValidSlice(filters)
    modifies filters.arr
    ensures out.arr == filters.arr && out.len == |Compact(old(Elements(filters)))| <= filters.len
    ensures Elements(filters) == Compacted(old(Elements(filters)))
    ensures Elements(out) == Compact(old(Elements(filters)))
    ensures filters.arr[filters.len..] == old(filters.arr[filters.len..])
  {
    ghost var whole := filters.arr[..];
    var k := 0;
    for i := 0 to filters.len
      invariant k == |Compact(whole[..i])| <= i
      invariant filters.arr[..] == Compact(whole[..i]) + whole[k..]
    {
      KeepNext(whole, i);
      assert filters.arr[i] == filters.arr[..][i];
      if filters.arr[i] != null {
        ghost var w := filters.arr[..];
        filters.arr[k] := filters.arr[i];
        assert filters.arr[..] == w[k := w[i]];
        k := k + 1;
      }
    }
    KeptAll(whole, filters.len);
    out := Slice(filters.arr, k);
    assert Elements(filters) == filters.arr[..][..filters.len] && Elements(out) == filters.arr[..][..k];
    assert filters.arr[filters.len..] == filters.arr[..][filters.len..];
  }

  /** One more entry of an array whose first `i` have been compacted. */
  lemma KeepNext(whole: seq<Filter?>, i: nat)
    requires i < |whole| && |Compact(whole[..i])| <= i
    ensures var c := Compact(whole[..i]); var w := c + whole[|c|..];
            && w[i] == whole[i]
            && Compact(whole[..i + 1]) == (if w[i] == null then c else c + [w[i]])
            && (w[i] != null ==> w[|c| := w[i]] == (c + [w[i]]) + whole[|c| + 1..])
  {
    assert whole[..i + 1] == whole[..i] + [whole[i]];
    CompactAppend(whole[..i], whole[i]);
  }

  lemma KeptAll(whole: seq<Filter?>, n: nat)
    requires n <= |whole| && |Compact(whole[..n])| <= n
    ensures var c := Compact(whole[..n]); var w := c + whole[|c|..];
            w[..n] == Compacted(whole[..n]) && w[..|c|] == c && w[n..] == whole[n..]
  { }

  /** No nil comes before a filter. */
  ghost predicate NilsLast(s: seq<Filter?>)
  {
    forall i, j :: 0 <= i < j < |s| && s[i] == null ==> s[j] == null
  }

  /** The argument of And and Or survives exactly when its nils, if any, come last. */
  lemma {:induction false} CompactedUnchangedIff(s: seq<Filter?>)
    ensures Compacted(s) == s <==> NilsLast(s)
  {
    CompactShorter(s);
    var c := Compact(s);
    if Compacted(s) == s {
      assert forall i :: 0 <= i < |c| ==> s[i] == Compacted(s)[i] == c[i];
      forall i, j | 0 <= i < j < |s| && s[i] == null ensures s[j] == null {
        assert i >= |c|;
        AfterCompact(s, j);
      }
    }
    if NilsLast(s) { NilsLastKept(s); }
  }

  /** If the compacted entries are a prefix, everything after them is nil. */
  lemma {:induction false} AfterCompact(s: seq<Filter?>, j: nat)
    requires |Compact(s)| <= j < |s| && Compact(s) <= s
    ensures s[j] == null
  {
    var init, last := s[..|s| - 1], s[|s| - 1];
    CompactShorter(init);
    assert Compact(init) <= init by {
      assert Compact(init) <= Compact(s);
      assert forall k :: 0 <= k < |Compact(init)| ==> Compact(init)[k] == s[k] == init[k];
    }
    if j < |s| - 1 {
      AfterCompact(init, j);
      assert init[j] == s[j];
    } else if last != null {
      AfterCompact(init, |Compact(init)|);
    }
  }

  lemma {:induction false} NilsLastKept(s: seq<Filter?>)
    requires NilsLast(s)
    ensures |Compact(s)| <= |s| && Compact(s) + s[|Compact(s)|..] == s
  {
    CompactShorter(s);
    if s != [] {
      var init, last := s[..|s| - 1], s[|s| - 1];
      assert s == init + [last];
      assert NilsLast(init) by { assert forall k :: 0 <= k < |init| ==> init[k] == s[k]; }
      NilsLastKept(init);
      if last != null {
        assert null !in init by { assert forall k :: 0 <= k < |init| ==> init[k] == s[k] != null; }
        CompactAllPresent(init);
      }
    }
  }

  /** `f` is the conjunction of `preds`: nothing, the one predicate, or an AND node over them. */
  ghost predicate Conjunction(f: Filter?, preds: seq<Filter?>)
    reads if f == null then {} else {f.sub.arr}
  {
    if |preds| == 0 then f == null
    else if |preds| == 1 then f == preds[0]
    else f != null && f.kind == AndKind && ValidSlice(f.sub) && Elements(f.sub) == preds
  }

  /** And keeps the compacted slice, which shares the argument's array. */
  method And(filters: Slice) returns (f: Filter?)
    requires ValidSlice(filters)
    modifies filters.arr
    ensures Elements(filters) == Compacted(old(Elements(filters)))
    ensures filters.arr[filters.len..] == old(filters.arr[filters.len..])
    ensures Conjunction(f, Compact(old(Elements(filters))))
    ensures |Compact(old(Elements(filters)))| >= 2 ==> fresh(f) && f.sub.arr == filters.arr && f.sub.len <= filters.len
  {
    var nonNil := NonNilFilters(filters);
    if nonNil.len == 0 { return null; }
    if nonNil.len == 1 { return nonNil.arr[0]; }
    f := new Filter(AndKind, nonNil);
  }

  /** Go's append: in place while there is capacity, otherwise into a larger copy. */
  method Append(s: Slice, f: Filter?) returns (r: Slice)
    requires ValidSlice(s)
    modifies if s.len < s.arr.Length then {s.arr} else {}
    ensures ValidSlice(r) && r.len == s.len + 1 && Elements(r) == old(Elements(s)) + [f]
    ensures s.len == s.arr.Length ==> fresh(r.arr)
  {
    if s.len < s.arr.Length {
      s.arr[s.len] := f;
      return Slice(s.arr, s.len + 1);
    }
    var bigger := new Filter?[2 * s.len + 1];
    for i := 0 to s.len
      invariant bigger[..i] == s.arr[..i]
      invariant unchanged(s.arr)
    {
      bigger[i] := s.arr[i];
    }
    bigger[s.len] := f;
    assert bigger[..s.len + 1] == bigger[..s.len] + [f];
    r := Slice(bigger, s.len + 1);
  }

  datatype Order = Order(field: string, descending: bool)

  class Builder {
    var filters: Slice
    var orders: seq<Order>
    var limit: int
    var offset: int

    /** Where ignores nil, so a builder never holds one. */
    ghost predicate Valid()
      reads this, filters.arr
    {
      ValidSlice(filters) && null !in Elements(filters)
    }

    ghost function Predicates(): seq<Filter?>
      requires ValidSlice(filters)
      reads this, filters.arr
    {
      Elements(filters)
    }

    constructor NewQuery()
      ensures Valid() && Predicates() == [] && orders == [] && limit == 0 && offset == 0
      ensures fresh(filters.arr)
    {
      var none := new Filter?[0];
      filters, orders, limit, offset := Slice(none, 0), [], 0, 0;
    }

    /** clone copies exactly `len` elements, so the copy has no spare capacity. */
    method Clone() returns (next: Builder)
      requires Valid()
      ensures fresh(next) && fresh(next.filters.arr) && next.Valid() && next.filters.len == next.filters.arr.Length
      ensures next.Predicates() == Predicates() && next.orders == orders && next.limit == limit && next.offset == offset
    {
      next := new Builder.NewQuery();
      var copy := new Filter?[filters.len];
      for i := 0 to filters.len
        invariant copy[..i] == filters.arr[..i]
      {
        copy[i] := filters.arr[i];
      }
      assert copy[..filters.len] == filters.arr[..filters.len];
      next.filters, next.orders, next.limit, next.offset := Slice(copy, filters.len), orders, limit, offset;
    }

    method Where(f: Filter?) returns (next: Builder)
      requires Valid()
      ensures next.Valid() && next.orders == orders && next.limit == limit && next.offset == offset
      ensures f == null ==> next == this
      ensures f != null ==> fresh(next) && fresh(next.filters.arr) && next.Predicates() == Predicates() + [f]
    {
      if f == null { return this; }
      next := Clone();
      var longer := Append(next.filters, f);
      next.filters := longer;
    }

    method OrderBy(order: Order) returns (next: Builder)
      requires Valid()
      ensures fresh(next) && fresh(next.filters.arr) && next.Valid() && next.Predicates() == Predicates()
      ensures next.orders == orders + [order] && next.limit == limit && next.offset == offset
    {
      next := Clone();
      next.orders := next.orders + [order];
    }

    method Limit(n: int) returns (next: Builder)
      requires Valid()
      ensures fresh(next) && fresh(next.filters.arr) && next.Valid() && next.Predicates() == Predicates()
      ensures next.orders == orders && next.limit == n && next.offset == offset
    {
      next := Clone();
      next.limit := n;
    }

    method Offset(n: int) returns (next: Builder)
      requires Valid()
      ensures fresh(next) && fresh(next.filters.arr) && next.Valid() && next.Predicates() == Predicates()
      ensures next.orders == orders && next.limit == limit && next.offset == n
    {
      next := Clone();
      next.offset := n;
    }

    /** Filter compacts in place over the builder's own array, but with no nil in it every write
        puts back what was there: the array is as before and the result is the conjunction. */
    method TakeFilter() returns (f: Filter?)
      requires Valid()
      modifies filters.arr
      ensures filters == old(filters) && filters.arr[..] == old(filters.arr[..]) && Valid()
      ensures Conjunction(f, Predicates())
      ensures f != null && |Predicates()| >= 2 ==> f.sub.arr == filters.arr
    {
      ghost var before := Elements(filters);
      CompactAllPresent(before);
      f := And(filters);
      assert filters.arr[..] == filters.arr[..filters.len] + filters.arr[filters.len..];
    }
  }

  // ---------------------------------------------------------------------------
  // Whole chains.

  /** One call in a chain, on the `on`-th builder made so far. `CallWhereReturned` passes on the `k`-th
      filter that the chain itself has returned. */
  datatype Call =
    | CallWhere(on: nat, f: Filter?)
    | CallWhereReturned(on: nat, k: nat)
    | CallOrderBy(on: nat, order: Order)
    | CallLimit(on: nat, n: int)
    | CallOffset(on: nat, n: int)
    | CallFilter(on: nat)

  /** What a builder stands for. */
  datatype Spec = Spec(preds: seq<Filter?>, orders: seq<Order>, limit: int, offset: int)

  ghost function Extended(b: Spec, f: Filter?): Spec
  {
    if f == null then b else b.(preds := b.preds + [f])
  }

  /** The pure meaning of one call once `asked` filters have been returned: the new builder, if it
      makes one. */
  ghost function Made(specs: seq<Spec>, c: Call, returned: seq<Filter?>, asked: nat): seq<Spec>
  {
    if c.on >= |specs| then []
    else
      var b := specs[c.on];
      match c
      case CallWhere(_, f) => [Extended(b, f)]
      case CallWhereReturned(_, k) => if k < asked && k < |returned| then [Extended(b, returned[k])] else []
      case CallOrderBy(_, o) => [b.(orders := b.orders + [o])]
      case CallLimit(_, n) => [b.(limit := n)]
      case CallOffset(_, n) => [b.(offset := n)]
      case CallFilter(_) => []
  }

  /** The predicates whose conjunction a Filter call returns. */
  ghost function Asked(specs: seq<Spec>, c: Call): seq<seq<Filter?>>
  {
    if c.CallFilter? && c.on < |specs| then [specs[c.on].preds] else []
  }

  /** All builders of a chain, as values, when its Filter calls return `returned`. */
  ghost function Specs(calls: seq<Call>, returned: seq<Filter?>): seq<Spec>
  {
    if calls == [] then [Spec([], [], 0, 0)]
    else
      var init := calls[..|calls| - 1];
      var s := Specs(init, returned);
      s + Made(s, calls[|calls| - 1], returned, |AskedAll(init, returned)|)
  }

  ghost function AskedAll(calls: seq<Call>, returned: seq<Filter?>): seq<seq<Filter?>>
  {
    if calls == [] then []
    else AskedAll(calls[..|calls| - 1], returned) + Asked(Specs(calls[..|calls| - 1], returned), calls[|calls| - 1])
  }

  /** Filters returned later do not change what the calls so far mean. */
  lemma {:induction false} StableSpecs(calls: seq<Call>, returned: seq<Filter?>, more: seq<Filter?>)
    requires |AskedAll(calls, returned)| <= |returned|
    ensures Specs(calls, returned + more) == Specs(calls, returned) && AskedAll(calls, returned + more) == AskedAll(calls, returned)
  {
    if calls != [] {
      var init := calls[..|calls| - 1];
      StableSpecs(init, returned, more);
      StableMade(Specs(init, returned), calls[|calls| - 1], returned, more, |AskedAll(init, returned)|);
    }
  }

  lemma StableMade(specs: seq<Spec>, c: Call, returned: seq<Filter?>, more: seq<Filter?>, asked: nat)
    requires asked <= |returned|
    ensures Made(specs, c, returned + more, asked) == Made(specs, c, returned, asked)
  { }

  ghost predicate Matches(b: Builder, spec: Spec)
    reads b, b.filters.arr
  {
    b.Valid() && Spec(b.Predicates(), b.orders, b.limit, b.offset) == spec
  }

  ghost predicate AllMatch(builders: seq<Builder>, specs: seq<Spec>)
    reads builders, set b | b in builders :: b.filters.arr
  {
    |builders| == |specs| && forall i :: 0 <= i < |builders| ==> Matches(builders[i], specs[i])
  }

  ghost predicate AllConjunctions(filters: seq<Filter?>, asked: seq<seq<Filter?>>)
    reads set f | f in filters && f != null :: f.sub.arr
  {
    |filters| == |asked| && forall i :: 0 <= i < |filters| ==> Conjunction(filters[i], asked[i])
  }

  /** A call that makes a builder touches nothing that exists. */
  method Make(b: Builder, c: Call, filters: seq<Filter?>, ghost specs: seq<Spec>) returns (made: Builder)
    requires !c.CallFilter? && c.on < |specs| && Matches(b, specs[c.on]) && (c.CallWhereReturned? ==> c.k < |filters|)
    ensures made == b || (fresh(made) && fresh(made.filters.arr))
    ensures |Made(specs, c, filters, |filters|)| == 1 && Matches(made, Made(specs, c, filters, |filters|)[0])
  {
    match c
    case CallWhere(_, p) => made := b.Where(p);
    case CallWhereReturned(_, k) => made := b.Where(filters[k]);
    case CallOrderBy(_, o) => made := b.OrderBy(o);
    case CallLimit(_, n) => made := b.Limit(n);
    case CallOffset(_, n) => made := b.Offset(n);
  }

  /** A Filter call on one builder, seen from all builders and filters. */
  method Ask(b: Builder, builders: seq<Builder>, filters: seq<Filter?>,
             ghost specs: seq<Spec>, ghost asked: seq<seq<Filter?>>, ghost on: nat)
    returns (f: Filter?)
    requires AllMatch(builders, specs) && AllConjunctions(filters, asked) && on < |builders| && builders[on] == b
    modifies b.filters.arr
    ensures AllMatch(builders, specs) && AllConjunctions(filters + [f], asked + [specs[on].preds])
  {
    assert forall i :: 0 <= i < |builders| ==> Matches(builders[i], specs[i]);
    f := b.TakeFilter();
    forall i | 0 <= i < |builders| ensures Matches(builders[i], specs[i]) {
      var s := builders[i].filters;
      assert builders[i] in builders && s.arr[..] == old(s.arr[..]);
      assert Elements(s) == s.arr[..][..s.len] && old(Elements(s)) == old(s.arr[..])[..s.len];
    }
    forall i | 0 <= i < |filters| ensures Conjunction(filters[i], asked[i]) {
      assert old(Conjunction(filters[i], asked[i]));
      if filters[i] != null && |asked[i]| >= 2 {
        var s := filters[i].sub;
        assert s.arr[..] == old(s.arr[..]);
        assert Elements(s) == s.arr[..][..s.len] && old(Elements(s)) == old(s.arr[..])[..s.len];
      }
    }
    assert Matches(builders[on], specs[on]);
  }

  /** One call of a chain. */
  method OneCall(c: Call, builders: seq<Builder>, filters: seq<Filter?>, ghost specs: seq<Spec>, ghost asked: seq<seq<Filter?>>)
    returns (builders': seq<Builder>, filters': seq<Filter?>)
    requires AllMatch(builders, specs) && AllConjunctions(filters, asked)
    modifies set b | b in builders :: b.filters.arr
    ensures AllMatch(builders', specs + Made(specs, c, filters, |filters|)) && AllConjunctions(filters', asked + Asked(specs, c))
    ensures filters <= filters'
    ensures forall b :: b in builders' ==> b in builders || (fresh(b) && fresh(b.filters.arr))
    ensures forall b :: b in builders ==> b.filters.arr == old(b.filters.arr)
  {
    builders', filters' := builders, filters;
    if c.on >= |builders| || (c.CallWhereReturned? && c.k >= |filters|) {
    } else if c.CallFilter? {
      var f := Ask(builders[c.on], builders, filters, specs, asked, c.on);
      filters' := filters + [f];
    } else {
      var made := Make(builders[c.on], c, filters, specs);
      builders' := builders + [made];
    }
  }

  lemma ChainStep(calls: seq<Call>, k: nat, filters: seq<Filter?>, filters': seq<Filter?>)
    requires k < |calls| && filters <= filters' && |AskedAll(calls[..k], filters)| == |filters|
    ensures Specs(calls[..k + 1], filters') == Specs(calls[..k], filters) + Made(Specs(calls[..k], filters), calls[k], filters, |filters|)
    ensures AskedAll(calls[..k + 1], filters') == AskedAll(calls[..k], filters) + Asked(Specs(calls[..k], filters), calls[k])
  {
    assert calls[..k + 1][..k] == calls[..k];
    assert filters' == filters + filters'[|filters|..];
    StableSpecs(calls[..k], filters, filters'[|filters|..]);
    StableMade(Specs(calls[..k], filters), calls[k], filters, filters'[|filters|..], |filters|);
  }

  /** After any chain of calls on any earlier builders, filters returned on the way passed on
      included, every builder still stands for exactly what the calls that made it say, and every
      filter handed out is still the conjunction of the predicates its builder had. */
  method Chain(calls: seq<Call>) returns (builders: seq<Builder>, filters: seq<Filter?>)
    ensures AllMatch(builders, Specs(calls, filters)) && AllConjunctions(filters, AskedAll(calls, filters))
  {
    var first := new Builder.NewQuery();
    builders, filters := [first], [];
    ghost var specs, asked := Specs([], []), AskedAll([], []);
    for k := 0 to |calls|
      invariant specs == Specs(calls[..k], filters) && asked == AskedAll(calls[..k], filters)
      invariant AllMatch(builders, specs) && AllConjunctions(filters, asked)
      invariant forall b :: b in builders ==> fresh(b) && fresh(b.filters.arr)
    {
      ghost var before := filters;
      builders, filters := OneCall(calls[k], builders, filters, specs, asked);
      ChainStep(calls, k, before, filters);
      specs, asked := specs + Made(specs, calls[k], before, |before|), asked + Asked(specs, calls[k]);
    }
    assert calls[..|calls|] == calls;
  }
}
