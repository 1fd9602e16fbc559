/** A value that may be missing. */
module Options {
  datatype Option<T> = None | Some(value: T)
}

/** Strings as Go orders them, and the sorting that Go's `sort` package provides.

    A Go string is a byte sequence and `<` compares bytes. A Dafny string is a sequence of
    Unicode scalar values; UTF-8 preserves their order, so comparing scalar by scalar
    agrees with comparing the encodings byte by byte. */
module Names {

  /** `a < b` on Go strings. */
  predicate Less(a: string, b: string)
  {
    b != "" && (a == "" || a[0] < b[0] || (a[0] == b[0] && Less(a[1..], b[1..])))
  }

  predicate Leq(a: string, b: string)
  {
    !Less(b, a)
  }

  lemma {:induction false} LessTrans(a: string, b: string, c: string)
    requires Less(a, b) && Less(b, c)
    ensures Less(a, c)
  {
    if a != "" && a[0] == b[0] == c[0] {
      LessTrans(a[1..], b[1..], c[1..]);
    }
  }

  lemma {:induction false} LessTotal(a: string, b: string)
    ensures !(Less(a, b) && Less(b, a))
    ensures a == b <==> !Less(a, b) && !Less(b, a)
  {
    if a != "" && b != "" {
      LessTotal(a[1..], b[1..]);
      assert a == [a[0]] + a[1..] && b == [b[0]] + b[1..];
    }
  }

  /** `le` orders every pair, and only equal values are ordered both ways. */
  ghost predicate TotalOrder<T(!new)>(le: (T, T) -> bool)
  {
    && (forall a, b :: le(a, b) || le(b, a))
    && (forall a, b, c :: le(a, b) && le(b, c) ==> le(a, c))
    && (forall a, b :: le(a, b) && le(b, a) ==> a == b)
  }

  /** What sorting needs: ties between different values are allowed. */
  ghost predicate TotalPreorder<T(!new)>(le: (T, T) -> bool)
  {
    && (forall a, b :: le(a, b) || le(b, a))
    && (forall a, b, c :: le(a, b) && le(b, c) ==> le(a, c))
  }

  lemma LeqIsTotalOrder()
    ensures TotalOrder(Leq)
  {
    forall a, b ensures Leq(a, b) || Leq(b, a) { LessTotal(a, b); }
    forall a, b | Leq(a, b) && Leq(b, a) ensures a == b { LessTotal(a, b); }
    forall a, b, c | Leq(a, b) && Leq(b, c) ensures Leq(a, c) {
      LessTotal(a, b); LessTotal(b, c); LessTotal(a, c);
      if Less(c, a) {
        if a != b { LessTrans(c, a, b); }
      }
    }
  }

  /** The order itself: a proper prefix, or the smaller character where the texts first differ. */
  lemma {:induction false} LessIff(a: string, b: string)
    ensures Less(a, b) <==> (a < b || exists k :: 0 <= k < |a| && k < |b| && a[..k] == b[..k] && a[k] < b[k])
  {
    if a != "" && b != "" && a[0] == b[0] {
      LessIff(a[1..], b[1..]);
      assert a == [a[0]] + a[1..] && b == [b[0]] + b[1..];
      if k :| 0 <= k < |a[1..]| && k < |b[1..]| && a[1..][..k] == b[1..][..k] && a[1..][k] < b[1..][k] {
        assert a[..k + 1] == [a[0]] + a[1..][..k] && b[..k + 1] == [b[0]] + b[1..][..k];
        assert a[k + 1] < b[k + 1];
      }
      if k :| 0 <= k < |a| && k < |b| && a[..k] == b[..k] && a[k] < b[k] {
        assert a[1..][..k - 1] == a[..k][1..] && b[1..][..k - 1] == b[..k][1..];
        assert a[1..][k - 1] < b[1..][k - 1];
      }
    } else if a != "" && b != "" {
      assert a[..0] == b[..0];
      if k :| 0 <= k < |a| && k < |b| && a[..k] == b[..k] && a[k] < b[k] {
        assert k > 0 ==> a[..k][0] == b[..k][0];
      }
    }
  }

  ghost predicate SortedBy<T(!new)>(le: (T, T) -> bool, s: seq<T>)
  {
    forall i, j :: 0 <= i < j < |s| ==> le(s[i], s[j])
  }

  function Insert<T>(le: (T, T) -> bool, x: T, s: seq<T>): (r: seq<T>)
    ensures multiset(r) == multiset(s) + multiset{x}
  {
    if s == [] then [x]
    else if le(x, s[0]) then [x] + s
    else
      assert s == [s[0]] + s[1..];
      [s[0]] + Insert(le, x, s[1..])
  }

  /** `sort.Strings` and `sort.Slice`: a permutation of the argument, ordered when `le`
      is a total preorder (SortIsSorted) and then unique when `le` has no ties (SortedUnique). */
  function Sort<T>(le: (T, T) -> bool, s: seq<T>): (r: seq<T>)
    ensures multiset(r) == multiset(s)
    ensures |r| == |s|
  {
    if s == [] then []
    else
      assert s == [s[0]] + s[1..];
      var r := Insert(le, s[0], Sort(le, s[1..]));
      assert |multiset(r)| == |multiset(s)|;
      r
  }

  lemma InsertSorted<T(!new)>(le: (T, T) -> bool, x: T, s: seq<T>)
    requires TotalPreorder(le) && SortedBy(le, s)
    ensures SortedBy(le, Insert(le, x, s))
  {
    if s != [] && !le(x, s[0]) {
      var t := Insert(le, x, s[1..]);
      InsertSorted(le, x, s[1..]);
      forall i | 0 <= i < |t| ensures le(s[0], t[i]) {
        assert t[i] in multiset(t);
        assert t[i] == x || t[i] in s[1..];
      }
    }
  }

  lemma {:induction false} SortIsSorted<T(!new)>(le: (T, T) -> bool, s: seq<T>)
    requires TotalPreorder(le)
    ensures SortedBy(le, Sort(le, s))
  {
    if s != [] {
      SortIsSorted(le, s[1..]);
      InsertSorted(le, s[0], Sort(le, s[1..]));
    }
  }

  /** Without ties a multiset has one sorted arrangement, so the sorting algorithm does not matter. */
  lemma {:induction false} SortedUnique<T(!new)>(le: (T, T) -> bool, s: seq<T>, t: seq<T>)
    requires TotalOrder(le) && SortedBy(le, s) && SortedBy(le, t)
    requires multiset(s) == multiset(t)
    ensures s == t
  {
    assert |s| == |multiset(s)| == |multiset(t)| == |t|;
    if s != [] {
      assert s[0] in multiset(t) && t[0] in multiset(s);
      assert s[0] in t && t[0] in s;
      assert s[0] == t[0];
      assert s == [s[0]] + s[1..] && t == [t[0]] + t[1..];
      assert multiset(s[1..]) == multiset(s) - multiset{s[0]};
      SortedUnique(le, s[1..], t[1..]);
    }
  }

  function Elems<T>(s: seq<T>): set<T>
  {
    set x | x in s
  }

  ghost predicate Distinct<T(!new)>(s: seq<T>)
  {
    forall i, j :: 0 <= i < j < |s| ==> s[i] != s[j]
  }

  lemma {:induction false} DistinctCount<T(!new)>(s: seq<T>)
    requires Distinct(s)
    ensures |Elems(s)| == |s|
  {
    if s != [] {
      DistinctCount(s[1..]);
      assert Elems(s) == {s[0]} + Elems(s[1..]);
    }
  }

  lemma ElemsAppend<T>(s: seq<T>, x: T)
    ensures Elems(s + [x]) == Elems(s) + {x}
  {
    assert forall y :: y in s + [x] <==> y in s || y == x;
  }

  ghost predicate StrictlySorted(s: seq<string>)
  {
    forall i, j :: 0 <= i < j < |s| ==> Less(s[i], s[j])
  }

  /** Sorting a list of distinct names. */
  lemma SortStrict(s: seq<string>)
    requires Distinct(s)
    ensures StrictlySorted(Sort(Leq, s)) && Elems(Sort(Leq, s)) == Elems(s)
  {
    var r := Sort(Leq, s);
    LeqIsTotalOrder();
    SortIsSorted(Leq, s);
    assert forall x :: x in r <==> x in multiset(r);
    assert forall x :: x in s <==> x in multiset(s);
    PermutedDistinct(s, r);
    forall i, j | 0 <= i < j < |r| ensures Less(r[i], r[j]) {
      assert Leq(r[i], r[j]) && r[i] != r[j];
      LessTotal(r[i], r[j]);
    }
  }

  lemma {:induction false} PermutedDistinct<T(!new)>(s: seq<T>, r: seq<T>)
    requires Distinct(s) && multiset(r) == multiset(s)
    ensures Distinct(r)
  {
    forall i, j | 0 <= i < j < |r| ensures r[i] != r[j] {
      MultiplicityOne(s, r[i]);
      assert r[j] in r[i + 1..];
      assert r == r[..i] + ([r[i]] + r[i + 1..]);
      assert multiset(r) == multiset(r[..i]) + (multiset{r[i]} + multiset(r[i + 1..]));
    }
  }

  lemma {:induction false} MultiplicityOne<T(!new)>(s: seq<T>, x: T)
    requires Distinct(s)
    ensures multiset(s)[x] <= 1
  {
    if s != [] {
      MultiplicityOne(s[1..], x);
      assert s == [s[0]] + s[1..];
      assert x == s[0] ==> x !in s[1..];
      assert x !in s[1..] ==> multiset(s[1..])[x] == 0;
    }
  }

  /** Strictly sorted lists over the same names are equal. */
  lemma {:induction false} StrictlySortedUnique(s: seq<string>, t: seq<string>)
    requires StrictlySorted(s) && StrictlySorted(t) && Elems(s) == Elems(t)
    ensures s == t
  {
    if s == [] {
      NoElems(t);
    } else {
      assert s[0] in Elems(t) && s[0] in Elems(s);
      assert t[0] in Elems(s);
      StrictIsDistinct(s); StrictIsDistinct(t);
      LessTotal(s[0], t[0]);
      assert s[0] == t[0];
      assert Elems(s[1..]) == Elems(s) - {s[0]} by { assert s == [s[0]] + s[1..]; }
      assert Elems(t[1..]) == Elems(t) - {t[0]} by { assert t == [t[0]] + t[1..]; }
      StrictlySortedUnique(s[1..], t[1..]);
    }
  }

  lemma NoElems<T>(s: seq<T>)
    ensures Elems(s) == {} <==> s == []
  {
    assert s != [] ==> s[0] in Elems(s);
  }

  lemma StrictIsDistinct(s: seq<string>)
    requires StrictlySorted(s)
    ensures Distinct(s)
  {
    forall i, j | 0 <= i < j < |s| ensures s[i] != s[j] { LessTotal(s[i], s[j]); }
  }

  /** The smallest name of a non-empty set. */
  ghost function Least(names: set<string>): (m: string)
    requires names != {}
    ensures m in names && forall n :: n in names && n != m ==> Less(m, n)
  {
    var x :| x in names;
    if names == {x} then x
    else
      var y := Least(names - {x});
      LessTotal(x, y);
      assert forall n :: n in names && Less(y, n) && Less(x, y) ==> Less(x, n) by {
        forall n | n in names && Less(y, n) && Less(x, y) ensures Less(x, n) { LessTrans(x, y, n); }
      }
      if Less(x, y) then x else y
  }

  /** The entries of a map under the given keys, in that order. */
  ghost function Picked<V>(m: map<string, V>, keys: seq<string>): seq<V>
  {
    if keys == [] then []
    else
      var init, last := keys[..|keys| - 1], keys[|keys| - 1];
      if last in m then Picked(m, init) + [m[last]] else Picked(m, init)
  }

  lemma PickOne<V>(m: map<string, V>, keys: seq<string>, k: string)
    requires k in m
    ensures Picked(m, keys + [k]) == Picked(m, keys) + [m[k]]
  {
    assert (keys + [k])[..|keys|] == keys;
  }

  lemma {:induction false} PickedFacts<V>(m: map<string, V>, keys: seq<string>)
    requires Elems(keys) <= m.Keys
    ensures |Picked(m, keys)| == |keys|
    ensures forall i :: 0 <= i < |keys| ==> keys[i] in m && Picked(m, keys)[i] == m[keys[i]]
  {
    if keys != [] {
      var init := keys[..|keys| - 1];
      assert keys == init + [keys[|keys| - 1]];
      ElemsAppend(init, keys[|keys| - 1]);
      PickedFacts(m, init);
    }
  }

  /** A set of names in ascending order. */
  ghost function SortedSet(names: set<string>): (r: seq<string>)
    ensures StrictlySorted(r) && Elems(r) == names
  {
    if names == {} then []
    else
      var m := Least(names);
      var rest := SortedSet(names - {m});
      assert forall i :: 0 <= i < |rest| ==> rest[i] in Elems(rest);
      assert Elems([m] + rest) == {m} + Elems(rest);
      [m] + rest
  }

  lemma SortedSetUnique(s: seq<string>, names: set<string>)
    requires StrictlySorted(s) && Elems(s) == names
    ensures s == SortedSet(names)
  {
    StrictlySortedUnique(s, SortedSet(names));
  }

  /** Collecting the keys of a Go map in whatever order `range` yields them, then `sort.Strings`. */
  method SortedKeys(keys: set<string>) returns (r: seq<string>)
    ensures StrictlySorted(r) && Elems(r) == keys
  {
    var out, rest := [], keys;
    while rest != {}
      invariant rest <= keys && Elems(out) == keys - rest && Distinct(out)
    {
      var k :| k in rest;
      ElemsAppend(out, k);
      assert k !in Elems(out);
      out, rest := out + [k], rest - {k};
    }
    SortStrict(out);
    r := Sort(Leq, out);
  }

  lemma DropHead(s: seq<string>, i: nat)
    requires Distinct(s) && i < |s|
    ensures s[i] in Elems(s[i..]) && Elems(s[i + 1..]) == Elems(s[i..]) - {s[i]}
  {
    assert s[i..] == [s[i]] + s[i + 1..];
  }

  /** strings.Index for a single character: the first position, or -1. */
  function Index(s: string, c: char): (i: int)
    ensures -1 <= i < |s|
    ensures i == -1 <==> c !in s
    ensures i >= 0 ==> s[i] == c && c !in s[..i]
  {
    if s == "" then -1
    else if s[0] == c then 0
    else
      var k := Index(s[1..], c);
      assert s == [s[0]] + s[1..];
      assert k >= 0 ==> s[..k + 1] == [s[0]] + s[1..][..k];
      if k < 0 then -1 else k + 1
  }

  lemma FirstAt(a: string, c: char, b: string)
    requires c !in a
    ensures Index(a + [c] + b, c) == |a|
  {
    var s := a + [c] + b;
    var i := Index(s, c);
    assert s[|a|] == c && s[..|a|] == a;
    forall k | 0 <= k < i ensures s[k] != c { assert s[..i][k] == s[k]; }
  }

  /** What stands before the first separator, and after it. */
  lemma Peel(a: string, c: char, x: string, b: string, y: string)
    requires c !in a && c !in b && a + [c] + x == b + [c] + y
    ensures a == b && x == y
  {
    var l, r := a + [c] + x, b + [c] + y;
    assert l[|a|] == c && r[|b|] == c;
    assert l[..|a|] == a && r[..|b|] == b;
    assert forall k :: 0 <= k < |a| ==> l[k] == a[k];
    assert forall k :: 0 <= k < |b| ==> r[k] == b[k];
    assert |a| == |b|;
    assert l[|a| + 1..] == x && r[|b| + 1..] == y;
  }
}
