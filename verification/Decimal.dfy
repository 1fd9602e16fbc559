/** Non-negative decimal numbers as Go's fmt prints them with `%d`, `%0Nd` and `%0*d`. */
module Decimal {
  import opened Names

  function NumDigits(n: nat): (k: nat)
    ensures k >= 1
  {
    if n < 10 then 1 else 1 + NumDigits(n / 10)
  }

  /** The last `w` digits of `n`. */
  function LastDigits(w: nat, n: nat): (s: string)
    ensures |s| == w
  {
    if w == 0 then "" else LastDigits(w - 1, n / 10) + [DigitChar(n % 10)]
  }

  function DigitChar(d: nat): char
    requires d < 10
  {
    '0' + d as char
  }

  /** `%0*d`: at least `w` digits, zero-filled, and as many as the number needs. */
  function Pad(w: nat, n: nat): (s: string)
  {
    LastDigits(if w < NumDigits(n) then NumDigits(n) else w, n)
  }

  predicate IsDigit(c: char)
  {
    '0' <= c <= '9'
  }

  lemma {:induction false} LastDigitsAreDigits(w: nat, n: nat)
    ensures forall i :: 0 <= i < w ==> IsDigit(LastDigits(w, n)[i])
  {
    if w > 0 { LastDigitsAreDigits(w - 1, n / 10); }
  }

  /** Enough digits determine the number. */
  lemma {:induction false} LastDigitsInjective(w: nat, n: nat, m: nat)
    requires w >= NumDigits(n) && w >= NumDigits(m) && LastDigits(w, n) == LastDigits(w, m)
    ensures n == m
  {
    var a, b := LastDigits(w, n), LastDigits(w, m);
    assert a[w - 1] == DigitChar(n % 10) && b[w - 1] == DigitChar(m % 10);
    assert a[..w - 1] == LastDigits(w - 1, n / 10) && b[..w - 1] == LastDigits(w - 1, m / 10);
    if n >= 10 && m >= 10 {
      LastDigitsInjective(w - 1, n / 10, m / 10);
    } else if n >= 10 {
      LeadingDigit(w - 1, n / 10);
    } else if m >= 10 {
      LeadingDigit(w - 1, m / 10);
    }
  }

  /** A positive number shows a non-zero digit, which zero does not. */
  lemma {:induction false} LeadingDigit(w: nat, n: nat)
    requires n > 0 && w >= NumDigits(n)
    ensures LastDigits(w, n) != LastDigits(w, 0)
  {
    var a, b := LastDigits(w, n), LastDigits(w, 0);
    if n % 10 != 0 {
      assert a[w - 1] != b[w - 1];
    } else {
      LeadingDigit(w - 1, n / 10);
      assert a[..w - 1] == LastDigits(w - 1, n / 10) && b[..w - 1] == LastDigits(w - 1, 0);
    }
  }

  /** Numbers printed with at least `w` digits differ when the numbers do. */
  lemma PadInjective(w: nat, n: nat, m: nat)
    requires Pad(w, n) == Pad(w, m)
    ensures n == m
  {
    LastDigitsInjective(|Pad(w, n)|, n, m);
  }

  function Pow10(k: nat): (p: nat)
    ensures p >= 1
  {
    if k == 0 then 1 else 10 * Pow10(k - 1)
  }

  lemma {:induction false} DigitsBound(n: nat, k: nat)
    requires k >= 1
    ensures NumDigits(n) <= k <==> n < Pow10(k)
  {
    if k > 1 && n >= 10 {
      DigitsBound(n / 10, k - 1);
    }
  }

  /** With equal width, a smaller number prints as a smaller string, whatever follows. */
  lemma {:induction false} DigitsOrdered(w: nat, n: nat, m: nat, x: string, y: string)
    requires n < m && w >= NumDigits(m)
    ensures Less(LastDigits(w, n) + x, LastDigits(w, m) + y)
  {
    var p, q := LastDigits(w - 1, n / 10), LastDigits(w - 1, m / 10);
    var c, d := DigitChar(n % 10), DigitChar(m % 10);
    assert LastDigits(w, n) + x == p + ([c] + x) && LastDigits(w, m) + y == q + ([d] + y);
    if n / 10 == m / 10 {
      LessAfterPrefix(p, [c] + x, [d] + y);
    } else {
      DigitsOrdered(w - 1, n / 10, m / 10, [c] + x, [d] + y);
    }
  }

  lemma {:induction false} LessAfterPrefix(p: string, x: string, y: string)
    requires Less(x, y)
    ensures Less(p + x, p + y)
  {
    if p == "" {
      assert p + x == x && p + y == y;
    } else {
      LessAfterPrefix(p[1..], x, y);
      assert (p + x)[1..] == p[1..] + x && (p + y)[1..] == p[1..] + y;
    }
  }

  function DigitValue(c: char): nat
    requires IsDigit(c)
  {
    (c - '0') as nat
  }

  predicate AllDigits(s: string)
  {
    forall i :: 0 <= i < |s| ==> IsDigit(s[i])
  }

  /** The number a digit string denotes. */
  function NumberOf(s: string): nat
    requires AllDigits(s)
  {
    if s == "" then 0 else 10 * NumberOf(s[..|s| - 1]) + DigitValue(s[|s| - 1])
  }

  lemma NumberOfAppend(s: string, d: nat)
    requires AllDigits(s) && d < 10
    ensures AllDigits(s + [DigitChar(d)]) && NumberOf(s + [DigitChar(d)]) == 10 * NumberOf(s) + d
  {
    assert (s + [DigitChar(d)])[..|s|] == s;
  }

  /** Printing a number with enough digits and reading it back. */
  lemma {:induction false} ReadBack(w: nat, n: nat)
    requires w >= NumDigits(n)
    ensures AllDigits(LastDigits(w, n)) && NumberOf(LastDigits(w, n)) == n
  {
    if w > 1 {
      FewerDigits(n);
      ReadBack(w - 1, n / 10);
    }
    NumberOfAppend(LastDigits(w - 1, n / 10), n % 10);
  }

  lemma FewerDigits(n: nat)
    ensures NumDigits(n / 10) <= if n < 10 then 1 else NumDigits(n) - 1
  { }

  /** A number without its last `k` digits. */
  function DropDigits(n: nat, k: nat): nat
    decreases k
  {
    if k == 0 then n else DropDigits(n / 10, k - 1)
  }

  lemma {:induction false} DigitsSplit(a: nat, k: nat, n: nat)
    ensures LastDigits(a + k, n) == LastDigits(a, DropDigits(n, k)) + LastDigits(k, n)
    decreases k
  {
    if k == 0 {
      assert LastDigits(a, n) + "" == LastDigits(a, n);
    } else {
      DigitsSplit(a, k - 1, n / 10);
      SplitAssoc(LastDigits(a, DropDigits(n, k)), LastDigits(k - 1, n / 10), DigitChar(n % 10));
    }
  }

  lemma SplitAssoc(a: string, b: string, c: char)
    ensures (a + b) + [c] == a + (b + [c])
  { }

  lemma {:induction false} DroppedDigits(n: nat, k: nat)
    requires k < NumDigits(n)
    ensures NumDigits(DropDigits(n, k)) == NumDigits(n) - k
    decreases k
  {
    if k > 0 { DroppedDigits(n / 10, k - 1); }
  }

  lemma {:induction false} MoreDigits(v: nat, w: nat)
    requires v <= w
    ensures NumDigits(v) <= NumDigits(w)
  {
    if w >= 10 { MoreDigits(v / 10, w / 10); }
  }

  // ---------------------------------------------------------------------------
  // What a printed number is, without saying how it is printed.

  /** `p` is the number `n` in digits: at least `w` of them, and without a leading zero if more. */
  predicate ShowsNumber(p: string, w: nat, n: nat)
  {
    AllDigits(p) && NumberOf(p) == n && |p| >= w && (|p| > w ==> p[0] != '0')
  }

  lemma {:induction false} LeadingNonZero(n: nat)
    requires n > 0
    ensures LastDigits(NumDigits(n), n)[0] != '0'
  {
    if n >= 10 { LeadingNonZero(n / 10); }
  }

  lemma PadShows(w: nat, n: nat)
    requires w >= 1
    ensures ShowsNumber(Pad(w, n), w, n)
  {
    ReadBack(|Pad(w, n)|, n);
    if NumDigits(n) > w { LeadingNonZero(n); }
  }

  lemma {:induction false} DigitsReadBack(p: string)
    requires AllDigits(p)
    ensures LastDigits(|p|, NumberOf(p)) == p
  {
    if p != "" {
      var init, c := p[..|p| - 1], p[|p| - 1];
      DigitsReadBack(init);
      assert p == init + [c];
      assert NumberOf(p) / 10 == NumberOf(init) && NumberOf(p) % 10 == DigitValue(c);
      assert DigitChar(DigitValue(c)) == c;
    }
  }

  lemma {:induction false} DigitsOfNumber(p: string)
    requires p != "" && AllDigits(p)
    ensures NumDigits(NumberOf(p)) <= |p|
    ensures p[0] != '0' ==> NumDigits(NumberOf(p)) == |p| && NumberOf(p) > 0
  {
    if |p| > 1 {
      DigitsOfNumber(p[..|p| - 1]);
      assert NumberOf(p) / 10 == NumberOf(p[..|p| - 1]);
    } else {
      assert p[..0] == "";
    }
  }

  /** Exactly one text shows a number. */
  lemma ShowsIffPad(p: string, w: nat, n: nat)
    requires w >= 1
    ensures ShowsNumber(p, w, n) <==> p == Pad(w, n)
  {
    PadShows(w, n);
    if ShowsNumber(p, w, n) {
      DigitsReadBack(p);
      DigitsOfNumber(p);
    }
  }
}
