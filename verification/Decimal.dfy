// Decimal digit strings and powers of ten.
module Decimal {

  import opened JsonChars

  predicate Digits(d: string) { forall k :: 0 <= k < |d| ==> IsDigit(d[k]) }

  function DigitValue(c: char): (v: nat)
    requires IsDigit(c)
    ensures v < 10
  {
    c as int - '0' as int
  }

  function Pow10(n: nat): (r: nat)
    ensures r > 0
  {
    if n == 0 then 1 else 10 * Pow10(n - 1)
  }

  /** The number a digit string denotes. */
  function Nat(d: string): nat
    requires Digits(d)
  {
    if d == "" then 0 else 10 * Nat(d[..|d| - 1]) + DigitValue(d[|d| - 1])
  }

  lemma {:induction false} Pow10Sum(a: nat, b: nat)
    ensures Pow10(a + b) == Pow10(a) * Pow10(b)
  {
    if a > 0 { Pow10Sum(a - 1, b); }
  }

  lemma TenTimes(x: nat, n: nat)
    ensures x * Pow10(n + 1) == 10 * (x * Pow10(n))
  {
  }

  lemma {:induction false} NatConcat(a: string, b: string)
    requires Digits(a) && Digits(b)
    ensures Digits(a + b) && Nat(a + b) == Nat(a) * Pow10(|b|) + Nat(b)
    decreases |b|
  {
    if b == "" {
      assert a + b == a;
    } else {
      var n := |b| - 1;
      NatConcat(a, b[..n]);
      assert (a + b)[..|a + b| - 1] == a + b[..n];
      TenTimes(Nat(a), n);
    }
  }

  lemma {:induction false} NatBound(d: string)
    requires Digits(d)
    ensures Nat(d) < Pow10(|d|)
  {
    if d != "" { NatBound(d[..|d| - 1]); }
  }

  predicate AllZeros(d: string) { forall k :: 0 <= k < |d| ==> d[k] == '0' }

  lemma {:induction false} NatZero(d: string)
    requires Digits(d)
    ensures Nat(d) == 0 <==> AllZeros(d)
  {
    if d != "" {
      var n := |d| - 1;
      NatZero(d[..n]);
      assert AllZeros(d) <==> AllZeros(d[..n]) && d[n] == '0';
    }
  }

  lemma Larger(q: nat, q': nat, d: nat, r: nat, r': nat)
    requires r < d && q < q'
    ensures q * d + r < q' * d + r'
  {
    assert q' * d == q * d + (q' - q) * d;
    assert (q' - q) * d >= d by { assert (q' - q) * d == d + (q' - q - 1) * d; }
  }

  /** Division with a remainder is unique. */
  lemma DivideBy(q: nat, d: nat, r: nat)
    requires r < d
    ensures (q * d + r) / d == q && (q * d + r) % d == r
  {
    var m := q * d + r;
    var q', r' := m / d, m % d;
    assert m == q' * d + r';
    if q < q' { Larger(q, q', d, r, r'); }
    if q' < q { Larger(q', q, d, r', r); }
  }

  /** printf's %u: the shortest digit string. */
  function Dec(n: nat): (d: string)
    ensures |d| > 0 && Digits(d) && Nat(d) == n
  {
    var c := ('0' as int + n % 10) as char;
    if n < 10 then
      assert [c][..0] == "";
      [c]
    else
      var front := Dec(n / 10);
      assert (front + [c])[..|front|] == front;
      front + [c]
  }
}
