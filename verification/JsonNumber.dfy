// Integers out of number tokens: JSONParser_GetU, GetInt and GetUInt (src/json/js.c)
// as the tree calls them, on a token of its own, and PutInt/PutUInt
// (src/json/jsgen.c).  64-bit accumulators are unbounded here; tokens whose digit
// runs need more than 63 bits are excluded by RunsFit.
module JsonNumber {
  import opened Common
  import opened Decimal
  import opened JsonChars

  const MAX_UINT32: nat := 4294967295
  const MAX_INT32: nat := 2147483647

  datatype Num = Success(u: nat) | Minus(u: nat) | Overflow | Bad

  // ---- the scan ----------------------------------------------------------

  function DigitsEnd(s: string, i: nat): (r: nat)
    requires i <= |s|
    ensures i <= r <= |s| && Digits(s[i..r])
    decreases |s| - i
  {
    if i < |s| && IsDigit(s[i]) then
      var r := DigitsEnd(s, i + 1);
      assert s[i..r] == [s[i]] + s[i + 1..r];
      r
    else i
  }

  /** Where the parts of a token are: integer digits [intBegin, intEnd), fraction
      digits [fracBegin, fracEnd), exponent digits [expBegin, expEnd). */
  datatype Layout = Layout(neg: bool, intBegin: nat, intEnd: nat, fracBegin: nat, fracEnd: nat,
                           hasExp: bool, minusExp: bool, expBegin: nat, expEnd: nat)

  function IntBegin(s: string): (i: nat)
    ensures i <= |s|
  {
    if s != "" && s[0] == '-' then 1 else 0
  }

  function FracBegin(s: string, intEnd: nat): (f: nat)
    requires intEnd <= |s|
    ensures intEnd <= f <= |s|
  {
    if intEnd < |s| && s[intEnd] == '.' then intEnd + 1 else intEnd
  }

  predicate HasExp(s: string, fracEnd: nat)
  {
    fracEnd < |s| && (s[fracEnd] == 'e' || s[fracEnd] == 'E')
  }

  predicate HasSign(s: string, fracEnd: nat)
  {
    fracEnd + 1 < |s| && (s[fracEnd + 1] == '-' || s[fracEnd + 1] == '+')
  }

  function Scan(s: string): (l: Layout)
    ensures l.intBegin <= l.intEnd <= l.fracBegin <= l.fracEnd <= |s|
    ensures Digits(s[l.intBegin..l.intEnd]) && Digits(s[l.fracBegin..l.fracEnd])
    ensures l.hasExp ==> l.expBegin <= l.expEnd <= |s| && Digits(s[l.expBegin..l.expEnd])
  {
    var i := IntBegin(s);
    var iEnd := DigitsEnd(s, i);
    var f := FracBegin(s, iEnd);
    var fEnd := DigitsEnd(s, f);
    if HasExp(s, fEnd) then
      var x := if HasSign(s, fEnd) then fEnd + 2 else fEnd + 1;
      Layout(i == 1, i, iEnd, f, fEnd, true, HasSign(s, fEnd) && s[fEnd + 1] == '-', x, DigitsEnd(s, x))
    else Layout(i == 1, i, iEnd, f, fEnd, false, false, 0, 0)
  }

  /** The 64-bit accumulators do not overflow on this token. */
  predicate RunsFit(s: string)
  {
    var l := Scan(s);
    && Nat(s[l.intBegin..l.intEnd]) < 0x8000_0000_0000_0000
    && (l.hasExp ==> Nat(s[l.expBegin..l.expEnd]) < 0x8000_0000_0000_0000)
  }

  // ---- scaling by the exponent -------------------------------------------

  /** A positive exponent: take up one fraction digit, or a zero, per unit. */
  function ScaleUp(frac: string, l: nat, e: nat): (r: Num)
    requires Digits(frac)
    ensures r.Success? || r.Overflow?
    decreases e
  {
    if e == 0 then Success(l)
    else
      var l' := l * 10 + (if frac == "" then 0 else DigitValue(frac[0]));
      if l' > MAX_UINT32 then Overflow
      else ScaleUp(if frac == "" then "" else frac[1..], l', e - 1)
  }

  /** A negative exponent: drop one digit per unit while the pointer can move left
      of the fraction, past the '.', down to the first digit. */
  function ScaleDown(begin: nat, f: nat, l: nat, e: nat): (nat, nat, nat)
    decreases e
  {
    if e == 0 || f <= begin then (f, l, e) else ScaleDown(begin, f - 1, l / 10, e - 1)
  }

  predicate ZerosBetween(s: string, f: nat, fEnd: nat)
    requires fEnd <= |s|
  {
    forall k :: f <= k < fEnd ==> s[k] == '0'
  }

  function Finish(neg: bool, zeros: bool, l: nat): Num
  {
    if !zeros then Bad else if neg then Minus(l) else Success(l)
  }

  function GetU(s: string): Num
  {
    var p := Scan(s);
    var l := Nat(s[p.intBegin..p.intEnd]);
    if l > MAX_UINT32 then Overflow
    else if !p.hasExp then Finish(p.neg, ZerosBetween(s, p.fracBegin, p.fracEnd), l)
    else
      var e := Nat(s[p.expBegin..p.expEnd]);
      if !p.minusExp then
        var r := ScaleUp(s[p.fracBegin..p.fracEnd], l, e);
        if r.Overflow? then Overflow
        else Finish(p.neg, ZerosBetween(s, p.fracBegin + e, p.fracEnd), r.u)
      else
        var (f, v, left) := ScaleDown(p.intBegin, p.fracBegin, l, e);
        if left > 0 then Bad else Finish(p.neg, ZerosBetween(s, f, p.fracEnd), v)
  }

  // ---- literals ----------------------------------------------------------

  datatype ExpSign = NoSign | PlusSign | MinusSign

  datatype Exponent = NoExp | Exp(upper: bool, sign: ExpSign, digits: string)

  /** A number literal of RFC 8259 section 6; "." and fraction go together.  Extra
      leading zeros, which the section forbids, are allowed too. */
  datatype Literal = Literal(neg: bool, int_: string, frac: string, exp: Exponent)

  predicate WellFormed(n: Literal)
  {
    && n.int_ != "" && Digits(n.int_) && Digits(n.frac)
    && (n.exp.Exp? ==> n.exp.digits != "" && Digits(n.exp.digits))
  }

  function FracText(frac: string): string { if frac == "" then "" else "." + frac }

  function ExpText(exp: Exponent): string
  {
    match exp
    case NoExp => ""
    case Exp(upper, sign, digits) =>
      (if upper then "E" else "e")
      + (match sign case NoSign => "" case PlusSign => "+" case MinusSign => "-")
      + digits
  }

  function Render(n: Literal): string
  {
    (if n.neg then "-" else "") + n.int_ + FracText(n.frac) + ExpText(n.exp)
  }

  lemma {:induction false} DigitsEndAt(s: string, i: nat, j: nat)
    requires i <= j <= |s| && (j < |s| ==> !IsDigit(s[j]))
    requires forall k :: i <= k < j ==> IsDigit(s[k])
    ensures DigitsEnd(s, i) == j
    decreases j - i
  {
    if i < j { DigitsEndAt(s, i + 1, j); }
  }

  predicate StopsDigits(rest: string) { rest == "" || !IsDigit(rest[0]) }

  lemma DigitsRun(s: string, pre: string, d: string, post: string)
    requires s == pre + d + post && Digits(d) && StopsDigits(post)
    ensures DigitsEnd(s, |pre|) == |pre| + |d|
    ensures s[|pre|..|pre| + |d|] == d
    ensures |pre| + |d| < |s| <==> post != ""
    ensures post != "" ==> s[|pre| + |d|] == post[0]
  {
    DigitsEndAt(s, |pre|, |pre| + |d|);
  }

  function Sign(neg: bool): string { if neg then "-" else "" }

  function ExpMark(exp: Exponent): string
    requires exp.Exp?
  {
    (if exp.upper then "E" else "e")
    + (match exp.sign case NoSign => "" case PlusSign => "+" case MinusSign => "-")
  }

  lemma TailStops(n: Literal)
    ensures StopsDigits(FracText(n.frac) + ExpText(n.exp)) && StopsDigits(ExpText(n.exp))
  {
    ExpTextStart(n.exp);
    hide ExpText;
    if n.frac == "" {
      assert "" + ExpText(n.exp) == ExpText(n.exp);
    } else {
      assert (FracText(n.frac) + ExpText(n.exp))[0] == '.';
    }
  }

  lemma RenderInt(n: Literal)
    ensures Render(n) == Sign(n.neg) + n.int_ + (FracText(n.frac) + ExpText(n.exp))
  {
    hide ExpText, FracText;
  }

  lemma RenderFraction(n: Literal)
    requires n.frac != ""
    ensures Render(n) == (Sign(n.neg) + n.int_ + ".") + n.frac + ExpText(n.exp)
  {
    hide ExpText;
  }

  lemma ExpTextStart(exp: Exponent)
    ensures ExpText(exp) != "" <==> exp.Exp?
    ensures ExpText(exp) != "" ==> ExpText(exp)[0] == 'e' || ExpText(exp)[0] == 'E'
  {
  }

  lemma IntPart(n: Literal, s: string)
    requires WellFormed(n) && s == Render(n)
    ensures IntBegin(s) == |Sign(n.neg)|
    ensures DigitsEnd(s, IntBegin(s)) == |Sign(n.neg)| + |n.int_| <= |s|
    ensures s[|Sign(n.neg)|..|Sign(n.neg)| + |n.int_|] == n.int_
  {
    hide DigitsEnd, ExpText, Render, FracText;
    TailStops(n);
    RenderInt(n);
    assert s[0] == (Sign(n.neg) + n.int_)[0];
    DigitsRun(s, Sign(n.neg), n.int_, FracText(n.frac) + ExpText(n.exp));
  }

  function Mantissa(n: Literal): string { Sign(n.neg) + n.int_ + FracText(n.frac) }

  lemma NoFraction(s: string, pre: string, post: string)
    requires s == pre + post && StopsDigits(post) && (post == "" || post[0] != '.')
    ensures FracBegin(s, |pre|) == |pre| && DigitsEnd(s, |pre|) == |pre|
  {
    DigitsRun(s, pre, "", post);
  }

  lemma WithFraction(s: string, pre: string, frac: string, post: string)
    requires s == (pre + ".") + frac + post && Digits(frac) && StopsDigits(post)
    ensures |pre| < |s| && s[|pre|] == '.' && FracBegin(s, |pre|) == |pre| + 1
    ensures DigitsEnd(s, |pre| + 1) == |pre| + 1 + |frac|
    ensures s[|pre| + 1..|pre| + 1 + |frac|] == frac
  {
    DigitsRun(s, pre + ".", frac, post);
    assert s[|pre|] == (pre + ".")[|pre|];
  }

  lemma MantissaLength(n: Literal)
    ensures |Mantissa(n)| == |Sign(n.neg)| + |n.int_| + (if n.frac == "" then 0 else 1 + |n.frac|)
  {
  }

  lemma FracPart(n: Literal, s: string, iEnd: nat)
    requires WellFormed(n) && s == Render(n) && iEnd == |Sign(n.neg)| + |n.int_| <= |s|
    ensures var f := FracBegin(s, iEnd);
            && f == (if n.frac == "" then iEnd else iEnd + 1)
            && DigitsEnd(s, f) == f + |n.frac| <= |s| && f + |n.frac| == |Mantissa(n)|
            && s[f..f + |n.frac|] == n.frac
            && (n.frac != "" ==> s[iEnd] == '.')
  {
    hide *;
    MantissaLength(n);
    if n.frac == "" { FracAbsent(n, s); } else { FracPresent(n, s); }
  }

  lemma NoFracText(n: Literal)
    requires n.frac == ""
    ensures FracText(n.frac) + ExpText(n.exp) == ExpText(n.exp)
  {
    hide ExpText;
  }

  lemma FracAbsent(n: Literal, s: string)
    requires WellFormed(n) && s == Render(n) && n.frac == ""
    ensures var iEnd := |Sign(n.neg)| + |n.int_|;
            iEnd <= |s| && FracBegin(s, iEnd) == iEnd && DigitsEnd(s, iEnd) == iEnd && s[iEnd..iEnd] == n.frac
  {
    hide *;
    TailStops(n);
    RenderInt(n);
    ExpTextStart(n.exp);
    NoFracText(n);
    NoFraction(s, Sign(n.neg) + n.int_, ExpText(n.exp));
  }

  lemma FracPresent(n: Literal, s: string)
    requires WellFormed(n) && s == Render(n) && n.frac != ""
    ensures var iEnd := |Sign(n.neg)| + |n.int_|;
            && iEnd < |s| && s[iEnd] == '.' && FracBegin(s, iEnd) == iEnd + 1
            && DigitsEnd(s, iEnd + 1) == iEnd + 1 + |n.frac| <= |s|
            && s[iEnd + 1..iEnd + 1 + |n.frac|] == n.frac
  {
    hide DigitsEnd, ExpText, Render, FracBegin, Sign;
    TailStops(n);
    RenderFraction(n);
    WithFraction(s, Sign(n.neg) + n.int_, n.frac, ExpText(n.exp));
  }

  lemma ExponentAt(s: string, pre: string, mark: string, digits: string)
    requires s == (pre + mark) + digits + "" && digits != "" && Digits(digits)
    requires 1 <= |mark| <= 2 && (mark[0] == 'e' || mark[0] == 'E')
    requires |mark| == 2 ==> mark[1] == '+' || mark[1] == '-'
    ensures HasExp(s, |pre|)
    ensures HasSign(s, |pre|) <==> |mark| == 2
    ensures |pre| + 1 < |s| && (|mark| == 2 ==> s[|pre| + 1] == mark[1])
    ensures DigitsEnd(s, |pre| + |mark|) == |s|
    ensures s[|pre| + |mark|..] == digits
  {
    hide DigitsEnd;
    var front := pre + mark;
    DigitsRun(s, front, digits, "");
    assert front[|pre|] == mark[0] && s[|pre|] == front[|pre|];
    if |mark| == 2 {
      assert front[|pre| + 1] == mark[1] && s[|pre| + 1] == front[|pre| + 1];
    } else {
      assert s[|front|] == digits[0];
    }
  }

  lemma NoExponent(s: string, pre: string)
    requires s == pre + ""
    ensures !HasExp(s, |pre|)
  {
  }

  lemma MarkShape(exp: Exponent)
    requires exp.Exp?
    ensures var mark := ExpMark(exp);
            && 1 <= |mark| <= 2 && (mark[0] == 'e' || mark[0] == 'E')
            && (|mark| == 1 <==> exp.sign.NoSign?)
            && (|mark| == 2 ==> mark[1] == '+' || mark[1] == '-')
            && (|mark| == 2 ==> (mark[1] == '-' <==> exp.sign.MinusSign?))
  {
  }

  lemma ExpPart(n: Literal, s: string, fEnd: nat)
    requires WellFormed(n) && s == Render(n) && fEnd == |Mantissa(n)| <= |s|
    ensures HasExp(s, fEnd) == n.exp.Exp?
    ensures n.exp.Exp? ==>
              var x := if HasSign(s, fEnd) then fEnd + 2 else fEnd + 1;
              && x <= DigitsEnd(s, x) <= |s| && s[x..DigitsEnd(s, x)] == n.exp.digits
              && (HasSign(s, fEnd) && s[fEnd + 1] == '-' <==> n.exp.sign.MinusSign?)
  {
    hide DigitsEnd, Render, Mantissa, HasSign, HasExp, ExpText;
    RenderMantissa(n);
    if n.exp.NoExp? {
      ExpTextStart(n.exp);
      NoExponent(s, Mantissa(n));
    } else {
      MarkShape(n.exp);
      hide ExpMark;
      assert s == (Mantissa(n) + ExpMark(n.exp)) + n.exp.digits + "" by { ExpSplit(n); }
      ExponentAt(s, Mantissa(n), ExpMark(n.exp), n.exp.digits);
    }
  }

  lemma ExpSplit(n: Literal)
    requires n.exp.Exp?
    ensures Mantissa(n) + ExpText(n.exp) == (Mantissa(n) + ExpMark(n.exp)) + n.exp.digits + ""
  {
    assert ExpText(n.exp) == ExpMark(n.exp) + n.exp.digits;
  }

  lemma RenderMantissa(n: Literal)
    ensures Render(n) == Mantissa(n) + ExpText(n.exp)
  {
  }

  /** The scan finds the literal's parts. */
  lemma ScanRender(n: Literal)
    requires WellFormed(n)
    ensures var s := Render(n); var p := Scan(s);
            && p.neg == n.neg && s[p.intBegin..p.intEnd] == n.int_
            && s[p.fracBegin..p.fracEnd] == n.frac
            && p.fracBegin == (if n.frac == "" then p.intEnd else p.intEnd + 1)
            && p.hasExp == n.exp.Exp?
            && (p.hasExp ==> p.minusExp == n.exp.sign.MinusSign? && s[p.expBegin..p.expEnd] == n.exp.digits)
            && (n.frac != "" ==> s[p.intEnd] == '.')
  {
    hide DigitsEnd, ExpText, Render, FracText, HasExp, HasSign;
    var s := Render(n);
    IntPart(n, s);
    FracPart(n, s, DigitsEnd(s, IntBegin(s)));
    ExpPart(n, s, |Mantissa(n)|);
  }

  // ---- arithmetic --------------------------------------------------------

  /** What `e` steps of ScaleUp move in front of the point. */
  function Taken(frac: string, e: nat): nat
    requires Digits(frac)
  {
    var m := Min(e, |frac|);
    Nat(frac[..m]) * Pow10(e - m)
  }

  lemma TakenStep(frac: string, e: nat)
    requires Digits(frac) && e > 0
    ensures Taken(frac, e) == if frac == "" then 0
                              else DigitValue(frac[0]) * Pow10(e - 1) + Taken(frac[1..], e - 1)
  {
    if frac != "" {
      var m := Min(e, |frac|);
      var d, rest := frac[..1], frac[1..][..m - 1];
      assert frac[..m] == d + rest;
      NatConcat(d, rest);
      assert Nat(d) == DigitValue(frac[0]) by { assert d[..0] == ""; }
      Pow10Sum(m - 1, e - m);
      Distribute(Nat(d), Pow10(m - 1), Nat(rest), Pow10(e - m));
    }
  }

  lemma Distribute(a: nat, b: nat, c: nat, d: nat)
    ensures (a * b + c) * d == a * (b * d) + c * d
  {
  }

  lemma {:induction false} ScaleUpIs(frac: string, l: nat, e: nat)
    requires Digits(frac) && l <= MAX_UINT32
    ensures var full := l * Pow10(e) + Taken(frac, e);
            ScaleUp(frac, l, e) == if full > MAX_UINT32 then Overflow else Success(full)
    decreases e
  {
    if e > 0 {
      TakenStep(frac, e);
      var d := if frac == "" then 0 else DigitValue(frac[0]);
      var rest := if frac == "" then "" else frac[1..];
      assert Taken("", e - 1) == 0;
      Distribute(l, 10, d, Pow10(e - 1));
      AtLeast(l * 10 + d, Pow10(e - 1));
      if l * 10 + d <= MAX_UINT32 { ScaleUpIs(rest, l * 10 + d, e - 1); }
    }
  }

  lemma AtLeast(a: nat, b: nat)
    requires b > 0
    ensures a * b >= a
  {
    assert a * b == a + a * (b - 1);
  }

  lemma Regroup(i: nat, f: nat, r: nat, a: nat, b: nat, c: nat, g: nat)
    requires g * a == b * c
    ensures (i * a + (f * b + r)) * c == (i * c + f * g) * a + r * c
  {
    assert (i * a + (f * b + r)) * c == i * a * c + f * b * c + r * c;
    assert (i * c + f * g) * a == i * c * a + f * g * a;
    assert f * b * c == f * (b * c) && f * g * a == f * (g * a);
    assert i * a * c == i * c * a;
  }

  /** The digits left over, against the divisor. */
  lemma Remainder(r: nat, k: nat, n: nat, e: nat)
    requires k <= e && (k == e || n == 0) && r < Pow10(n)
    ensures r * Pow10(e) < Pow10(k + n)
    ensures r * Pow10(e) == 0 <==> r == 0
  {
    if r > 0 { Product(r, Pow10(e)); }
    if n != 0 {
      Pow10Sum(e, n);
      ProductLess(r, Pow10(n), Pow10(e));
    }
  }

  lemma Shifts(k: nat, n: nat, e: nat)
    requires k <= e
    ensures Pow10(e - k) * Pow10(k + n) == Pow10(n) * Pow10(e)
  {
    Pow10Sum(e - k, k + n);
    Pow10Sum(n, e);
  }

  /** The scaled digits are the quotient of the literal's magnitude
      N * 10^e / 10^|frac|, and the digits left over tell whether it is whole. */
  lemma Quotient(ip: string, frac: string, e: nat)
    requires Digits(ip) && Digits(frac)
    ensures Digits(ip + frac)
    ensures var m, d := Nat(ip + frac) * Pow10(e), Pow10(|frac|);
            && m / d == Nat(ip) * Pow10(e) + Taken(frac, e)
            && (m % d == 0 <==> AllZeros(frac[Min(e, |frac|)..]))
  {
    hide Nat, Pow10;
    var k := Min(e, |frac|);
    var front, rest := frac[..k], frac[k..];
    assert frac == front + rest;
    NatConcat(ip, frac);
    NatConcat(front, rest);
    NatBound(rest);
    NatZero(rest);
    Shifts(k, |rest|, e);
    Regroup(Nat(ip), Nat(front), Nat(rest), Pow10(|frac|), Pow10(|rest|), Pow10(e), Pow10(e - k));
    Remainder(Nat(rest), k, |rest|, e);
    DivideBy(Nat(ip) * Pow10(e) + Taken(frac, e), Pow10(|frac|), Nat(rest) * Pow10(e));
  }

  lemma Product(a: nat, b: nat)
    requires a > 0 && b > 0
    ensures a * b > 0
  {
    AtLeast(a, b);
  }

  lemma ProductLess(r: nat, b: nat, c: nat)
    requires r < b && c > 0
    ensures r * c < c * b
  {
    assert c * b == c * r + c * (b - r);
    Product(c, b - r);
  }

  lemma {:induction false} ScaleDownDigits(begin: nat, ip: string, k: nat, e: nat)
    requires Digits(ip) && k <= |ip|
    ensures var m := Min(e, k);
            ScaleDown(begin, begin + k, Nat(ip[..k]), e) == (begin + k - m, Nat(ip[..k - m]), e - m)
    decreases e
  {
    if e > 0 && k > 0 {
      assert ip[..k][..k - 1] == ip[..k - 1];
      DivideBy(Nat(ip[..k - 1]), 10, DigitValue(ip[k - 1]));
      ScaleDownDigits(begin, ip, k - 1, e - 1);
    }
  }

  lemma {:induction false} ScaleDownMoves(begin: nat, f: nat, l: nat, e: nat)
    ensures ScaleDown(begin, f, l, e).0 <= f
    decreases e
  {
    if e > 0 && f > begin { ScaleDownMoves(begin, f - 1, l / 10, e - 1); }
  }

  // ---- what GetU reads ---------------------------------------------------

  function ExpValue(n: Literal): nat
    requires WellFormed(n)
  {
    if n.exp.NoExp? then 0 else Nat(n.exp.digits)
  }

  predicate ScalesDown(n: Literal)
    requires WellFormed(n)
  {
    n.exp.Exp? && n.exp.sign.MinusSign? && ExpValue(n) > 0
  }

  function Signed(neg: bool, l: nat): Num { if neg then Minus(l) else Success(l) }

  /** Magnitude numerator and denominator of a literal whose exponent is absent
      or not negative: all its digits times 10^exponent, over 10^(fraction digits). */
  function Numerator(n: Literal): nat
    requires WellFormed(n)
  {
    NatConcat(n.int_, n.frac);
    Nat(n.int_ + n.frac) * Pow10(ExpValue(n))
  }

  function Denominator(n: Literal): (d: nat)
    ensures d > 0
  {
    Pow10(|n.frac|)
  }

  /** Without a negative exponent GetU is exact: overflow when the integer part of
      the magnitude exceeds 2^32 - 1, else an error when a fraction remains, else
      the magnitude itself, with the sign reported. */
  lemma GetUNonNegative(n: Literal)
    requires WellFormed(n) && !ScalesDown(n)
    ensures var m, d := Numerator(n), Denominator(n);
            GetU(Render(n)) ==
              if m / d > MAX_UINT32 then Overflow
              else if m % d != 0 then Bad
              else Signed(n.neg, m / d)
  {
    hide Scan, Render, Pow10, Nat;
    var s, e := Render(n), ExpValue(n);
    var p := Scan(s);
    ScanRender(n);
    Quotient(n.int_, n.frac, e);
    var k := Min(e, |n.frac|);
    assert ZerosBetween(s, p.fracBegin + e, p.fracEnd) <==> AllZeros(n.frac[k..]) by {
      FractionZeros(s, p.fracBegin, p.fracEnd, e);
    }
    AtLeast(Nat(n.int_), Pow10(e));
    if Nat(n.int_) <= MAX_UINT32 { ScaleUpIs(n.frac, Nat(n.int_), e); }
    if e == 0 { ZeroExponent(n); }
  }

  lemma FractionZeros(s: string, f: nat, fEnd: nat, e: nat)
    requires f <= fEnd <= |s|
    ensures ZerosBetween(s, f + e, fEnd) <==> AllZeros(s[f..fEnd][Min(e, fEnd - f)..])
  {
    var rest := s[f..fEnd][Min(e, fEnd - f)..];
    if e < fEnd - f {
      assert forall k :: 0 <= k < |rest| ==> rest[k] == s[f + e + k];
      assert forall k :: f + e <= k < fEnd ==> s[k] == rest[k - f - e];
    }
  }

  lemma ZeroExponent(n: Literal)
    requires WellFormed(n) && ExpValue(n) == 0
    ensures Nat(n.int_) * Pow10(0) + Taken(n.frac, 0) == Nat(n.int_)
  {
  }

  /** Dropping the last `e` digits divides by 10^e. */
  lemma DropDigits(ip: string, e: nat)
    requires Digits(ip) && e <= |ip|
    ensures Digits(ip[..|ip| - e]) && Nat(ip[..|ip| - e]) == Nat(ip) / Pow10(e)
    ensures Nat(ip) % Pow10(e) == 0 <==> AllZeros(ip[|ip| - e..])
  {
    hide Nat, Pow10;
    var a, z := ip[..|ip| - e], ip[|ip| - e..];
    assert ip == a + z;
    NatConcat(a, z);
    NatBound(z);
    NatZero(z);
    DivideBy(Nat(a), Pow10(e), Nat(z));
  }

  /** A negative exponent is followed only on an integer mantissa, only as far as
      it has digits, and only over zeros: then the quotient is exact.  The check
      against 2^32 - 1 is made before scaling. */
  lemma GetUNegative(n: Literal)
    requires WellFormed(n) && ScalesDown(n)
    ensures var i, e := Nat(n.int_), ExpValue(n);
            GetU(Render(n)) ==
              if i > MAX_UINT32 then Overflow
              else if n.frac != "" || e > |n.int_| || i % Pow10(e) != 0 then Bad
              else Signed(n.neg, i / Pow10(e))
  {
    hide Scan, Render, Pow10, Nat;
    var s, e := Render(n), ExpValue(n);
    var p := Scan(s);
    ScanRender(n);
    if n.frac != "" {
      FractionStops(n, s, p, e);
    } else {
      IntegerScaled(n, s, p, e);
      if e <= |n.int_| { DropDigits(n.int_, e); }
    }
  }

  /** The same by digits: those dropped are all zeros, and the others are the number. */
  lemma IntegerScaled(n: Literal, s: string, p: Layout, e: nat)
    requires WellFormed(n) && n.frac == "" && p == Scan(s) && p.fracBegin == p.intEnd == p.fracEnd
    requires s[p.intBegin..p.intEnd] == n.int_ && p.hasExp && p.minusExp && p.neg == n.neg
    requires Nat(s[p.expBegin..p.expEnd]) == e
    ensures Digits(n.int_) && (e <= |n.int_| ==> Digits(n.int_[..|n.int_| - e]))
    ensures GetU(s) == if Nat(n.int_) > MAX_UINT32 then Overflow
                       else if e > |n.int_| || !AllZeros(n.int_[|n.int_| - e..]) then Bad
                       else Signed(n.neg, Nat(n.int_[..|n.int_| - e]))
  {
    hide Scan, Nat, ScaleDown, AllZeros, ZerosBetween;
    var k := |n.int_|;
    assert n.int_[..k] == n.int_;
    ScaleDownDigits(p.intBegin, n.int_, k, e);
    if e <= k { FractionZeros(s, p.intBegin, p.intEnd, k - e); }
  }

  lemma FractionStops(n: Literal, s: string, p: Layout, e: nat)
    requires p == Scan(s) && p.intEnd < |s| && s[p.intEnd] == '.' && p.fracBegin == p.intEnd + 1
    requires n.frac != "" && s[p.fracBegin..p.fracEnd] == n.frac && e > 0
    ensures var f := ScaleDown(p.intBegin, p.fracBegin, Nat(s[p.intBegin..p.intEnd]), e).0;
            !ZerosBetween(s, f, p.fracEnd)
  {
    var l := Nat(s[p.intBegin..p.intEnd]);
    assert ScaleDown(p.intBegin, p.fracBegin, l, e) == ScaleDown(p.intBegin, p.fracBegin - 1, l / 10, e - 1);
    ScaleDownMoves(p.intBegin, p.fracBegin - 1, l / 10, e - 1);
  }

  /** "10.0e-1" is one and "0e-2" is zero, but GetU takes neither. */
  lemma WholeValuesRefused()
    ensures GetU("10.0e-1") == Bad && GetU("0e-2") == Bad
  {
    hide GetU, Nat, Pow10;
    var a := Literal(false, "10", "0", Exp(false, MinusSign, "1"));
    var b := Literal(false, "0", "", Exp(false, MinusSign, "2"));
    assert Render(a) == "10.0e-1" && Render(b) == "0e-2";
    SmallNats();
    GetUNegative(a);
    GetUNegative(b);
  }

  lemma SmallNats()
    ensures Nat("0") == 0 && Nat("1") == 1 && Nat("2") == 2 && Nat("10") == 10
  {
    assert "0"[..0] == "" && "1"[..0] == "" && "2"[..0] == "" && "10"[..1] == "1";
  }

  // ---- GetInt and GetUInt ------------------------------------------------

  datatype IntRead = Int(i: int) | IntOverflow | IntError

  function GetInt(s: string): IntRead
  {
    match GetU(s)
    case Success(u) => if u > MAX_INT32 then IntOverflow else Int(u)
    case Minus(u) => if u > MAX_INT32 + 1 then IntOverflow else Int(0 - u)
    case Overflow => IntOverflow
    case Bad => IntError
  }

  function GetUInt(s: string): IntRead
  {
    match GetU(s)
    case Success(u) => Int(u)
    case Minus(_) => IntOverflow
    case Overflow => IntOverflow
    case Bad => IntError
  }

  /** What GetInt and GetUInt make of a whole magnitude: each gives the number when its
      C type holds it and reports overflow otherwise; GetUInt takes no minus sign, not
      even before a zero. */
  predicate ReadsInts(s: string, neg: bool, q: nat)
  {
    var i: int := q;
    var v := if neg then -i else i;
    && GetInt(s) == (if -0x8000_0000 <= v <= 0x7FFF_FFFF then Int(v) else IntOverflow)
    && GetUInt(s) == (if !neg && v <= 0xFFFF_FFFF then Int(v) else IntOverflow)
  }

  predicate ReadsNone(s: string, error: IntRead) { GetInt(s) == error && GetUInt(s) == error }

  lemma SignedReads(s: string, neg: bool, q: nat)
    requires GetU(s) == Signed(neg, q) && q <= MAX_UINT32
    ensures ReadsInts(s, neg, q)
  {
    hide GetU;
  }

  /** Every literal without a negative exponent, by its exact value. */
  lemma IntsNonNegative(n: Literal)
    requires WellFormed(n) && !ScalesDown(n)
    ensures var s, m, d := Render(n), Numerator(n), Denominator(n);
            if m / d > MAX_UINT32 then ReadsNone(s, IntOverflow)
            else if m % d != 0 then ReadsNone(s, IntError)
            else ReadsInts(s, n.neg, m / d)
  {
    hide GetU, Render, Numerator, Denominator, ReadsInts;
    GetUNonNegative(n);
    var m, d := Numerator(n), Denominator(n);
    if m / d <= MAX_UINT32 && m % d == 0 { SignedReads(Render(n), n.neg, m / d); }
  }

  /** Every literal with one. */
  lemma IntsNegative(n: Literal)
    requires WellFormed(n) && ScalesDown(n)
    ensures var s, i, e := Render(n), Nat(n.int_), ExpValue(n);
            if i > MAX_UINT32 then ReadsNone(s, IntOverflow)
            else if n.frac != "" || e > |n.int_| || i % Pow10(e) != 0 then ReadsNone(s, IntError)
            else ReadsInts(s, n.neg, i / Pow10(e))
  {
    hide GetU, Render, Nat, Pow10, ReadsInts;
    GetUNegative(n);
    var i, e := Nat(n.int_), ExpValue(n);
    if i <= MAX_UINT32 && n.frac == "" && e <= |n.int_| && i % Pow10(e) == 0 {
      QuotientSmaller(i, Pow10(e));
      SignedReads(Render(n), n.neg, i / Pow10(e));
    }
  }

  lemma {:induction false} AtLeastOnce(q: nat, p: nat)
    requires p > 0
    ensures q * p >= q
  {
    if p > 1 {
      AtLeastOnce(q, p - 1);
      assert q * p == q * (p - 1) + q;
    }
  }

  lemma QuotientSmaller(i: nat, p: nat)
    requires p > 0
    ensures i / p <= i
  {
    var q, r := i / p, i % p;
    assert i == q * p + r;
    AtLeastOnce(q, p);
  }

  /** printf's %d. */
  function PutInt(i: int): string { if i < 0 then "-" + Dec(-i) else Dec(i) }

  lemma GetUDecimal(neg: bool, u: nat)
    requires u <= MAX_UINT32
    ensures GetU((if neg then "-" else "") + Dec(u)) == Signed(neg, u)
  {
    hide GetU, Dec, Numerator, Denominator;
    var n := Literal(neg, Dec(u), "", NoExp);
    assert Render(n) == (if neg then "-" else "") + Dec(u);
    GetUNonNegative(n);
    PlainMagnitude(n, u);
  }

  lemma PlainMagnitude(n: Literal, u: nat)
    requires WellFormed(n) && n.frac == "" && n.exp.NoExp? && Nat(n.int_) == u
    ensures Numerator(n) / Denominator(n) == u && Numerator(n) % Denominator(n) == 0
  {
    assert n.int_ + "" == n.int_;
    assert Numerator(n) == u * Pow10(0) && Pow10(0) == 1;
  }

  lemma IntRoundTrip(i: int)
    requires -0x8000_0000 <= i <= 0x7FFF_FFFF
    ensures GetInt(PutInt(i)) == Int(i)
  {
    hide GetU, Dec;
    GetUDecimal(i < 0, if i < 0 then -i else i);
    assert "" + Dec(if i < 0 then -i else i) == Dec(if i < 0 then -i else i);
  }

  lemma UIntRoundTrip(u: nat)
    requires u <= 0xFFFF_FFFF
    ensures GetUInt(Dec(u)) == Int(u)
  {
    hide GetU, Dec;
    GetUDecimal(false, u);
    assert "" + Dec(u) == Dec(u);
  }

  // ---- tokens that are no literals ---------------------------------------

  /** Where the scan of a token stops. */
  function ScanEnd(s: string): (e: nat)
    ensures e <= |s|
  {
    var p := Scan(s);
    if p.hasExp then p.expEnd else p.fracEnd
  }

  lemma {:induction false} DigitsEndPrefix(s: string, i: nat, e: nat)
    requires i <= |s| && DigitsEnd(s, i) <= e <= |s|
    ensures DigitsEnd(s[..e], i) == DigitsEnd(s, i)
    decreases |s| - i
  {
    if i < |s| && IsDigit(s[i]) { DigitsEndPrefix(s, i + 1, e); }
  }

  lemma MarksPrefix(s: string, e: nat, intEnd: nat, fracEnd: nat)
    requires intEnd <= fracEnd <= e <= |s|
    requires intEnd < |s| && s[intEnd] == '.' ==> intEnd < e
    requires HasExp(s, fracEnd) ==> fracEnd + (if HasSign(s, fracEnd) then 2 else 1) <= e
    requires !HasExp(s, fracEnd) ==> fracEnd == e
    requires HasExp(s, fracEnd) && e == fracEnd + 1 < |s| ==> !HasSign(s, fracEnd)
    ensures FracBegin(s[..e], intEnd) == FracBegin(s, intEnd)
    ensures HasExp(s[..e], fracEnd) == HasExp(s, fracEnd)
    ensures HasExp(s, fracEnd) ==> HasSign(s[..e], fracEnd) == HasSign(s, fracEnd)
  {
  }

  lemma ScanPrefix(s: string)
    ensures Scan(s[..ScanEnd(s)]) == Scan(s)
  {
    hide DigitsEnd, FracBegin, HasExp, HasSign;
    var p, e := Scan(s), ScanEnd(s);
    assert IntBegin(s[..e]) == IntBegin(s);
    DigitsEndPrefix(s, p.intBegin, e);
    DigitsEndPrefix(s, p.fracBegin, e);
    if p.hasExp { DigitsEndPrefix(s, p.expBegin, e); }
    FracBeginBehind(s, p.intEnd);
    MarksPrefix(s, e, p.intEnd, p.fracEnd);
  }

  lemma FracBeginBehind(s: string, intEnd: nat)
    requires intEnd <= |s|
    ensures intEnd < |s| && s[intEnd] == '.' ==> FracBegin(s, intEnd) == intEnd + 1
  {
  }

  lemma PrefixSlice(s: string, t: string, e: nat, a: nat, b: nat)
    requires a <= b <= e <= |s| && t == s[..e]
    ensures t[a..b] == s[a..b]
  {
  }

  lemma ZerosPrefix(s: string, e: nat, f: nat, fEnd: nat)
    requires fEnd <= e <= |s|
    ensures ZerosBetween(s[..e], f, fEnd) == ZerosBetween(s, f, fEnd)
  {
    assert forall k :: 0 <= k < e ==> s[..e][k] == s[k];
  }

  /** On any token at all: what stands behind the place where the scan stops is
      ignored, not refused. */
  lemma OnlyScannedCounts(s: string)
    ensures GetU(s) == GetU(s[..ScanEnd(s)])
  {
    hide Scan, ScaleUp, ScaleDown, Nat, ZerosBetween, GetU, Finish;
    ScanPrefix(s);
    GetUSame(s, s[..ScanEnd(s)]);
  }

  /** Tokens with the same layout whose parts agree. */
  lemma GetUSame(s: string, t: string)
    requires t == s[..ScanEnd(s)] && Scan(t) == Scan(s)
    ensures GetU(s) == GetU(t)
  {
    hide Scan, ScaleUp, ScaleDown, Nat, ZerosBetween, Finish;
    var p, e := Scan(s), ScanEnd(s);
    PrefixSlice(s, t, e, p.intBegin, p.intEnd);
    PrefixSlice(s, t, e, p.fracBegin, p.fracEnd);
    if p.hasExp {
      PrefixSlice(s, t, e, p.expBegin, p.expEnd);
      assert p.fracEnd <= e by { FracBeforeExp(s); }
      var f := ScaleDown(p.intBegin, p.fracBegin, Nat(s[p.intBegin..p.intEnd]), Nat(s[p.expBegin..p.expEnd])).0;
      ZerosPrefix(s, e, f, p.fracEnd);
    }
    forall f: nat ensures ZerosBetween(t, f, p.fracEnd) == ZerosBetween(s, f, p.fracEnd) {
      ZerosPrefix(s, e, f, p.fracEnd);
    }
  }

  lemma FracBeforeExp(s: string)
    ensures Scan(s).fracEnd <= ScanEnd(s)
  {
  }

  /** "12ab" reads as twelve. */
  lemma JunkIgnored()
    ensures GetInt("12ab") == Int(12)
  {
    hide GetU, Nat;
    var s := "12ab";
    DigitsEndAt(s, 0, 2);
    DigitsEndAt(s, 2, 2);
    assert ScanEnd(s) == 2 && s[..2] == "12";
    OnlyScannedCounts(s);
    TwelveRead();
  }

  lemma TwelveRead()
    ensures GetInt("12") == Int(12)
  {
    hide GetInt;
    var d := Dec(12);
    assert d == Dec(1) + "2" == "12";
    IntRoundTrip(12);
  }

  // ---- the loops ---------------------------------------------------------

  lemma NoDigits(s: string, i: nat)
    requires i <= |s|
    ensures s[i..i] == "" && Digits("") && Nat("") == 0
    ensures i == |s| || !IsDigit(s[i]) ==> DigitsEnd(s, i) == i
  {
  }

  lemma OneMoreDigit(s: string, i: nat, end: nat)
    requires i <= end < |s| && Digits(s[i..end]) && IsDigit(s[end])
    ensures Digits(s[i..end + 1]) && Nat(s[i..end + 1]) == Nat(s[i..end]) * 10 + DigitValue(s[end])
    ensures DigitsEnd(s, end) == DigitsEnd(s, end + 1)
  {
    assert s[i..end + 1][..end - i] == s[i..end];
  }

  /** ScanU: the value of a digit run and where it ends. */
  method ScanU(s: string, i: nat) returns (value: nat, end: nat)
    requires i <= |s|
    ensures end == DigitsEnd(s, i) && value == Nat(s[i..end])
  {
    hide Nat, DigitsEnd, Digits;
    end, value := i, 0;
    NoDigits(s, i);
    while end < |s| && IsDigit(s[end])
      invariant i <= end <= |s| && Digits(s[i..end])
      invariant DigitsEnd(s, end) == DigitsEnd(s, i)
      invariant value == Nat(s[i..end])
    {
      OneMoreDigit(s, i, end);
      value := value * 10 + DigitValue(s[end]);
      end := end + 1;
    }
    NoDigits(s, end);
  }

  /** The exponent behind the mantissa. */
  method ScanExponent(s: string, at: nat) returns (minus: bool, e: nat)
    requires HasExp(s, at)
    ensures minus <==> HasSign(s, at) && s[at + 1] == '-'
    ensures var x := if HasSign(s, at) then at + 2 else at + 1;
            e == Nat(s[x..DigitsEnd(s, x)])
  {
    hide Nat, DigitsEnd;
    minus := false;
    var psz := at + 1;
    if psz < |s| && s[psz] == '-' {
      minus := true;
      psz := psz + 1;
    } else if psz < |s| && s[psz] == '+' {
      psz := psz + 1;
    }
    e, psz := ScanU(s, psz);
  }

  /** JSONParser_GetU on a token: (code, *pi) as one value. */
  method ReadU(s: string) returns (r: Num)
    requires RunsFit(s)
    ensures r == GetU(s)
  {
    hide Nat, DigitsEnd, ScaleUp, ScaleDown, ZerosBetween;
    ghost var p := Scan(s);
    var psz := 0;
    var bMinus := false;
    if psz < |s| && s[psz] == '-' {
      bMinus := true;
      psz := psz + 1;
    }
    var pszNum := psz;
    var lResult;
    lResult, psz := ScanU(s, psz);
    if psz < |s| && s[psz] == '.' { psz := psz + 1; }
    if lResult > MAX_UINT32 { return Overflow; }
    var pszFrac := psz;
    var _, pszE := ScanU(s, psz);
    psz := pszE;
    assert pszNum == p.intBegin && pszFrac == p.fracBegin && pszE == p.fracEnd;
    if psz < |s| && (s[psz] == 'e' || s[psz] == 'E') {
      var bMinusExp, lExp := ScanExponent(s, psz);
      if !bMinusExp {
        var over;
        over, lResult, pszFrac := RaiseBy(s, pszFrac, pszE, lResult, lExp);
        if over { return Overflow; }
      } else {
        lResult, lExp, pszFrac := LowerBy(pszNum, pszFrac, lResult, lExp);
        if lExp > 0 { return Bad; }
      }
    }
    var zeros := OnlyZeros(s, pszFrac, pszE);
    if !zeros { return Bad; }
    r := if bMinus then Minus(lResult) else Success(lResult);
  }

  method RaiseBy(s: string, frac: nat, fracEnd: nat, l: nat, e: nat)
    returns (over: bool, value: nat, f: nat)
    requires frac <= fracEnd <= |s| && Digits(s[frac..fracEnd])
    ensures over <==> ScaleUp(s[frac..fracEnd], l, e).Overflow?
    ensures !over ==> ScaleUp(s[frac..fracEnd], l, e) == Success(value) && f == frac + e
  {
    over, value, f := false, l, frac;
    var left: nat := e;
    while left > 0
      invariant f == frac + (e - left) && left <= e
      invariant var rest := if f <= fracEnd then s[f..fracEnd] else "";
                Digits(rest) && ScaleUp(rest, value, left) == ScaleUp(s[frac..fracEnd], l, e)
      decreases left
    {
      if f < fracEnd {
        assert s[f..fracEnd][0] == s[f] && s[f..fracEnd][1..] == s[f + 1..fracEnd];
        value := value * 10 + DigitValue(s[f]);
      } else {
        value := value * 10;
      }
      if value > MAX_UINT32 { return true, value, f; }
      left := left - 1;
      f := f + 1;
    }
  }

  method LowerBy(begin: nat, frac: nat, l: nat, e: nat) returns (value: nat, left: nat, f: nat)
    ensures (f, value, left) == ScaleDown(begin, frac, l, e)
  {
    value, left, f := l, e, frac;
    while left > 0 && f > begin
      invariant ScaleDown(begin, f, value, left) == ScaleDown(begin, frac, l, e)
      decreases left
    {
      value := value / 10;
      left := left - 1;
      f := f - 1;
    }
  }

  method OnlyZeros(s: string, from: nat, to: nat) returns (zeros: bool)
    requires to <= |s|
    ensures zeros == ZerosBetween(s, from, to)
  {
    var k := from;
    while k < to
      invariant from <= k && forall j :: from <= j < k && j < to ==> s[j] == '0'
    {
      if s[k] != '0' { return false; }
      k := k + 1;
    }
    zeros := true;
  }
}
