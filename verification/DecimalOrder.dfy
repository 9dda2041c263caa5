/** The allocation-free comparison of decimals in src/vm/numeric.c, digit by digit, against
    the order of the numbers they denote. */
module DecimalOrder {
  import opened Limbs
  import opened BigInt
  import opened BigText
  import opened NumberTheory
  import opened Rational
  import opened DecimalMath

  // ----- Division by powers of ten -----

  lemma QuotientIs(x: nat, t: nat, q: nat, r: nat)
    requires t > 0 && x == t * q + r && r < t
    ensures x / t == q && x % t == r
  {
    RemainderUnique(x, t, q, r, x / t, x % t) by { assert q * t == t * q; }
  }

  lemma DivDiv(x: nat, s: nat, t: nat)
    requires s > 0 && t > 0
    ensures s * t > 0 && x / (s * t) == (x / s) / t
  {
    var q, r := x / s, x % s;
    var u, v := q / t, q % t;
    TwoQuotients(x, s, t, q, r, u, v);
    QuotientIs(x, s * t, u, s * v + r);
  }

  lemma TwoQuotients(x: nat, s: nat, t: nat, q: nat, r: nat, u: nat, v: nat)
    requires x == s * q + r && q == t * u + v && r < s && v < t
    ensures s * t > 0 && x == (s * t) * u + (s * v + r) && s * v + r < s * t
  {
    Distribute(s, t * u, v, 0);
    Associate(s, t, u);
    MulMono(s, v + 1, s, t);
    Distribute(s, v, 1, 0);
  }

  lemma DivAddMultiple(x: nat, t: nat, k: nat)
    requires t > 0
    ensures (x + t * k) / t == x / t + k
  {
    assert x == t * (x / t) + x % t;
    assert t * (x / t + k) == t * (x / t) + t * k;
    QuotientIs(x + t * k, t, x / t + k, x % t);
  }

  /** Decimal digit `o` of a number, counted from the lowest. */
  ghost function DigitAt(x: nat, o: nat): nat {
    x / Ten(o) % 10
  }

  lemma NextPrefix(x: nat, j: nat)
    ensures x / Ten(j) == 10 * (x / Ten(j + 1)) + DigitAt(x, j)
  {
    hide Ten;
    assert Ten(j + 1) == Ten(j) * 10 by { TenStep(j); }
    DivDiv(x, Ten(j), 10);
  }

  lemma TenStep(j: nat)
    ensures Ten(j + 1) == Ten(j) * 10
  {
  }

  lemma ScaledLow(x: nat, k: nat, o: nat)
    requires o < k
    ensures DigitAt(x * Ten(k), o) == 0
  {
    TenAdd(o, k - o);
    TenStep(k - o - 1);
    hide Ten;
    var t, u := Ten(o), Ten(k - o - 1);
    Regroup(x, t, u);
    QuotientIs(x * Ten(k), t, 10 * (x * u), 0);
  }

  lemma Regroup(x: nat, t: nat, u: nat)
    ensures x * (t * (u * 10)) == t * (10 * (x * u))
    ensures (t * (10 * u)) * x == t * (10 * (u * x))
  {
    assert x * (t * (u * 10)) == t * (x * (u * 10));
    assert x * (u * 10) == 10 * (x * u);
    assert (t * (10 * u)) * x == t * ((10 * u) * x);
    assert (10 * u) * x == 10 * (u * x);
  }

  lemma ScaledHigh(x: nat, k: nat, o: nat)
    requires k <= o
    ensures DigitAt(x * Ten(k), o) == DigitAt(x, o - k)
  {
    TenAdd(k, o - k);
    hide Ten;
    DivDiv(x * Ten(k), Ten(k), Ten(o - k));
    assert x * Ten(k) == Ten(k) * x + 0;
    QuotientIs(x * Ten(k), Ten(k), x, 0);
  }

  /** Scaling up moves the digits and fills with zeros. */
  lemma ScaledDigit(x: nat, k: nat, o: nat)
    ensures DigitAt(x * Ten(k), o) == if o < k then 0 else DigitAt(x, o - k)
  {
    hide DigitAt, Ten;
    if o < k {
      ScaledLow(x, k, o);
    } else {
      ScaledHigh(x, k, o);
    }
  }

  lemma {:induction false} TenMono(m: nat, n: nat)
    ensures m <= n ==> Ten(m) <= Ten(n)
    ensures Ten(m) < Ten(n) ==> m < n
  {
    if m <= n {
      TenAdd(m, n - m);
      MulMono(Ten(m), 1, Ten(m), Ten(n - m));
    } else {
      TenAdd(n, m - n);
      MulMono(Ten(n), 1, Ten(n), Ten(m - n));
    }
  }

  // ----- Digits of limbs -----

  lemma {:induction false} BasePower(i: nat)
    ensures P(i) == Ten(9 * i)
  {
    if i > 0 {
      BasePower(i - 1);
      NineDigits();
      TenAdd(9, 9 * (i - 1));
    }
  }

  lemma LimbPrefix(l: seq<u32>, i: nat)
    requires i <= |l| && Digits(l)
    ensures Val(l) / P(i) == High(l, i)
  {
    LowHigh(l, i);
    LowBound(l, i);
    QuotientIs(Val(l), P(i), High(l, i), Low(l, i));
  }

  lemma LimbDigit(x: nat, h: nat, j: nat)
    requires j < 9
    ensures DigitAt(x + BASE * h, j) == DigitAt(x, j)
  {
    NineDigits();
    TenAdd(j, 9 - j);
    var t, u := Ten(j), Ten(8 - j);
    assert Ten(9 - j) == 10 * u;
    hide Ten;
    Regroup(h, t, u);
    DivAddMultiple(x, t, 10 * (u * h));
    LastDigit(x / t, u * h);
  }

  lemma LastDigit(a: nat, k: nat)
    ensures (a + 10 * k) % 10 == a % 10
  {
  }

  /** `coefficient_digit` reads one digit out of one limb. */
  lemma DigitOfLimbs(l: seq<u32>, o: nat)
    requires Digits(l) && o / 9 < |l|
    ensures DigitAt(Val(l), o) == DigitAt(l[o / 9] as nat, o % 9)
  {
    var i, j := o / 9, o % 9;
    BasePower(i);
    TenAdd(9 * i, j);
    assert 9 * i + j == o;
    LimbPrefix(l, i);
    LimbDigit(l[i] as nat, High(l, i + 1), j);
    hide Ten, P;
    DivDiv(Val(l), P(i), Ten(j));
  }

  /** The powers table of `coefficient_digit`. */
  const powers: seq<u32> := [1, 10, 100, 1000, 10_000, 100_000, 1_000_000, 10_000_000, 100_000_000]

  lemma PowersTable(j: nat)
    requires j < 9
    ensures powers[j] as nat == Ten(j)
  {
    assert Ten(2) == 100 && Ten(3) == 10 * Ten(2);
    assert Ten(5) == 100 * Ten(3) && Ten(4) == 10 * Ten(3);
    assert Ten(7) == 100 * Ten(5) && Ten(6) == 10 * Ten(5);
    assert Ten(8) == 10 * Ten(7);
  }

  /** `coefficient_digits`: the number of decimal digits. */
  method CountDigits(number: Big) returns (digits: nat)
    requires Trimmed(number.limbs)
    ensures number.limbs == [] ==> digits == 1
    ensures number.limbs != [] ==> digits > 0 && Ten(digits - 1) <= Val(number.limbs) < Ten(digits)
    ensures number.limbs != [] ==> 9 * (|number.limbs| - 1) < digits
  {
    hide Val, Ten;
    var l := number.limbs;
    if l == [] {
      return 1;
    }
    digits := (|l| - 1) * 9 + 1;
    var top := l[|l| - 1];
    ghost var k: nat := 0;
    assert Ten(0) == 1 by { TenZero(); }
    while top >= 10
      invariant digits == (|l| - 1) * 9 + 1 + k && top > 0
      invariant Ten(k) * top as nat <= l[|l| - 1] as nat < Ten(k) * (top as nat + 1)
      decreases top
    {
      TopStep(Ten(k), top as nat, l[|l| - 1] as nat);
      TenStep(k);
      top := top / 10;
      k := k + 1;
      digits := digits + 1;
    }
    TopDigit(l, k, top as nat);
  }

  lemma TenZero()
    ensures Ten(0) == 1
  {
  }

  lemma TopStep(t: nat, top: nat, x: nat)
    requires t * top <= x < t * (top + 1)
    ensures (t * 10) * (top / 10) <= x < (t * 10) * (top / 10 + 1)
  {
    var q := top / 10;
    assert (t * 10) * q == t * (10 * q) && (t * 10) * (q + 1) == t * (10 * q + 10);
    MulMono(t, 10 * q, t, top);
    MulMono(t, top + 1, t, 10 * q + 10);
  }

  lemma TopDigit(l: seq<u32>, k: nat, top: nat)
    requires l != [] && Digits(l) && 0 < top < 10
    requires Ten(k) * top <= l[|l| - 1] as nat < Ten(k) * (top + 1)
    ensures var d := (|l| - 1) * 9 + 1 + k; Ten(d - 1) <= Val(l) < Ten(d)
  {
    hide Ten, P, Low, Val;
    var n := |l| - 1;
    LowBound(l, n);
    BasePower(n);
    TenAdd(9 * n, k);
    TenAdd(9 * n, k + 1);
    TenStep(k);
    assert Val(l) == Low(l, n) + P(n) * l[n] as nat by { ValTop(l); }
    TopBounds(Low(l, n), P(n), l[n] as nat, Ten(k), top);
  }

  lemma ValTop(l: seq<u32>)
    requires l != []
    ensures Val(l) == Low(l, |l| - 1) + P(|l| - 1) * l[|l| - 1] as nat
  {
    LowStep(l, |l| - 1);
  }

  lemma TopBounds(low: nat, p: nat, x: nat, t: nat, top: nat)
    requires low < p && 0 < top < 10 && t * top <= x < t * (top + 1)
    ensures p * t <= low + p * x < p * (t * 10)
  {
    MulMono(t, 1, t, top);
    MulMono(t, top + 1, t, 10);
    MulMono(p, t, p, x);
    MulMono(p, x + 1, p, t * 10);
    Distribute(p, x, 1, 0);
  }

  /** `coefficient_digit`: digit `position` from the top, zero beyond the end. */
  method DigitFromTop(number: Big, digits: nat, position: nat) returns (d: u32)
    requires Digits(number.limbs) && (position < digits ==> (digits - 1) / 9 < |number.limbs|)
    ensures d as nat == if position >= digits then 0 else DigitAt(Val(number.limbs), digits - position - 1)
  {
    if position >= digits {
      return 0;
    }
    var offset := digits - position - 1;
    DigitOfLimbs(number.limbs, offset);
    PowersTable(offset % 9);
    d := number.limbs[offset / 9] / powers[offset % 9] % 10;
  }

  // ----- Comparison -----

  ghost function Sign(x: real, y: real): int {
    if x < y then -1 else if x == y then 0 else 1
  }

  /** Decimals whose leading digits stand at different places. */
  lemma PlaceDecides(x: nat, m: nat, ex: int, y: nat, n: nat, ey: int)
    requires m > 0 && n > 0 && x < Ten(m) && Ten(n - 1) <= y && m + ex < n + ey
    ensures Dec(x, ex) < Dec(y, ey)
  {
    hide TenR, Ten, Dec;
    SameScale(x, Ten(m), ex);
    SameScale(Ten(n - 1), y, ey);
    SameScale(y, Ten(n - 1), ey);
    PowerDec(m, ex);
    PowerDec(n - 1, ey);
    TenRMono(m + ex, n - 1 + ey);
  }

  lemma PowerDec(n: nat, e: int)
    ensures Dec(Ten(n), e) == TenR(n + e)
  {
    TenRShift(e, n);
    assert e + n == n + e;
  }

  lemma TenRMono(a: int, b: int)
    requires a <= b
    ensures TenR(a) <= TenR(b)
  {
    hide TenR, Ten;
    TenRShift(a, b - a);
    TenRPositive(a);
    var t, x, y := Ten(b - a), TenR(a), TenR(a + (b - a));
    GrowReal(t as real, x);
    assert a + (b - a) == b;
  }

  lemma GrowReal(t: real, x: real)
    requires t >= 1.0 && x > 0.0
    ensures t * x >= x
  {
    assert (t - 1.0) * x >= 0.0;
    assert (t - 1.0) * x == t * x - x;
  }

  /** The digits of a number above its lowest `k`. */
  ghost function Leading(x: nat, k: nat): int {
    x / Ten(k)
  }

  /** With equal leading digits, the next digit decides, or is leading too. */
  lemma DigitDecides(x: nat, y: nat, k: nat)
    requires Leading(x, k + 1) == Leading(y, k + 1)
    ensures DigitAt(x, k) < DigitAt(y, k) ==> x < y
    ensures DigitAt(x, k) > DigitAt(y, k) ==> x > y
    ensures DigitAt(x, k) == DigitAt(y, k) ==> Leading(x, k) == Leading(y, k)
  {
    hide DigitAt;
    NextPrefix(x, k);
    NextPrefix(y, k);
    PrefixDecides(x, y, Ten(k));
    PrefixDecides(y, x, Ten(k));
  }

  lemma AllLeading(x: nat)
    ensures Leading(x, 0) == x
  {
    TenZero();
  }

  /** The digit loop: two numbers of at most `count` digits, compared from the top. */
  method CompareDigits(a: Big, la: nat, b: Big, lb: nat) returns (c: int)
    requires Trimmed(a.limbs) && Trimmed(b.limbs) && 0 < la && 0 < lb
    requires Val(a.limbs) < Ten(la) && Val(b.limbs) < Ten(lb)
    requires (la - 1) / 9 < |a.limbs| && (lb - 1) / 9 < |b.limbs|
    ensures var n := if la > lb then la else lb;
            c == Order(Val(a.limbs) * Ten(n - la), Val(b.limbs) * Ten(n - lb))
  {
    hide Val, Ten, DigitAt, Leading;
    var count := if la > lb then la else lb;
    ghost var x, y := Val(a.limbs) * Ten(count - la), Val(b.limbs) * Ten(count - lb);
    NoPrefix(Val(a.limbs), la, count);
    NoPrefix(Val(b.limbs), lb, count);
    var i := 0;
    while i < count
      invariant 0 <= i <= count && Leading(x, count - i) == Leading(y, count - i)
    {
      var ld := DigitFromTop(a, la, i);
      var rd := DigitFromTop(b, lb, i);
      AlignedDigit(Val(a.limbs), la, count, i);
      AlignedDigit(Val(b.limbs), lb, count, i);
      DigitDecides(x, y, count - i - 1);
      if ld != rd {
        return if ld < rd then -1 else 1;
      }
      i := i + 1;
    }
    AllLeading(x);
    AllLeading(y);
    c := 0;
  }

  lemma NoPrefix(v: nat, l: nat, count: nat)
    requires l <= count && v < Ten(l)
    ensures Leading(v * Ten(count - l), count) == 0
  {
    TenAdd(l, count - l);
    hide Ten;
    var t := Ten(count - l);
    BelowProduct(v, Ten(l), t);
    QuotientIs(v * t, Ten(count), 0, v * t);
  }

  lemma BelowProduct(v: nat, w: nat, t: nat)
    requires v < w && t > 0
    ensures v * t < w * t
  {
    MulMono(v + 1, t, w, t);
    Distribute(t, v, 1, 0);
  }

  lemma PrefixDecides(x: nat, y: nat, t: nat)
    requires t > 0
    ensures x / t < y / t ==> x < y
  {
    if x >= y {
      var d := x - y;
      assert y == t * (y / t) + y % t && x == t * (x / t) + x % t;
      var e := y / t - x / t;
      assert e >= 1 ==> t * e >= t * 1;
      assert t * e == t * (y / t) - t * (x / t);
    }
  }

  lemma AlignedDigit(v: nat, l: nat, count: nat, i: nat)
    requires l <= count && i < count
    ensures DigitAt(v * Ten(count - l), count - i - 1) == if i >= l then 0 else DigitAt(v, l - i - 1)
  {
    hide DigitAt, Ten;
    ScaledDigit(v, count - l, count - i - 1);
  }

  /** `decimal_compare`: the sign of the comparison of the two numbers. */
  method Compare(a: Big, ea: int, b: Big, eb: int) returns (c: int)
    requires a.Normal() && b.Normal()
    ensures c == Sign(Dec(a.Value(), ea), Dec(b.Value(), eb))
  {
    hide Val, Dec;
    NormalPositive(a.limbs);
    NormalPositive(b.limbs);
    SignOfDec(a.Value(), ea);
    SignOfDec(b.Value(), eb);
    if a.sign != b.sign {
      return if a.sign < b.sign then -1 else 1;
    }
    if a.sign == 0 {
      return 0;
    }
    c := CompareMagnitudes(a, ea, b, eb);
    Negation(Val(a.limbs), ea);
    Negation(Val(b.limbs), eb);
    c := c * a.sign;
  }

  lemma SignOfDec(c: int, e: int)
    ensures Dec(c, e) < 0.0 <==> c < 0
    ensures Dec(c, e) == 0.0 <==> c == 0
  {
    DecZero(0, e);
    SameScale(c, 0, e);
  }

  lemma Negation(c: int, e: int)
    ensures Dec(-c, e) == -Dec(c, e)
  {
    var t := TenR(e);
    assert (-c) as real * t == -(c as real * t);
  }

  method CompareMagnitudes(a: Big, ea: int, b: Big, eb: int) returns (c: int)
    requires Trimmed(a.limbs) && Trimmed(b.limbs) && a.limbs != [] && b.limbs != []
    ensures c == Sign(Dec(Val(a.limbs), ea), Dec(Val(b.limbs), eb))
  {
    hide Val, Dec, Ten;
    var la := CountDigits(a);
    var lb := CountDigits(b);
    if la + ea != lb + eb {
      if la + ea < lb + eb {
        PlaceDecides(Val(a.limbs), la, ea, Val(b.limbs), lb, eb);
        return -1;
      }
      PlaceDecides(Val(b.limbs), lb, eb, Val(a.limbs), la, ea);
      return 1;
    }
    EnoughLimbs(a.limbs, la);
    EnoughLimbs(b.limbs, lb);
    c := CompareDigits(a, la, b, lb);
    ghost var n := if la > lb then la else lb;
    ghost var e := ea - (n - la);
    Rescale(Val(a.limbs), ea, e);
    Rescale(Val(b.limbs), eb, e);
    SameScale(Val(a.limbs) * Ten(n - la), Val(b.limbs) * Ten(n - lb), e);
  }

  lemma EnoughLimbs(l: seq<u32>, d: nat)
    requires Digits(l) && l != [] && d > 0 && Ten(d - 1) <= Val(l)
    ensures (d - 1) / 9 < |l|
  {
    LowBound(l, |l|);
    BasePower(|l|);
    TenMono(d - 1, 9 * |l|);
  }
}
