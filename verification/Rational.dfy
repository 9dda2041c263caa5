/** Greatest common divisors, rationals and integer remainders of src/vm/numeric.c. */
module Rational {
  import opened Limbs
  import opened BigInt
  import opened BigDivide
  import opened NumberTheory

  // ----- Greatest common divisor -----

  lemma TruncatedIsEuclidean(a: int, b: int, q: int, r: int)
    requires Truncated(a, b, q, r) && a >= 0 && b > 0
    ensures r == a % b && 0 <= r
  {
    RemainderUnique(a, b, q, r, a / b, a % b);
  }

  lemma RemainderUnique(a: int, b: int, q: int, r: int, q': int, r': int)
    requires b > 0 && a == q * b + r && a == q' * b + r' && 0 <= r < b && 0 <= r' < b
    ensures q == q' && r == r'
  {
    var d := q - q';
    assert d * b == q * b - q' * b;
    assert d >= 1 ==> d * b >= 1 * b;
    assert d <= -1 ==> d * b <= -1 * b;
  }

  /** A multiple of a number is zero or at least as large. */
  lemma MultipleSize(b: int, d: int)
    ensures d == 0 ==> b * d == 0
    ensures d != 0 ==> Abs(b * d) >= Abs(b)
  {
    if d >= 1 {
      if b > 0 {
        assert b * d >= b * 1;
      } else {
        assert b * d <= b * 1;
      }
    } else if d <= -1 {
      if b > 0 {
        assert b * d <= b * -1;
      } else {
        assert b * d >= b * -1;
      }
    }
  }

  /** Truncated division has one result. */
  lemma TruncatedUnique(a: int, b: int, q: int, r: int, q': int, r': int)
    requires b != 0 && Truncated(a, b, q, r) && Truncated(a, b, q', r')
    ensures q == q' && r == r'
  {
    assert b * (q - q') == q * b - q' * b;
    MultipleSize(b, q - q');
  }

  /** A fresh copy of the magnitude. */
  method AbsCopy(x: Big) returns (out: Big)
    requires x.Normal()
    ensures fresh(out) && out.Normal() && out.Value() == Abs(x.Value())
  {
    out := new Big.Copy(x);
    if out.limbs != [] {
      out.sign := 1;
    }
    NormalPositive(x.limbs);
  }

  /** `big_gcd` */
  method BigGcd(left: Big, right: Big) returns (out: Big)
    requires left.Normal() && right.Normal()
    ensures fresh(out) && out.Normal() && out.Value() == Gcd(Abs(left.Value()), Abs(right.Value()))
  {
    hide Val;
    var a := AbsCopy(left);
    var b := AbsCopy(right);
    NormalPositive(b.limbs);
    while b.sign != 0
      invariant fresh(a) && fresh(b) && a.Normal() && b.Normal() && a.Value() >= 0 && b.Value() >= 0
      invariant b.sign == 0 <==> b.Value() == 0
      invariant Gcd(a.Value(), b.Value()) == Gcd(Abs(left.Value()), Abs(right.Value()))
      decreases b.Value()
    {
      var ok, q, r := DivMod(a, b);
      TruncatedIsEuclidean(a.Value(), b.Value(), q.Value(), r.Value());
      ghost var rv := r.Value();
      a := b;
      b := r;
      if b.limbs != [] {
        b.sign := 1;
      }
      NormalPositive(b.limbs);
      assert b.Value() == rv;
    }
    out := a;
  }

  // ----- Rationals -----

  /** A rational value: positive denominator, nothing left to cancel. */
  ghost predicate Lowest(n: int, d: int) {
    d > 0 && Coprime(n, d)
  }

  /** The number that a fraction denotes. */
  ghost function Q(n: int, d: int): real
    requires d != 0
  {
    n as real / d as real
  }

  lemma CrossIsEqual(n: int, d: int, m: int, e: int)
    requires d != 0 && e != 0
    ensures Q(n, d) == Q(m, e) <==> n * e == m * d
  {
    var x, y := Q(n, d), Q(m, e);
    assert n as real == x * d as real && m as real == y * e as real;
    assert (n * e) as real == (x * d as real) * e as real;
    assert (m * d) as real == (y * e as real) * d as real;
    RealProducts(x, y, d as real, e as real);
  }

  lemma RealProducts(x: real, y: real, d: real, e: real)
    requires d != 0.0 && e != 0.0
    ensures (x * d) * e == (y * e) * d <==> x == y
  {
    assert (x * d) * e == x * (d * e) && (y * e) * d == y * (d * e);
    assert d * e != 0.0;
  }

  /** Two rationals in lowest terms are equal only if their components are. */
  lemma LowestUnique(n: int, d: int, m: int, e: int)
    requires Lowest(n, d) && Lowest(m, e)
    ensures Q(n, d) == Q(m, e) <==> (n == m && d == e)
  {
    hide Q, Divides;
    CrossIsEqual(n, d, m, e);
    if n * e == m * d {
      DividesBy(d, n * e, m) by { assert d * m == m * d; }
      CoprimeDivides(n, d, e);
      DividesBy(e, m * d, n) by { assert e * n == n * e; }
      CoprimeDivides(m, e, d);
      DividesAntisymmetric(d, e);
      CancelFactor(n, m, d);
    }
  }

  lemma CancelFactor(n: int, m: int, d: int)
    requires d > 0 && n * d == m * d
    ensures n == m
  {
    assert (n - m) * d == 0;
    assert n - m >= 1 ==> (n - m) * d >= 1 * d;
    assert n - m <= -1 ==> (n - m) * d <= -1 * d;
  }

  lemma ExactDivision(n: int, g: int, q: int, r: int)
    requires g > 0 && Divides(g, n) && Truncated(n, g, q, r)
    ensures r == 0 && n == q * g
  {
    var k :| n == g * k;
    assert k * g + 0 == n;
    TruncatedUnique(n, g, q, r, k, 0);
  }

  lemma GcdDividesSigned(a: int, b: int)
    ensures Divides(Gcd(Abs(a), Abs(b)), a) && Divides(Gcd(Abs(a), Abs(b)), b)
  {
    GcdDivides(Abs(a), Abs(b));
    var g := Gcd(Abs(a), Abs(b));
    DividesMultiple(g, Abs(a), -1);
    DividesMultiple(g, Abs(b), -1);
  }

  /** Divides exactly by a common divisor. */
  method DivideOut(n: Big, g: Big) returns (q: Big)
    requires n.Normal() && g.Normal() && g.Value() > 0 && Divides(g.Value(), n.Value())
    ensures fresh(q) && q.Normal() && n.Value() == q.Value() * g.Value()
  {
    var ok, quotient, r := DivMod(n, g);
    ExactDivision(n.Value(), g.Value(), quotient.Value(), r.Value());
    q := quotient;
  }

  /** `value_rat_classified`: the fraction in lowest terms; fails exactly for a zero
      denominator. */
  method MakeRat(n: Big, d: Big) returns (ok: bool, nn: Big, dd: Big)
    requires n.Normal() && d.Normal()
    ensures ok <==> d.Value() != 0
    ensures fresh(nn) && fresh(dd) && nn.Normal() && dd.Normal()
    ensures ok ==> Lowest(nn.Value(), dd.Value()) && Q(nn.Value(), dd.Value()) == Q(n.Value(), d.Value())
  {
    hide Val, Q, Divides, Gcd;
    NormalPositive(d.limbs);
    if d.sign == 0 {
      ok := false;
      nn := new Big();
      dd := new Big();
      return;
    }
    ok := true;
    var gcd := BigGcd(n, d);
    GcdPositive(Abs(n.Value()), Abs(d.Value()));
    GcdDividesSigned(n.Value(), d.Value());
    nn := DivideOut(n, gcd);
    dd := DivideOut(d, gcd);
    ReducedCoprime(n.Value(), d.Value(), nn.Value(), dd.Value());
    ReducedFraction(n.Value(), d.Value(), nn.Value(), dd.Value(), gcd.Value());
    if dd.sign < 0 {
      dd.sign := 1;
      nn.sign := -nn.sign;
    }
  }

  /** Cancelling a factor, and moving the sign to the numerator, keeps the number. */
  lemma ReducedFraction(n: int, d: int, m: int, e: int, g: int)
    requires d != 0 && g > 0 && n == m * g && d == e * g
    ensures e != 0 && Q(m, e) == Q(n, d) && Q(-m, -e) == Q(n, d)
  {
    assert e == 0 ==> e * g == 0;
    assert (m * g) * e == m * (e * g);
    assert (m * g) * -e == -m * (e * g);
    CrossIsEqual(m, e, n, d);
    CrossIsEqual(-m, -e, n, d);
  }

  // ----- Arithmetic and comparison of rationals -----

  datatype RatOp = Plus | Minus | Times | Over

  ghost function RealOp(op: RatOp, x: real, y: real): real
    requires op.Over? ==> y != 0.0
  {
    match op
    case Plus => x + y
    case Minus => x - y
    case Times => x * y
    case Over => x / y
  }

  lemma QNonZero(n: int, d: int)
    requires d != 0
    ensures Q(n, d) == 0.0 <==> n == 0
  {
    var x := Q(n, d);
    assert n as real == x * d as real;
  }

  /** The unreduced fractions that `rational_binary` builds denote the exact results. */
  lemma FractionOfOp(op: RatOp, an: int, ad: int, bn: int, bd: int)
    requires ad != 0 && bd != 0 && (op.Over? ==> bn != 0)
    ensures var n := match op case Plus => an * bd + bn * ad case Minus => an * bd - bn * ad
                              case Times => an * bn case Over => an * bd;
            var d := if op.Over? then ad * bn else ad * bd;
            && d != 0 && (op.Over? ==> Q(bn, bd) != 0.0)
            && Q(n, d) == RealOp(op, Q(an, ad), Q(bn, bd))
  {
    var x, y := Q(an, ad), Q(bn, bd);
    var a, b := ad as real, bd as real;
    QNonZero(bn, bd);
    assert an as real == x * a && bn as real == y * b;
    ProductNonZero(ad, bd);
    match op
    case Plus => FractionIs(an * bd + bn * ad, ad * bd, x + y) by { SumProducts(x, y, a, b); }
    case Minus => FractionIs(an * bd - bn * ad, ad * bd, x - y) by { SumProducts(x, y, a, b); }
    case Times => FractionIs(an * bn, ad * bd, x * y) by { assert (x * a) * (y * b) == (x * y) * (a * b); }
    case Over =>
      ProductNonZero(ad, bn);
      FractionIs(an * bd, ad * bn, x / y) by { QuotientProducts(x, y, a, b); }
  }

  lemma ProductNonZero(a: int, b: int)
    requires a != 0 && b != 0
    ensures a * b != 0
  {
  }

  lemma FractionIs(n: int, d: int, x: real)
    requires d != 0 && n as real == x * d as real
    ensures Q(n, d) == x
  {
  }

  lemma SumProducts(x: real, y: real, a: real, b: real)
    ensures (x * a) * b + (y * b) * a == (x + y) * (a * b)
    ensures (x * a) * b - (y * b) * a == (x - y) * (a * b)
  {
    assert (x * a) * b == x * (a * b) && (y * b) * a == y * (a * b);
  }

  lemma QuotientProducts(x: real, y: real, a: real, b: real)
    requires y != 0.0
    ensures (x * a) * b == (x / y) * (a * (y * b))
  {
    var z := x / y;
    assert x == z * y;
    assert ((z * y) * a) * b == z * (a * (y * b));
  }

  /** `rational_binary` for the arithmetic operators; operands have positive denominators. */
  method RatArith(op: RatOp, an: Big, ad: Big, bn: Big, bd: Big) returns (ok: bool, n: Big, d: Big)
    requires an.Normal() && ad.Normal() && bn.Normal() && bd.Normal() && ad.Value() > 0 && bd.Value() > 0
    ensures ok <==> !(op.Over? && bn.Value() == 0)
    ensures n.Normal() && d.Normal()
    ensures ok ==> Lowest(n.Value(), d.Value()) && (op.Over? ==> Q(bn.Value(), bd.Value()) != 0.0)
    ensures ok ==>
      Q(n.Value(), d.Value()) == RealOp(op, Q(an.Value(), ad.Value()), Q(bn.Value(), bd.Value()))
  {
    hide Val, Q, Lowest, RealOp;
    var num, den := RatFraction(op, an, ad, bn, bd);
    ProductZero(ad.Value(), bn.Value());
    ProductNonZero(ad.Value(), bd.Value());
    ok, n, d := MakeRat(num, den);
    if ok {
      FractionOfOp(op, an.Value(), ad.Value(), bn.Value(), bd.Value());
    }
  }

  lemma ProductZero(a: int, b: int)
    requires a != 0
    ensures a * b == 0 <==> b == 0
  {
  }

  /** The unreduced numerator and denominator. */
  method RatFraction(op: RatOp, an: Big, ad: Big, bn: Big, bd: Big) returns (n: Big, d: Big)
    requires an.Normal() && ad.Normal() && bn.Normal() && bd.Normal()
    ensures n.Normal() && d.Normal()
    ensures n.Value() == match op case Plus => an.Value() * bd.Value() + bn.Value() * ad.Value()
                                  case Minus => an.Value() * bd.Value() - bn.Value() * ad.Value()
                                  case Times => an.Value() * bn.Value()
                                  case Over => an.Value() * bd.Value()
    ensures d.Value() == if op.Over? then ad.Value() * bn.Value() else ad.Value() * bd.Value()
  {
    hide Val;
    if op.Plus? || op.Minus? {
      var left := Mul(an, bd);
      var right := Mul(bn, ad);
      if op.Plus? {
        n := Add(left, right);
      } else {
        n := Sub(left, right);
      }
      d := Mul(ad, bd);
    } else {
      n := Mul(an, if op.Times? then bn else bd);
      d := Mul(ad, if op.Times? then bd else bn);
    }
  }

  /** The order of fractions with positive denominators is the order of cross products. */
  lemma CrossOrder(n: int, d: int, m: int, e: int)
    requires d > 0 && e > 0
    ensures Order(n * e, m * d) == (if Q(n, d) < Q(m, e) then -1 else if Q(n, d) == Q(m, e) then 0 else 1)
  {
    var x, y := Q(n, d), Q(m, e);
    var p := d as real * e as real;
    assert n as real == x * d as real && m as real == y * e as real;
    assert (n * e) as real == x * p;
    assert (m * d) as real == y * p;
    assert p > 0.0;
    RealOrder(x, y, p);
  }

  lemma RealOrder(x: real, y: real, p: real)
    requires p > 0.0
    ensures x * p < y * p <==> x < y
    ensures x * p == y * p <==> x == y
  {
    assert (y - x) * p == y * p - x * p;
    assert y - x > 0.0 ==> (y - x) * p > 0.0;
    assert y - x < 0.0 ==> (y - x) * p < 0.0;
  }

  /** `rational_binary` for the comparison operators: the sign decides all six of them. */
  method RatCompare(an: Big, ad: Big, bn: Big, bd: Big) returns (c: int)
    requires an.Normal() && ad.Normal() && bn.Normal() && bd.Normal() && ad.Value() > 0 && bd.Value() > 0
    ensures var x, y := Q(an.Value(), ad.Value()), Q(bn.Value(), bd.Value());
            c == if x < y then -1 else if x == y then 0 else 1
  {
    hide Val, Q;
    var left := Mul(an, bd);
    var right := Mul(bn, ad);
    c := Compare(left, right);
    CrossOrder(an.Value(), ad.Value(), bn.Value(), bd.Value());
  }

  // ----- Integers -----

  /** The floored remainder: congruent to `a`, smaller than `b`, with the sign of `b`. */
  ghost predicate Floored(a: int, b: int, r: int) {
    Divides(b, a - r) && Abs(r) < Abs(b) && (r == 0 || (r < 0 <==> b < 0))
  }

  lemma FlooredUnique(a: int, b: int, r: int, r': int)
    requires b != 0 && Floored(a, b, r) && Floored(a, b, r')
    ensures r == r'
  {
    var k :| a - r == b * k;
    var l :| a - r' == b * l;
    assert b * l - b * k == b * (l - k);
    MultipleSize(b, l - k);
  }

  lemma TruncatedToFloored(a: int, b: int, q: int, r: int)
    requires b != 0 && Truncated(a, b, q, r)
    ensures Floored(a, b, if r != 0 && (a < 0) != (b < 0) then r + b else r)
  {
    DividesBy(b, a - r, q) by { assert b * q == q * b; }
    DividesBy(b, a - (r + b), q - 1) by { assert b * (q - 1) == q * b - b; }
  }

  datatype IntOp = IntAdd | IntSub | IntMul | IntRem
  datatype Fault = NoFault | DivisionByZero | NatUnderflow

  /** The integer operators of `binary_value_classified`. A result of two Nats is a Nat and
      may not be negative. */
  method IntegerBinary(op: IntOp, a: Big, aNat: bool, b: Big, bNat: bool) returns (fault: Fault, out: Big, isNat: bool)
    requires a.Normal() && b.Normal()
    ensures out.Normal() && isNat == (aNat && bNat)
    ensures fault.DivisionByZero? <==> op.IntRem? && b.Value() == 0
    ensures !fault.DivisionByZero? ==>
      && (op.IntAdd? ==> out.Value() == a.Value() + b.Value())
      && (op.IntSub? ==> out.Value() == a.Value() - b.Value())
      && (op.IntMul? ==> out.Value() == a.Value() * b.Value())
      && (op.IntRem? ==> Floored(a.Value(), b.Value(), out.Value()))
      && (fault.NatUnderflow? <==> isNat && out.Value() < 0)
  {
    hide Val, Floored;
    isNat := aNat && bNat;
    fault := NoFault;
    NormalPositive(a.limbs);
    NormalPositive(b.limbs);
    match op {
      case IntAdd => out := Add(a, b);
      case IntSub => out := Sub(a, b);
      case IntMul => out := Mul(a, b);
      case IntRem =>
        if b.sign == 0 {
          out := new Big();
          fault := DivisionByZero;
          return;
        }
        out := FlooredRemainder(a, b);
    }
    NormalPositive(out.limbs);
    if isNat && out.sign < 0 {
      fault := NatUnderflow;
    }
  }

  /** Truncated division, then one correction when the signs differ. */
  method FlooredRemainder(a: Big, b: Big) returns (out: Big)
    requires a.Normal() && b.Normal() && b.Value() != 0
    ensures out.Normal() && Floored(a.Value(), b.Value(), out.Value())
  {
    hide Val, Floored;
    NormalPositive(a.limbs);
    NormalPositive(b.limbs);
    var ok, q, r := DivMod(a, b);
    TruncatedToFloored(a.Value(), b.Value(), q.Value(), r.Value());
    NormalPositive(r.limbs);
    out := r;
    if r.sign != 0 && a.sign != b.sign {
      out := Add(r, b);
    }
  }
}
