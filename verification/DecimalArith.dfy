/** Decimal division, alignment and arithmetic of src/vm/numeric.c. Exponents are integers of
    any size here. */
module DecimalArith {
  import opened Limbs
  import opened BigInt
  import opened BigDivide
  import opened NumberTheory
  import opened Rational
  import opened DecimalMath

  // ----- Factor stripping -----

  /** One attempt to divide by a small factor; keeps the value if that leaves a remainder. */
  method TryDivide(den: Big, factor: u32) returns (divided: bool, probe: Big)
    requires den.Normal() && den.sign == 1 && factor > 1
    ensures fresh(probe) && probe.Normal()
    ensures divided == (Val(den.limbs) % factor as nat == 0)
    ensures divided ==> probe.sign == 1 && Val(den.limbs) == factor as nat * Val(probe.limbs)
  {
    hide Val;
    probe := new Big.Copy(den);
    var remainder := probe.DivSmall(factor);
    divided := remainder == 0;
    NormalPositive(den.limbs);
    NormalPositive(probe.limbs);
    ModOf(Val(den.limbs), factor as nat, Val(probe.limbs), remainder as nat);
  }

  lemma ModOf(x: nat, f: nat, q: nat, r: nat)
    requires f > 0 && x == f * q + r && r < f
    ensures x % f == r && (r == 0 && x > 0 ==> q > 0)
  {
    RemainderUnique(x, f, q, r, x / f, x % f) by { assert q * f == f * q; }
    assert q == 0 ==> f * q == 0;
  }

  /** The loop that strips factors two and five. It ends because every round divides; it
      fails on a factor that is neither. */
  method StripFactors(start: Big) returns (ok: bool, twos: nat, fives: nat, ghost left: nat)
    requires start.Normal() && start.sign == 1
    ensures Val(start.limbs) == left * (Pow(2, twos) * Pow(5, fives))
    ensures ok ==> left == 1
    ensures !ok ==> left > 1 && left % 2 != 0 && left % 5 != 0
  {
    hide Val, Pow;
    var den := new Big.Copy(start);
    NormalPositive(start.limbs);
    twos, fives := 0, 0;
    NoFactors(Val(start.limbs));
    while !(|den.limbs| == 1 && den.limbs[0] == 1)
      invariant fresh(den) && den.Normal() && den.sign == 1 && Val(den.limbs) > 0
      invariant Val(start.limbs) == Val(den.limbs) * (Pow(2, twos) * Pow(5, fives))
      decreases Val(den.limbs)
    {
      var divided, probe := TryDivide(den, 2);
      if divided {
        OneMoreTwo(Val(probe.limbs), twos, fives);
        NormalPositive(probe.limbs);
        den := probe;
        twos := twos + 1;
        continue;
      }
      divided, probe := TryDivide(den, 5);
      if divided {
        OneMoreFive(Val(probe.limbs), twos, fives);
        NormalPositive(probe.limbs);
        den := probe;
        fives := fives + 1;
        continue;
      }
      left := Val(den.limbs);
      NotOne(den.limbs);
      return false, twos, fives, left;
    }
    ok, left := true, Val(den.limbs);
    OneIsOne(den.limbs);
  }

  lemma NoFactors(n: nat)
    ensures n * (Pow(2, 0) * Pow(5, 0)) == n
  {
  }

  lemma OneMoreTwo(d: nat, twos: nat, fives: nat)
    ensures (2 * d) * (Pow(2, twos) * Pow(5, fives)) == d * (Pow(2, twos + 1) * Pow(5, fives))
  {
    assert (2 * Pow(2, twos)) * Pow(5, fives) == 2 * (Pow(2, twos) * Pow(5, fives));
  }

  lemma OneMoreFive(d: nat, twos: nat, fives: nat)
    ensures (5 * d) * (Pow(2, twos) * Pow(5, fives)) == d * (Pow(2, twos) * Pow(5, fives + 1))
  {
    assert Pow(2, twos) * (5 * Pow(5, fives)) == 5 * (Pow(2, twos) * Pow(5, fives));
  }

  lemma OneIsOne(l: seq<u32>)
    requires |l| == 1 && l[0] == 1
    ensures Val(l) == 1
  {
    assert Low(l, 0) == 0 && P(0) == 1;
  }

  lemma NotOne(l: seq<u32>)
    requires Trimmed(l) && l != [] && !(|l| == 1 && l[0] == 1)
    ensures Val(l) > 1
  {
    OneIsOne([1]);
    NormalPositive(l);
    if Val(l) == 1 {
      Unique(l, [1]);
    }
  }

  // ----- Scaling and trimming -----

  /** Multiplies by a small factor a number of times. */
  method ScaleUp(num: Big, factor: u32, times: nat)
    requires num.Normal() && 0 < (factor as int) <= BASE
    modifies num
    ensures num.Normal() && num.Value() == old(num.Value()) * Pow(factor as nat, times)
  {
    hide Val;
    var i := 0;
    assert Pow(factor as nat, 0) == 1;
    while i < times
      invariant 0 <= i <= times && num.Normal()
      invariant num.Value() == old(num.Value()) * Pow(factor as nat, i)
    {
      num.MulSmall(factor);
      PowNext(old(num.Value()), factor as nat, i);
      i := i + 1;
    }
  }

  lemma PowNext(v: int, f: nat, i: nat)
    ensures (v * Pow(f, i)) * f == v * Pow(f, i + 1)
  {
    assert v * (f * Pow(f, i)) == (v * Pow(f, i)) * f;
  }

  /** The lowest decimal digit can be read off the lowest limb. */
  lemma LowDigit(l: seq<u32>)
    requires l != []
    ensures Val(l) % 10 == l[0] as nat % 10
  {
    HighIsVal(l);
    var h := High(l, 1);
    assert Val(l) == l[0] as nat + 10 * (100_000_000 * h);
  }

  /** Removes trailing zeros while there are fractional places. */
  method TrimZeros(num: Big, start: int, ghost ac: int, ghost ea: int, ghost bc: int, ghost eb: int)
    returns (exponent: int)
    requires num.Normal() && num.Value() != 0 && IsQuotient(num.Value(), start, ac, ea, bc, eb)
    modifies num
    ensures num.Normal() && IsQuotient(num.Value(), exponent, ac, ea, bc, eb)
    ensures exponent >= 0 || num.Value() % 10 != 0
  {
    hide Val, IsQuotient;
    NormalPositive(num.limbs);
    exponent := start;
    while exponent < 0 && num.limbs[0] % 10 == 0
      invariant num.Normal() && num.sign != 0 && IsQuotient(num.Value(), exponent, ac, ea, bc, eb)
      decreases -exponent
    {
      ghost var before, v := num.Value(), Val(num.limbs);
      LowDigit(num.limbs);
      NormalPositive(num.limbs);
      var r := num.DivSmall(10);
      TenthOf(v, Val(num.limbs), r as nat);
      NormalPositive(num.limbs);
      assert before == 10 * num.Value();
      TrimKeeps(num.Value(), exponent, ac, ea, bc, eb);
      exponent := exponent + 1;
    }
    LowDigit(num.limbs);
    SignedDigit(num.sign, Val(num.limbs));
  }

  lemma TenthOf(v: nat, q: nat, r: nat)
    requires v == 10 * q + r && r < 10 && v % 10 == 0
    ensures r == 0 && (v > 0 ==> q > 0)
  {
  }

  lemma SignedDigit(sign: int, v: nat)
    requires sign != 0
    ensures v % 10 != 0 ==> Signed(sign, v) % 10 != 0
  {
  }

  // ----- Division -----

  datatype Outcome = Exact | ZeroDivisor | NonTerminating

  /** Some decimal equals the quotient. */
  ghost predicate HasDecimal(ac: int, ea: int, bc: int, eb: int) {
    exists c, e :: IsQuotient(c, e, ac, ea, bc, eb)
  }

  lemma FailureMeansNoDecimal(ac: int, ea: int, bc: int, eb: int, num: int, den: int, g: int, left: nat, rest: nat)
    requires g > 0 && ac == num * g && bc == den * g && Coprime(num, den)
    requires Abs(den) == left * rest && left > 1 && left % 2 != 0 && left % 5 != 0
    ensures !HasDecimal(ac, ea, bc, eb)
  {
    hide IsQuotient, Coprime;
    forall c, e ensures !IsQuotient(c, e, ac, ea, bc, eb) {
      if IsQuotient(c, e, ac, ea, bc, eb) {
        var y := DenominatorDividesTen(c, e, ac, ea, bc, eb, num, den, g);
        DividesBy(left, Abs(den), rest);
        DividesMultiple(left, Abs(den), -1);
        DividesTransitive(left, den, Ten(y));
        NoFactorOfTen(left, y);
      }
    }
  }

  /** The reduced numerator and positive denominator of the coefficients. */
  method ReduceCoefficients(a: Big, b: Big) returns (num: Big, den: Big, ghost g: int, ghost flip: bool)
    requires a.Normal() && b.Normal() && b.Value() != 0
    ensures fresh(num) && fresh(den) && num != den && num.Normal() && den.Normal() && den.sign == 1
    ensures g > 0 && Coprime(num.Value(), den.Value())
    ensures var s := if flip then -1 else 1;
            a.Value() == (s * num.Value()) * g && b.Value() == (s * den.Value()) * g
  {
    hide Val, Divides, Gcd, Coprime;
    NormalPositive(b.limbs);
    var gcd := BigGcd(a, b);
    g := gcd.Value();
    GcdPositive(Abs(a.Value()), Abs(b.Value()));
    GcdDividesSigned(a.Value(), b.Value());
    num := DivideOut(a, gcd);
    den := DivideOut(b, gcd);
    ReducedCoprime(a.Value(), b.Value(), num.Value(), den.Value());
    flip := den.sign < 0;
    NormalPositive(den.limbs);
    assert den.Value() != 0 by { assert 0 * g == 0; }
    if den.sign < 0 {
      CoprimeFlip(num.Value(), den.Value());
      den.sign := -den.sign;
      num.sign := -num.sign;
    }
  }

  lemma CoprimeFlip(a: int, b: int)
    requires Coprime(a, b)
    ensures Coprime(-a, -b)
  {
  }

  /** Decimal division (operator 3 of `decimal_binary_classified`). It succeeds exactly when
      some decimal equals the quotient; then it returns it with the fewest fractional places. */
  method Divide(a: Big, ea: int, b: Big, eb: int) returns (outcome: Outcome, num: Big, exponent: int)
    requires a.Normal() && b.Normal()
    ensures outcome.ZeroDivisor? <==> b.Value() == 0
    ensures outcome.Exact? <==> b.Value() != 0 && HasDecimal(a.Value(), ea, b.Value(), eb)
    ensures num.Normal()
    ensures outcome.Exact? ==> IsQuotient(num.Value(), exponent, a.Value(), ea, b.Value(), eb)
    ensures outcome.Exact? ==> forall c, e :: IsQuotient(c, e, a.Value(), ea, b.Value(), eb) ==> Places(exponent) <= Places(e)
  {
    hide Val, IsQuotient, Coprime, Pow;
    exponent := 0;
    NormalPositive(b.limbs);
    if b.sign == 0 {
      num := new Big();
      return ZeroDivisor, num, 0;
    }
    ghost var ac, bc := a.Value(), b.Value();
    var n, den, g, flip := ReduceCoefficients(a, b);
    num := n;
    var ok, twos, fives, left := StripFactors(den);
    if !ok {
      FlippedFailure(ac, ea, bc, eb, num.Value(), den.Value(), g, flip, left, Pow(2, twos) * Pow(5, fives));
      return NonTerminating, num, 0;
    }
    BuildQuotient(num, twos, fives, ac, ea, bc, eb, den.Value(), g, flip);
    exponent := ea - eb - (if twos > fives then twos else fives);
    outcome := Exact;
    exponent := FinishQuotient(num, exponent, ac, ea, bc, eb);
  }

  lemma FlippedFailure(ac: int, ea: int, bc: int, eb: int, num: int, den: int, g: int, flip: bool, left: nat, rest: nat)
    requires g > 0 && Coprime(num, den) && den == left * rest && left > 1 && left % 2 != 0 && left % 5 != 0
    requires var s := if flip then -1 else 1; ac == (s * num) * g && bc == (s * den) * g
    ensures !HasDecimal(ac, ea, bc, eb)
  {
    hide HasDecimal, Coprime;
    var s := if flip then -1 else 1;
    if flip {
      CoprimeFlip(num, den);
    }
    FailureMeansNoDecimal(ac, ea, bc, eb, s * num, s * den, g, left, rest);
  }

  /** Supplies the missing factors. */
  method BuildQuotient(num: Big, twos: nat, fives: nat, ghost ac: int, ghost ea: int, ghost bc: int, ghost eb: int,
                       ghost den: int, ghost g: int, ghost flip: bool)
    requires num.Normal() && den == Pow(2, twos) * Pow(5, fives)
    requires var s := if flip then -1 else 1; ac == (s * num.Value()) * g && bc == (s * den) * g
    modifies num
    ensures num.Normal()
    ensures IsQuotient(num.Value(), ea - eb - (if twos > fives then twos else fives), ac, ea, bc, eb)
  {
    hide Val, IsQuotient, Pow;
    var places := if twos > fives then twos else fives;
    ghost var n := num.Value();
    ScaleUp(num, 2, places - twos);
    ScaleUp(num, 5, places - fives);
    MissingFactors(n, twos, fives, places);
    ghost var s := if flip then -1 else 1;
    SignedBuilt(ac, ea, bc, eb, n, den, g, s, places, num.Value());
  }

  lemma SignedBuilt(ac: int, ea: int, bc: int, eb: int, n: int, den: int, g: int, s: int, places: nat, c: int)
    requires ac == (s * n) * g && bc == (s * den) * g && c * den == n * Ten(places) && (s == 1 || s == -1)
    ensures IsQuotient(c, ea - eb - places, ac, ea, bc, eb)
  {
    hide IsQuotient, Ten;
    MoveFactor(c, s, den);
    Associate(s, n, Ten(places));
    BuiltQuotient(ac, ea, bc, eb, s * n, s * den, g, places, c);
  }

  /** The shortest scale: zero has exponent zero, anything else loses trailing zeros. */
  method FinishQuotient(num: Big, start: int, ghost ac: int, ghost ea: int, ghost bc: int, ghost eb: int)
    returns (exponent: int)
    requires num.Normal() && bc != 0 && IsQuotient(num.Value(), start, ac, ea, bc, eb)
    modifies num
    ensures num.Normal() && IsQuotient(num.Value(), exponent, ac, ea, bc, eb)
    ensures forall c, e :: IsQuotient(c, e, ac, ea, bc, eb) ==> Places(exponent) <= Places(e)
  {
    hide Val, IsQuotient;
    NormalPositive(num.limbs);
    if num.sign == 0 {
      exponent := 0;
      ZeroQuotient(start, 0, ac, ea, bc, eb);
    } else {
      exponent := TrimZeros(num, start, ac, ea, bc, eb);
    }
    forall c, e | IsQuotient(c, e, ac, ea, bc, eb) ensures Places(exponent) <= Places(e) {
      FewestPlaces(num.Value(), exponent, c, e, ac, ea, bc, eb);
    }
  }

  lemma ZeroQuotient(e: int, e': int, ac: int, ea: int, bc: int, eb: int)
    requires IsQuotient(0, e, ac, ea, bc, eb)
    ensures IsQuotient(0, e', ac, ea, bc, eb)
  {
    DecZero(0, e);
    DecZero(0, e');
  }

  // ----- Addition, subtraction, multiplication and remainder -----

  /** `decimal_align`: both coefficients at the smaller exponent. */
  method Align(a: Big, ea: int, b: Big, eb: int) returns (left: Big, right: Big, exponent: int)
    requires a.Normal() && b.Normal()
    ensures fresh(left) && fresh(right) && left != right && left.Normal() && right.Normal()
    ensures exponent == if ea < eb then ea else eb
    ensures left.Value() == a.Value() * Ten(ea - exponent) && right.Value() == b.Value() * Ten(eb - exponent)
    ensures Dec(left.Value(), exponent) == Dec(a.Value(), ea)
    ensures Dec(right.Value(), exponent) == Dec(b.Value(), eb)
  {
    hide Val, Dec;
    exponent := if ea < eb then ea else eb;
    left := new Big.Copy(a);
    right := new Big.Copy(b);
    left.Pow10(ea - exponent);
    right.Pow10(eb - exponent);
    Rescale(a.Value(), ea, exponent);
    Rescale(b.Value(), eb, exponent);
  }

  lemma DecSum(c: int, d: int, m: int)
    ensures Dec(c + d, m) == Dec(c, m) + Dec(d, m) && Dec(c - d, m) == Dec(c, m) - Dec(d, m)
  {
    var t := TenR(m);
    assert (c as real + d as real) * t == c as real * t + d as real * t;
    assert (c as real - d as real) * t == c as real * t - d as real * t;
  }

  /** Operators 0 and 1: exact sum and difference. */
  method AddSub(subtract: bool, a: Big, ea: int, b: Big, eb: int) returns (out: Big, exponent: int)
    requires a.Normal() && b.Normal()
    ensures out.Normal()
    ensures Dec(out.Value(), exponent) ==
      if subtract then Dec(a.Value(), ea) - Dec(b.Value(), eb) else Dec(a.Value(), ea) + Dec(b.Value(), eb)
  {
    hide Val, Dec;
    var left, right, m := Align(a, ea, b, eb);
    exponent := m;
    DecSum(left.Value(), right.Value(), m);
    if subtract {
      out := Sub(left, right);
    } else {
      out := Add(left, right);
    }
  }

  /** Operator 2: exact product. */
  method Multiply(a: Big, ea: int, b: Big, eb: int) returns (out: Big, exponent: int)
    requires a.Normal() && b.Normal()
    ensures out.Normal() && Dec(out.Value(), exponent) == Dec(a.Value(), ea) * Dec(b.Value(), eb)
  {
    hide Val, Dec;
    out := Mul(a, b);
    exponent := ea + eb;
    DecProduct(a.Value(), ea, b.Value(), eb);
  }

  /** Operator 4: the remainder of truncated division, exact at the common scale. */
  method Remainder(a: Big, ea: int, b: Big, eb: int) returns (ok: bool, out: Big, exponent: int, ghost q: int)
    requires a.Normal() && b.Normal()
    ensures out.Normal() && (ok <==> b.Value() != 0)
    ensures ok ==>
      var x, y, r := Dec(a.Value(), ea), Dec(b.Value(), eb), Dec(out.Value(), exponent);
      && x == q as real * y + r
      && (if r < 0.0 then -r else r) < (if y < 0.0 then -y else y)
      && (r == 0.0 || (r < 0.0 <==> x < 0.0))
  {
    hide Val, Dec, Truncated;
    var left, right, m := Align(a, ea, b, eb);
    exponent := m;
    var quotient, r;
    ok, quotient, r := DivMod(left, right);
    out, q := r, quotient.Value();
    ScaledZero(b.Value(), Ten(eb - m));
    if ok {
      ScaledTruncation(left.Value(), right.Value(), q, out.Value(), m);
    }
  }

  lemma ScaledZero(b: int, t: nat)
    requires t > 0
    ensures b * t == 0 <==> b == 0
  {
  }

  lemma ScaledTruncation(a: int, b: int, q: int, r: int, m: int)
    requires Truncated(a, b, q, r)
    ensures var x, y, z := Dec(a, m), Dec(b, m), Dec(r, m);
            && x == q as real * y + z
            && (if z < 0.0 then -z else z) < (if y < 0.0 then -y else y)
            && (z == 0.0 || (z < 0.0 <==> x < 0.0))
  {
    DecMultiple(q, b, m);
    DecSum(q * b, r, m);
    SameScale(0, a, m);
    SameScale(a, 0, m);
    SameScale(r, 0, m);
    SameScale(b, 0, m);
    SameScale(r, b, m);
    SameScale(-r, b, m);
    SameScale(r, -b, m);
    SameScale(-r, -b, m);
    DecSum(0, r, m);
    DecSum(0, b, m);
    DecZero(0, m);
    DecZero(r, m);
    hide Dec;
  }

  lemma DecMultiple(q: int, b: int, m: int)
    ensures Dec(q * b, m) == q as real * Dec(b, m)
  {
    hide TenR;
    IntProduct(q, b);
    RealAssoc(q as real, b as real, TenR(m));
  }
}
