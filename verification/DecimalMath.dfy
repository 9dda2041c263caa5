/** The numbers that decimals denote, and when a quotient is one of them. */
module DecimalMath {
  import opened BigInt
  import opened NumberTheory

  /** Ten to an integer power. */
  ghost function TenR(e: int): real {
    if e >= 0 then Ten(e) as real else 1.0 / Ten(-e) as real
  }

  /** The number denoted by a coefficient and an exponent. */
  ghost function Dec(c: int, e: int): real {
    c as real * TenR(e)
  }

  lemma TenRPositive(e: int)
    ensures TenR(e) > 0.0
  {
    if e < 0 {
      var t := Ten(-e) as real;
      assert t > 0.0;
    }
  }

  lemma TenRStep(e: int)
    ensures TenR(e + 1) == 10.0 * TenR(e)
  {
    if e < 0 {
      var t, u := Ten(-e) as real, Ten(-e - 1) as real;
      assert t == 10.0 * u && u > 0.0;
      assert 1.0 / u == 10.0 * (1.0 / (10.0 * u));
    }
  }

  lemma RealAssoc(a: real, b: real, c: real)
    ensures (a * b) * c == a * (b * c)
  {
  }

  lemma RealSwap(a: real, b: real, c: real, d: real)
    ensures (a * b) * (c * d) == (a * c) * (b * d)
  {
    RealAssoc(a, b, c * d);
    assert b * (c * d) == c * (b * d);
    RealAssoc(a, c, b * d);
  }

  lemma IntProduct(a: int, b: int)
    ensures (a * b) as real == a as real * b as real
  {
  }

  lemma RealScale(x: real, y: real, t: real)
    requires t > 0.0
    ensures x * t < y * t <==> x < y
    ensures x * t == y * t <==> x == y
  {
    assert (y - x) * t == y * t - x * t;
    assert y - x > 0.0 ==> (y - x) * t > 0.0;
    assert y - x < 0.0 ==> (y - x) * t < 0.0;
  }

  lemma {:induction false} TenRShift(e: int, k: nat)
    ensures TenR(e + k) == Ten(k) as real * TenR(e)
  {
    hide TenR;
    if k > 0 {
      var t := Ten(k - 1);
      assert Ten(k) as real == 10.0 * t as real;
      hide Ten;
      TenRShift(e, k - 1);
      TenRStep(e + (k - 1));
      assert e + (k - 1) + 1 == e + k;
      RealAssoc(10.0, t as real, TenR(e));
    } else {
      assert Ten(0) as real == 1.0;
    }
  }

  lemma TenRIsTen(e: nat)
    ensures TenR(e) == Ten(e) as real
  {
  }

  lemma TenRAdd(a: int, b: int)
    ensures TenR(a + b) == TenR(a) * TenR(b)
  {
    hide TenR, Ten;
    if b >= 0 {
      TenRShift(a, b);
      TenRIsTen(b);
    } else {
      TenRInverse(a, -b);
    }
  }

  lemma TenRZero()
    ensures TenR(0) == 1.0
  {
  }

  lemma TenRInverse(a: int, k: int)
    requires k >= 0
    ensures TenR(a - k) == TenR(a) * TenR(-k)
  {
    hide TenR, Ten;
    var t, x, y, z := Ten(k) as real, TenR(a - k), TenR(-k), TenR(a);
    assert z == t * x by { TenRShift(a - k, k); assert a - k + k == a; }
    assert 1.0 == t * y by { TenRShift(-k, k); TenRZero(); assert -k + k == 0; }
    CancelTen(t, x, y, z);
  }

  lemma CancelTen(t: real, x: real, y: real, z: real)
    requires z == t * x && 1.0 == t * y
    ensures x == z * y
  {
    assert (t * x) * y == (t * y) * x;
  }

  lemma ScaleStep(c: int, t: int, x: real, y: real)
    requires y == t as real * x
    ensures (c * t) as real * x == c as real * y
  {
    IntProduct(c, t);
    RealAssoc(c as real, t as real, x);
  }

  /** Changing the scale without changing the number. */
  lemma Rescale(c: int, e: int, m: int)
    requires m <= e
    ensures Dec(c * Ten(e - m), m) == Dec(c, e)
  {
    hide TenR, Ten;
    TenRShift(m, e - m);
    assert m + (e - m) == e;
    ScaleStep(c, Ten(e - m), TenR(m), TenR(e));
  }

  lemma SameScale(c: int, d: int, m: int)
    ensures Dec(c, m) == Dec(d, m) <==> c == d
    ensures Dec(c, m) < Dec(d, m) <==> c < d
  {
    TenRPositive(m);
    hide TenR;
    RealScale(c as real, d as real, TenR(m));
  }

  lemma DecProduct(c: int, e: int, d: int, f: int)
    ensures Dec(c, e) * Dec(d, f) == Dec(c * d, e + f)
  {
    hide TenR;
    TenRAdd(e, f);
    IntProduct(c, d);
    RealSwap(c as real, TenR(e), d as real, TenR(f));
  }

  lemma DecZero(c: int, e: int)
    ensures Dec(c, e) == 0.0 <==> c == 0
  {
    TenRPositive(e);
  }

  // ----- When a quotient is a decimal -----

  ghost predicate IsQuotient(c: int, e: int, ac: int, ea: int, bc: int, eb: int) {
    Dec(c, e) * Dec(bc, eb) == Dec(ac, ea)
  }

  /** Exactly when the product of the coefficients matches at a common scale. */
  lemma QuotientInts(c: int, e: int, ac: int, ea: int, bc: int, eb: int, m: int)
    requires m <= e + eb && m <= ea
    ensures IsQuotient(c, e, ac, ea, bc, eb) <==> (c * bc) * Ten(e + eb - m) == ac * Ten(ea - m)
  {
    hide Dec, TenR;
    DecProduct(c, e, bc, eb);
    Rescale(c * bc, e + eb, m);
    Rescale(ac, ea, m);
    SameScale((c * bc) * Ten(e + eb - m), ac * Ten(ea - m), m);
  }

  /** A reduced denominator of a decimal quotient divides a power of ten. */
  lemma DenominatorDividesTen(c: int, e: int, ac: int, ea: int, bc: int, eb: int, num: int, den: int, g: int)
    returns (y: nat)
    requires IsQuotient(c, e, ac, ea, bc, eb) && g > 0
    requires ac == num * g && bc == den * g && Coprime(num, den)
    ensures Divides(den, Ten(y))
  {
    hide IsQuotient, Coprime, Divides, Ten;
    var m := if e + eb < ea then e + eb else ea;
    QuotientInts(c, e, ac, ea, bc, eb, m);
    y := ea - m;
    var x := e + eb - m;
    CancelCommon(c, den, g, Ten(x), num, Ten(y));
    DividesBy(den, num * Ten(y), c * Ten(x));
    CoprimeDivides(num, den, Ten(y));
  }

  lemma CancelCommon(c: int, den: int, g: int, tx: int, num: int, ty: int)
    requires g > 0 && (c * (den * g)) * tx == (num * g) * ty
    ensures num * ty == den * (c * tx)
  {
    assert (c * (den * g)) * tx == (den * (c * tx)) * g;
    assert (num * g) * ty == (num * ty) * g;
    var d := den * (c * tx) - num * ty;
    assert d * g == 0;
    assert d >= 1 ==> d * g >= 1 * g;
    assert d <= -1 ==> d * g <= -1 * g;
  }

  /** The result built from the factors of the denominator is the quotient. */
  lemma BuiltQuotient(ac: int, ea: int, bc: int, eb: int, num: int, den: int, g: int, places: nat, c: int)
    requires ac == num * g && bc == den * g && c * den == num * Ten(places)
    ensures IsQuotient(c, ea - eb - places, ac, ea, bc, eb)
  {
    hide IsQuotient;
    var e := ea - eb - places;
    QuotientInts(c, e, ac, ea, bc, eb, ea - places);
    assert (c * (den * g)) * Ten(0) == (c * den) * g;
    assert (num * Ten(places)) * g == (num * g) * Ten(places);
  }

  ghost function Places(e: int): nat {
    if e < 0 then -e else 0
  }

  /** Dropping a trailing zero digit keeps the quotient. */
  lemma TrimKeeps(c: int, e: int, ac: int, ea: int, bc: int, eb: int)
    requires IsQuotient(10 * c, e, ac, ea, bc, eb)
    ensures IsQuotient(c, e + 1, ac, ea, bc, eb)
  {
    hide TenR;
    TenRStep(e);
    RealAssoc(c as real, 10.0, TenR(e));
    assert (10 * c) as real == c as real * 10.0;
  }

  /** A quotient without a trailing zero, or without fractional places, has the fewest
      fractional places. */
  lemma FewestPlaces(c: int, e: int, c': int, e': int, ac: int, ea: int, bc: int, eb: int)
    requires IsQuotient(c, e, ac, ea, bc, eb) && IsQuotient(c', e', ac, ea, bc, eb) && bc != 0
    requires e >= 0 || c % 10 != 0
    ensures Places(e) <= Places(e')
  {
    if e < 0 && e < e' {
      hide IsQuotient;
      SameQuotient(c, e, c', e', ac, ea, bc, eb);
      hide Dec;
      Rescale(c', e', e);
      SameScale(c, c' * Ten(e' - e), e);
      TrailingZero(c', e' - e);
    }
  }

  lemma TrailingZero(c: int, k: nat)
    requires k > 0
    ensures (c * Ten(k)) % 10 == 0
  {
    MoveFactor(c, 10, Ten(k - 1));
    LastIsZero(c * Ten(k - 1));
  }

  lemma LastIsZero(x: int)
    ensures (10 * x) % 10 == 0
  {
  }

  lemma SameQuotient(c: int, e: int, c': int, e': int, ac: int, ea: int, bc: int, eb: int)
    requires IsQuotient(c, e, ac, ea, bc, eb) && IsQuotient(c', e', ac, ea, bc, eb) && bc != 0
    ensures Dec(c, e) == Dec(c', e')
  {
    DecZero(bc, eb);
    hide Dec;
    CancelReal(Dec(c, e), Dec(c', e'), Dec(bc, eb));
  }

  lemma CancelReal(x: real, y: real, z: real)
    requires z != 0.0 && x * z == y * z
    ensures x == y
  {
    assert (x - y) * z == 0.0;
  }

  // ----- Factors two and five -----

  lemma {:induction false} TwosAndFives(n: nat)
    ensures Pow(2, n) * Pow(5, n) == Ten(n)
  {
    if n > 0 {
      TwosAndFives(n - 1);
      assert (2 * Pow(2, n - 1)) * (5 * Pow(5, n - 1)) == 10 * (Pow(2, n - 1) * Pow(5, n - 1));
    }
  }

  lemma MoveFactor(b: int, x: int, y: int)
    ensures b * (x * y) == x * (b * y)
  {
  }

  lemma {:induction false} PowAdd(b: nat, m: nat, n: nat)
    ensures Pow(b, m + n) == Pow(b, m) * Pow(b, n)
  {
    if n > 0 {
      PowAdd(b, m, n - 1);
      MoveFactor(b, Pow(b, m), Pow(b, n - 1));
    }
  }

  /** Supplying the missing factors turns the denominator into a power of ten. */
  lemma MissingFactors(num: int, twos: nat, fives: nat, places: nat)
    requires twos <= places && fives <= places
    ensures (num * Pow(2, places - twos) * Pow(5, places - fives)) * (Pow(2, twos) * Pow(5, fives))
         == num * Ten(places)
  {
    hide Pow, Ten;
    PowAdd(2, places - twos, twos);
    PowAdd(5, places - fives, fives);
    TwosAndFives(places);
    var a, b, c, d := Pow(2, places - twos), Pow(5, places - fives), Pow(2, twos), Pow(5, fives);
    assert (num * a * b) * (c * d) == num * ((a * c) * (b * d));
  }
}
