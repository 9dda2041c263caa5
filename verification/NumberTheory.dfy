/** Divisibility, greatest common divisors and powers of ten. */
module NumberTheory {
  import opened BigInt

  ghost predicate Divides(d: int, n: int) {
    exists k :: n == d * k
  }

  function Abs(n: int): nat {
    if n < 0 then -n else n
  }

  lemma DividesBy(d: int, n: int, k: int)
    requires n == d * k
    ensures Divides(d, n)
  {
  }

  lemma DividesSum(d: int, a: int, b: int)
    requires Divides(d, a) && Divides(d, b)
    ensures Divides(d, a + b)
  {
    var i :| a == d * i;
    var j :| b == d * j;
    assert d * i + d * j == d * (i + j);
  }

  lemma DividesMultiple(d: int, a: int, c: int)
    requires Divides(d, a)
    ensures Divides(d, a * c) && Divides(d, c * a)
  {
    var i :| a == d * i;
    assert (d * i) * c == d * (i * c);
    assert c * (d * i) == d * (i * c);
  }

  lemma DividesTransitive(a: int, b: int, c: int)
    requires Divides(a, b) && Divides(b, c)
    ensures Divides(a, c)
  {
    var i :| b == a * i;
    var j :| c == b * j;
    assert (a * i) * j == a * (i * j);
  }

  lemma DividesAntisymmetric(a: int, b: int)
    requires a > 0 && b > 0 && Divides(a, b) && Divides(b, a)
    ensures a == b
  {
    DividesIsSmaller(a, b);
    DividesIsSmaller(b, a);
  }

  lemma DividesIsSmaller(a: int, b: int)
    requires b > 0 && a > 0 && Divides(a, b)
    ensures a <= b
  {
    var k :| b == a * k;
    assert k <= 0 ==> a * k <= 0;
    assert k >= 1 ==> a * k >= a * 1;
  }

  // ----- Greatest common divisor -----

  /** Euclid's algorithm. */
  ghost function Gcd(a: nat, b: nat): nat
    decreases b
  {
    if b == 0 then a else Gcd(b, a % b)
  }

  lemma {:induction false} GcdDivides(a: nat, b: nat)
    ensures Divides(Gcd(a, b), a) && Divides(Gcd(a, b), b)
    decreases b
  {
    if b == 0 {
      DividesBy(a, a, 1);
      DividesBy(a, 0, 0);
    } else {
      var g := Gcd(a, b);
      GcdDivides(b, a % b);
      assert a == b * (a / b) + a % b;
      DividesMultiple(g, b, a / b);
      DividesSum(g, b * (a / b), a % b);
    }
  }

  lemma {:induction false} Bezout(a: nat, b: nat) returns (x: int, y: int)
    ensures Gcd(a, b) == x * a + y * b
    decreases b
  {
    if b == 0 {
      x, y := 1, 0;
    } else {
      var u, v := Bezout(b, a % b);
      x, y := v, u - v * (a / b);
      assert a == b * (a / b) + a % b;
      BezoutStep(a, b, a / b, a % b, u, v);
    }
  }

  lemma BezoutStep(a: int, b: int, q: int, r: int, u: int, v: int)
    requires a == b * q + r
    ensures u * b + v * r == v * a + (u - v * q) * b
  {
    assert v * a == v * (b * q) + v * r;
    assert (u - v * q) * b == u * b - (v * q) * b;
    assert v * (b * q) == (v * q) * b;
  }

  /** Every common divisor divides the greatest one. */
  lemma GcdGreatest(a: nat, b: nat, d: int)
    requires Divides(d, a) && Divides(d, b)
    ensures Divides(d, Gcd(a, b))
  {
    var x, y := Bezout(a, b);
    DividesMultiple(d, a, x);
    DividesMultiple(d, b, y);
    DividesSum(d, x * a, y * b);
  }

  lemma {:induction false} GcdPositive(a: nat, b: nat)
    requires a > 0 || b > 0
    ensures Gcd(a, b) > 0
    decreases b
  {
    if b != 0 {
      GcdPositive(b, a % b);
    }
  }

  ghost predicate Coprime(a: int, b: int) {
    Gcd(Abs(a), Abs(b)) == 1
  }

  /** A divisor of a product that shares nothing with one factor divides the other. */
  lemma CoprimeDivides(a: int, d: int, c: int)
    requires Coprime(a, d) && Divides(d, a * c)
    ensures Divides(d, c)
  {
    var x, y := Bezout(Abs(a), Abs(d));
    var x' := if a < 0 then -x else x;
    var y' := if d < 0 then -y else y;
    assert x * Abs(a) == x' * a && y * Abs(d) == y' * d;
    hide Divides, Gcd;
    BezoutTimes(x' * a, y' * d, x', a, y', d, c);
    DividesMultiple(d, a * c, x');
    DividesBy(d, (y' * c) * d, y' * c);
    DividesSum(d, x' * (a * c), (y' * c) * d);
  }

  lemma BezoutTimes(m: int, n: int, x: int, a: int, y: int, d: int, c: int)
    requires m == x * a && n == y * d && m + n == 1
    ensures c == x * (a * c) + (y * c) * d
  {
    assert (x * a) * c == x * (a * c);
    assert (y * d) * c == (y * c) * d;
    assert m * c + n * c == (m + n) * c;
  }

  lemma AbsProduct(m: int, g: nat)
    ensures Abs(m * g) == Abs(m) * g
  {
    if m < 0 {
      assert (-m) * g == -(m * g);
      assert (-m) * g >= 0;
    } else {
      assert m * g >= 0;
    }
  }

  lemma OnlyOneScales(h: nat, g: nat)
    requires h > 0 && g > 0 && Divides(h * g, g)
    ensures h == 1
  {
    assert h * g >= 1 * g;
    DividesIsSmaller(h * g, g);
    assert h > 1 ==> h * g >= 2 * g;
  }

  /** Dividing both numbers by their greatest common divisor leaves coprime numbers. */
  lemma ReducedCoprime(a: int, b: int, m: int, n: int)
    requires (a != 0 || b != 0) && a == m * Gcd(Abs(a), Abs(b)) && b == n * Gcd(Abs(a), Abs(b))
    ensures Coprime(m, n)
  {
    hide Divides, Gcd;
    var g, h := Gcd(Abs(a), Abs(b)), Gcd(Abs(m), Abs(n));
    GcdPositive(Abs(a), Abs(b));
    AbsProduct(m, g);
    AbsProduct(n, g);
    GcdDivides(Abs(m), Abs(n));
    GcdPositive(Abs(m), Abs(n));
    ScaledDivisor(h, Abs(m), g);
    ScaledDivisor(h, Abs(n), g);
    GcdGreatest(Abs(a), Abs(b), h * g);
    OnlyOneScales(h, g);
  }

  lemma ScaledDivisor(h: nat, m: nat, g: nat)
    requires Divides(h, m)
    ensures Divides(h * g, m * g)
  {
    var k :| m == h * k;
    assert (h * k) * g == (h * g) * k;
  }

  // ----- Powers -----

  ghost function Pow(b: nat, n: nat): nat {
    if n == 0 then 1 else b * Pow(b, n - 1)
  }

  lemma {:induction false} TenAdd(m: nat, n: nat)
    ensures Ten(m + n) == Ten(m) * Ten(n)
  {
    if n > 0 {
      TenAdd(m, n - 1);
      assert 10 * (Ten(m) * Ten(n - 1)) == Ten(m) * (10 * Ten(n - 1));
    }
  }

  /** Only one divides a power of ten among the numbers without factors two and five. */
  lemma {:induction false} NoFactorOfTen(d: nat, k: nat)
    requires d % 2 != 0 && d % 5 != 0 && Divides(d, Ten(k))
    ensures d == 1
  {
    if k == 0 {
      DividesIsSmaller(d, 1);
    } else {
      TenFactor(d, Ten(k - 1));
      NoFactorOfTen(d, k - 1);
    }
  }

  lemma TenFactor(d: nat, n: int)
    requires d % 2 != 0 && d % 5 != 0 && Divides(d, 10 * n)
    ensures Divides(d, n)
  {
    hide Divides;
    var t := Cofactor(d, 10 * n);
    TenSplits(n, d * t);
    OddFactor(d, t);
    FiveFactor(d, t);
    var u := TenthOf(t);
    TenCancels(d, n, t, u);
  }

  lemma Cofactor(d: int, n: int) returns (k: int)
    requires Divides(d, n)
    ensures n == d * k
  {
    k :| n == d * k;
  }

  lemma TenthOf(t: int) returns (u: int)
    requires t % 2 == 0 && t % 5 == 0
    ensures t == 10 * u
  {
    u := t / 10;
  }

  lemma TenSplits(n: int, x: int)
    requires x == 10 * n
    ensures x % 2 == 0 && x % 5 == 0
  {
  }

  lemma TenCancels(d: int, n: int, t: int, u: int)
    requires 10 * n == d * t && t == 10 * u
    ensures Divides(d, n)
  {
    assert d * (10 * u) == 10 * (d * u);
    DividesBy(d, n, u);
  }

  lemma OddFactor(d: int, t: int)
    requires d % 2 != 0 && (d * t) % 2 == 0
    ensures t % 2 == 0
  {
    var a := d / 2;
    assert d == 2 * a + 1;
    assert (2 * a + 1) * t == 2 * (a * t) + t;
  }

  lemma FiveFactor(d: int, t: int)
    requires d % 5 != 0 && (d * t) % 5 == 0
    ensures t % 5 == 0
  {
    var a, b := d % 5, t % 5;
    var m := 5 * (d / 5) * (t / 5) + (d / 5) * b + a * (t / 5);
    assert d * t == (5 * (d / 5) + a) * (5 * (t / 5) + b);
    assert (5 * (d / 5) + a) * (5 * (t / 5) + b) == 5 * m + a * b;
    assert (a * b) % 5 == 0;
  }
}
