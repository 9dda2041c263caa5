/** Order and equality of numbers of different kinds. */
module Comparison {
  import opened BigInt
  import opened Rational
  import opened DecimalMath
  import opened DecimalOrder

  datatype Number =
    | Nat(whole: int)
    | Int(whole: int)
    | Rat(numerator: int, denominator: int)
    | Decimal(coefficient: int, exponent: int)

  /** What the constructors of values guarantee. */
  ghost predicate Canonical(x: Number) {
    (x.Nat? ==> x.whole >= 0) && (x.Rat? ==> Lowest(x.numerator, x.denominator))
  }

  /** The numerator that `rational_binary` uses; decimals are no operands of it. */
  function Over(x: Number): int
    requires !x.Decimal?
  {
    if x.Rat? then x.numerator else x.whole
  }

  function Under(x: Number): int
    requires !x.Decimal?
  {
    if x.Rat? then x.denominator else 1
  }

  ghost function Worth(x: Number): real
    requires Canonical(x)
  {
    if x.Decimal? then Dec(x.coefficient, x.exponent) else Q(Over(x), Under(x))
  }

  /** `decimal_compare`, which DecimalOrder proves to be the sign of the comparison. */
  ghost function CompareDecimals(x: Number, y: Number): int
    requires x.Decimal? && y.Decimal?
  {
    Sign(Dec(x.coefficient, x.exponent), Dec(y.coefficient, y.exponent))
  }

  predicate Comparable(x: Number, y: Number) {
    x.Decimal? <==> y.Decimal?
  }

  /** The comparison behind the ordering operators, which trap on operands that are not comparable. */
  ghost function CompareNumbers(x: Number, y: Number): int
    requires Comparable(x, y)
  {
    if x.Decimal? then CompareDecimals(x, y)
    else if x.Rat? || y.Rat? then Order(Over(x) * Under(y), Over(y) * Under(x))
    else Order(x.whole, y.whole)
  }

  /** `value_equal`, which looks at the kind first. */
  ghost predicate SameValue(x: Number, y: Number) {
    match (x, y)
    case (Nat(m), Nat(n)) => m == n
    case (Int(m), Int(n)) => m == n
    case (Rat(m, d), Rat(n, e)) => m == n && d == e
    case (Decimal(_, _), Decimal(_, _)) => CompareDecimals(x, y) == 0
    case _ => false
  }

  /** The equality operator: rational as soon as one of two whole or rational sides is, by value and
      kind otherwise. */
  ghost predicate EqualNumbers(x: Number, y: Number) {
    if !x.Decimal? && !y.Decimal? && (x.Rat? || y.Rat?) then CompareNumbers(x, y) == 0 else SameValue(x, y)
  }

  /** A Nat beside an Int, or a decimal beside another kind. */
  predicate Mixed(x: Number, y: Number) {
    (x.Nat? && y.Int?) || (x.Int? && y.Nat?) || !Comparable(x, y)
  }

  /** Wherever the ordering operators do not trap they order by value, whatever the kinds. */
  lemma OrderedByWorth(x: Number, y: Number)
    requires Canonical(x) && Canonical(y) && Comparable(x, y)
    ensures CompareNumbers(x, y) == Sign(Worth(x), Worth(y))
  {
    if !x.Decimal? {
      hide Q;
      CrossOrder(Over(x), Under(x), Over(y), Under(y));
    }
  }

  /** So they are a total preorder on decimals and on all other numbers. */
  lemma TotalPreorder(x: Number, y: Number, z: Number)
    requires Canonical(x) && Canonical(y) && Canonical(z) && Comparable(x, y) && Comparable(y, z)
    ensures CompareNumbers(x, x) == 0 && CompareNumbers(x, y) == -CompareNumbers(y, x)
    ensures CompareNumbers(x, y) <= 0 && CompareNumbers(y, z) <= 0 ==>
              CompareNumbers(x, z) <= 0 && (CompareNumbers(x, z) == 0 ==> CompareNumbers(x, y) == 0)
  {
    hide CompareNumbers, Worth;
    OrderedByWorth(x, x);
    OrderedByWorth(x, y);
    OrderedByWorth(y, x);
    OrderedByWorth(y, z);
    OrderedByWorth(x, z);
  }

  /** Equality is equality by value, except that a Nat never equals an Int and a decimal equals only
      decimals. */
  lemma EqualByWorth(x: Number, y: Number)
    requires Canonical(x) && Canonical(y)
    ensures EqualNumbers(x, y) <==> Worth(x) == Worth(y) && !Mixed(x, y)
  {
    if Comparable(x, y) {
      OrderedByWorth(x, y);
      if !x.Decimal? && !x.Rat? && !y.Rat? {
        CrossIsEqual(x.whole, 1, y.whole, 1);
      }
    }
  }

  /** Component-wise equality of rationals, as used inside collections, is equality by value. */
  lemma ComponentsDecide(x: Number, y: Number)
    requires Canonical(x) && Canonical(y) && x.Rat? && y.Rat?
    ensures SameValue(x, y) <==> EqualNumbers(x, y)
  {
    hide Q, Lowest;
    EqualByWorth(x, y);
    LowestUnique(x.numerator, x.denominator, y.numerator, y.denominator);
  }

  /** Equality is not transitive across kinds ... */
  lemma EqualityNotTransitive()
    ensures EqualNumbers(Nat(1), Rat(1, 1)) && EqualNumbers(Rat(1, 1), Int(1)) && !EqualNumbers(Nat(1), Int(1))
  {
  }

  /** ... and a chain of equalities fails to close exactly between a Nat and an Int. */
  lemma EqualityCloses(x: Number, y: Number, z: Number)
    requires Canonical(x) && Canonical(y) && Canonical(z) && EqualNumbers(x, y) && EqualNumbers(y, z)
    ensures EqualNumbers(x, z) <==> !((x.Nat? && z.Int?) || (x.Int? && z.Nat?))
  {
    hide EqualNumbers, Worth;
    EqualByWorth(x, y);
    EqualByWorth(y, z);
    EqualByWorth(x, z);
  }

  /** Numbers that are each at most the other are equal exactly when they are not a Nat and an Int. */
  lemma OrderMeetsEquality(x: Number, y: Number)
    requires Canonical(x) && Canonical(y) && Comparable(x, y)
    requires CompareNumbers(x, y) <= 0 && CompareNumbers(y, x) <= 0
    ensures EqualNumbers(x, y) <==> !Mixed(x, y)
  {
    hide EqualNumbers, Worth, CompareNumbers;
    OrderedByWorth(x, y);
    OrderedByWorth(y, x);
    EqualByWorth(x, y);
  }
}
