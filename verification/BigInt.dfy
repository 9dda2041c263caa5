/** The arbitrary-precision integers of src/vm/bigint.c: sign and limbs updated in place by
    carry, borrow and search loops, with every 32- and 64-bit intermediate checked. */
module BigInt {
  import opened Limbs

  function Signed(sign: int, magnitude: int): int {
    if sign < 0 then -magnitude else if sign > 0 then magnitude else 0
  }

  class Big {
    var sign: int
    var limbs: seq<u32>

    /** Zero has no limbs and no sign; nothing has a leading zero limb. */
    ghost predicate Normal()
      reads this
    {
      Trimmed(limbs) && -1 <= sign <= 1 && (sign == 0 <==> limbs == [])
    }

    ghost function Value(): int
      reads this
    {
      Signed(sign, Val(limbs))
    }

    /** `pn_big_init` */
    constructor ()
      ensures Normal() && Value() == 0 && sign == 0 && limbs == []
    {
      sign, limbs := 0, [];
    }

    /** `pn_big_copy` */
    constructor Copy(from: Big)
      ensures sign == from.sign && limbs == from.limbs
    {
      sign, limbs := from.sign, from.limbs;
    }

    /** `normalize` */
    method Normalize()
      requires Digits(limbs)
      modifies this
      ensures Trimmed(limbs) && Val(limbs) == old(Val(limbs)) && limbs <= old(limbs)
      ensures sign == if limbs == [] then 0 else old(sign)
    {
      while |limbs| > 0 && limbs[|limbs| - 1] == 0
        invariant Digits(limbs) && Val(limbs) == old(Val(limbs)) && sign == old(sign)
        invariant limbs <= old(limbs)
        decreases |limbs|
      {
        DropZero(limbs);
        limbs := limbs[..|limbs| - 1];
      }
      if limbs == [] {
        sign := 0;
      }
    }

    /** `pn_big_mul_small`: multiplies the magnitude. The limbs stay below the base for
        factors up to the base. */
    method MulSmall(factor: u32)
      requires Normal()
      modifies this
      ensures Value() == old(Value()) * factor as int
      ensures Val(limbs) == old(Val(limbs)) * factor as nat
      ensures sign == if factor == 0 then 0 else old(sign)
      ensures factor as int <= BASE ==> Normal()
    {
      if sign == 0 || factor == 1 {
        return;
      }
      if factor == 0 {
        limbs, sign := [], 0;
        return;
      }
      MulLimbs(factor);
      SignedProduct(old(Val(limbs)), factor as int);
    }

    /** The carry loop of `pn_big_mul_small`. */
    method MulLimbs(factor: u32)
      requires limbs != [] && Trimmed(limbs) && factor > 0
      modifies this`limbs
      ensures limbs != [] && Val(limbs) == old(Val(limbs)) * factor as nat
      ensures factor as int <= BASE ==> Trimmed(limbs)
    {
      var carry: u64 := 0;
      var i := 0;
      while i < |limbs|
        invariant 0 <= i <= |limbs| == |old(limbs)|
        invariant Digits(limbs) && carry as int < factor as int
        invariant forall k :: i <= k < |limbs| ==> limbs[k] == old(limbs)[k]
        invariant Low(limbs, i) + P(i) * carry as nat == Low(old(limbs), i) * factor as nat
      {
        var product, digit := MulStep(limbs[i], factor, carry);
        MulStepValue(limbs, old(limbs), i, digit, factor as nat, carry as nat, product as nat);
        limbs := limbs[i := digit];
        carry := product / BASE as u64;
        i := i + 1;
      }
      MulTop(limbs, old(limbs), carry as nat, factor as nat);
      if carry != 0 {
        limbs := limbs + [carry as u32];
      }
    }

    /** `pn_big_add_small`: adds to the magnitude. */
    method AddSmall(addend: u32)
      requires Normal()
      modifies this
      ensures Normal() && Val(limbs) == old(Val(limbs)) + addend as nat
      ensures sign == if old(sign) == 0 && addend != 0 then 1 else old(sign)
    {
      if addend == 0 {
        return;
      }
      if sign == 0 {
        limbs := LimbsOf(addend as u64);
        sign := 1;
        return;
      }
      AddLimbs(addend);
    }

    /** The carry loop of `pn_big_add_small`. */
    method AddLimbs(addend: u32)
      requires limbs != [] && Trimmed(limbs)
      modifies this`limbs
      ensures limbs != [] && Trimmed(limbs) && Val(limbs) == old(Val(limbs)) + addend as nat
    {
      var carry := addend as u64;
      var i := 0;
      while carry != 0 && i < |limbs|
        invariant 0 <= i <= |limbs| == |old(limbs)| && Digits(limbs)
        invariant (carry as int) < 0x1_0000_0000 && (i > 0 ==> (carry as int) < BASE)
        invariant forall k :: i <= k < |limbs| ==> limbs[k] == old(limbs)[k]
        invariant Low(limbs, i) + P(i) * carry as nat == Low(old(limbs), i) + addend as nat
      {
        var sum := limbs[i] as u64 + carry;
        var digit := (sum % BASE as u64) as u32;
        AddStepValue(limbs, old(limbs), i, digit, carry as nat, sum as nat);
        limbs := limbs[i := digit];
        carry := sum / BASE as u64;
        i := i + 1;
      }
      AddTop(limbs, old(limbs), i, carry as nat, addend as nat);
      if carry != 0 {
        limbs := limbs + [carry as u32];
      }
    }

    /** `pn_big_div_small`: divides the magnitude and returns the remainder. */
    method DivSmall(divisor: u32) returns (remainder: u32)
      requires Normal() && divisor > 0
      modifies this
      ensures Normal() && remainder < divisor
      ensures old(Val(limbs)) == divisor as nat * Val(limbs) + remainder as nat
      ensures sign == if limbs == [] then 0 else old(sign)
    {
      remainder := DivLimbs(divisor);
      Normalize();
    }

    method DivLimbs(divisor: u32) returns (remainder: u32)
      requires Digits(limbs) && divisor > 0
      modifies this`limbs
      ensures Digits(limbs) && remainder < divisor
      ensures |limbs| == |old(limbs)|
      ensures old(Val(limbs)) == divisor as nat * Val(limbs) + remainder as nat
    {
      remainder := 0;
      var i := |limbs|;
      while i > 0
        invariant 0 <= i <= |limbs| == |old(limbs)|
        invariant Digits(limbs) && remainder < divisor
        invariant forall k :: 0 <= k < i ==> limbs[k] == old(limbs)[k]
        invariant divisor as nat * High(limbs, i) + remainder as nat == High(old(limbs), i)
      {
        i := i - 1;
        var quotient, rest := DivStep(limbs[i], remainder, divisor);
        DivStepValue(limbs, old(limbs), i, divisor as nat, remainder as nat, quotient, rest as nat);
        limbs := limbs[i := quotient];
        remainder := rest;
      }
      HighIsVal(limbs);
      HighIsVal(old(limbs));
    }

    /** `shift_base_add`: one more limb at the low end. */
    method ShiftBaseAdd(limb: u32)
      requires Trimmed(limbs) && (limb as int) < BASE
      modifies this
      ensures Trimmed(limbs) && Val(limbs) == BASE * old(Val(limbs)) + limb as nat
      ensures sign == if limbs == [] then old(sign) else 1
    {
      if limbs == [] && limb == 0 {
        return;
      }
      ValShift(limbs, limb, |limbs|);
      limbs := [limb] + limbs;
      sign := 1;
    }

    /** `pn_big_pow10`: multiplies by a power of ten. */
    method Pow10(power: nat)
      requires Normal()
      modifies this
      ensures Normal() && Value() == old(Value()) * Ten(power)
    {
      var left: nat := power;
      while left > 0
        invariant left <= power && Normal()
        invariant Value() * Ten(left) == old(Value()) * Ten(power)
      {
        ghost var before := Value();
        MulSmall(10);
        assert before * 10 * Ten(left - 1) == before * Ten(left);
        left := left - 1;
      }
    }
  }

  lemma SignedProduct(a: int, f: int)
    ensures -(a * f) == (-a) * f
  {
  }

  /** One limb of a multiplication by a small factor. */
  method MulStep(limb: u32, factor: u32, carry: u64) returns (product: u64, digit: u32)
    requires (limb as int) < BASE && (carry as int) < (factor as int)
    ensures product as int == limb as int * factor as int + carry as int
    ensures product as int / BASE < factor as int
    ensures digit as int == product as int % BASE
  {
    ProductBound(limb as nat, factor as nat, carry as nat);
    product := limb as u64 * factor as u64 + carry;
    digit := (product % BASE as u64) as u32;
  }

  lemma MulStepValue(l: seq<u32>, o: seq<u32>, i: nat, digit: u32, factor: nat, carry: nat, product: nat)
    requires i < |l| == |o| && l[i] == o[i] && digit as nat == product % BASE
    requires product == o[i] as nat * factor + carry
    requires Low(l, i) + P(i) * carry == Low(o, i) * factor
    ensures Low(l[i := digit], i + 1) + P(i + 1) * (product / BASE) == Low(o, i + 1) * factor
  {
    LowAgree(l[i := digit], l, i);
    Carry(P(i), product);
    var p, x := P(i), o[i] as nat;
    DistributeStep(p, x, factor, carry, Low(o, i));
  }

  lemma DistributeStep(p: nat, x: nat, factor: nat, carry: nat, low: nat)
    ensures p * (x * factor + carry) == (p * x) * factor + p * carry
    ensures (low + p * x) * factor == low * factor + (p * x) * factor
  {
    assert p * (x * factor) == (p * x) * factor;
  }

  lemma MulTop(l: seq<u32>, o: seq<u32>, carry: nat, factor: nat)
    requires |l| == |o| > 0 && Trimmed(o) && Digits(l) && 0 < factor && carry < 0x1_0000_0000
    requires Low(l, |l|) + P(|l|) * carry == Low(o, |o|) * factor
    ensures carry != 0 ==> Val(l + [carry as u32]) == Val(o) * factor
    ensures carry == 0 ==> Val(l) == Val(o) * factor && Trimmed(l)
  {
    if carry != 0 {
      ValPush(l, carry as u32);
    } else {
      TrimmedBound(o);
      MulMono(Val(o), 1, Val(o), factor);
      if l[|l| - 1] == 0 {
        LowBound(l, |l| - 1);
      }
    }
  }

  ghost function Ten(n: nat): (p: nat)
    ensures p > 0
  {
    if n == 0 then 1 else 10 * Ten(n - 1)
  }

  // ----- Addition of a small number -----

  lemma AddStepValue(l: seq<u32>, o: seq<u32>, i: nat, digit: u32, carry: nat, sum: nat)
    requires i < |l| == |o| && l[i] == o[i] && digit as nat == sum % BASE && sum == o[i] as nat + carry
    ensures Low(l[i := digit], i + 1) + P(i + 1) * (sum / BASE) == Low(l, i) + P(i) * carry + P(i) * o[i] as nat
  {
    LowAgree(l[i := digit], l, i);
    Carry(P(i), sum);
    assert P(i) * (o[i] as nat + carry) == P(i) * o[i] as nat + P(i) * carry;
  }

  lemma AddTop(l: seq<u32>, o: seq<u32>, i: nat, carry: nat, addend: nat)
    requires |l| == |o| > 0 && i <= |l| && Trimmed(o) && Digits(l)
    requires carry == 0 || i == |l|
    requires carry < BASE
    requires forall k :: i <= k < |l| ==> l[k] == o[k]
    requires Low(l, i) + P(i) * carry == Low(o, i) + addend
    ensures carry == 0 ==> Val(l) == Val(o) + addend && Trimmed(l)
    ensures carry != 0 ==> Val(l + [carry as u32]) == Val(o) + addend
  {
    if carry == 0 {
      LowHigh(l, i);
      LowHigh(o, i);
      HighAgree(l, o, i);
      TrimmedBound(o);
      if l[|l| - 1] == 0 {
        LowBound(l, |l| - 1);
      }
    } else {
      ValPush(l, carry as u32);
    }
  }

  // ----- Division by a small number -----

  /** One limb of a division by a small divisor. */
  method DivStep(limb: u32, rest: u32, divisor: u32) returns (quotient: u32, remainder: u32)
    requires (limb as int) < BASE && rest < divisor
    ensures (quotient as int) < BASE && remainder < divisor
    ensures rest as int * BASE + limb as int == divisor as int * quotient as int + remainder as int
  {
    var current := rest as u64 * BASE as u64 + limb as u64;
    QuotientBelow(current as nat, divisor as nat);
    quotient := (current / divisor as u64) as u32;
    remainder := (current % divisor as u64) as u32;
  }

  lemma DivStepValue(l: seq<u32>, o: seq<u32>, i: nat, divisor: nat, rest: nat, quotient: u32, remainder: nat)
    requires i < |l| == |o| && l[i] == o[i]
    requires rest * BASE + o[i] as nat == divisor * quotient as nat + remainder
    requires divisor * High(l, i + 1) + rest == High(o, i + 1)
    ensures divisor * High(l[i := quotient], i) + remainder == High(o, i)
  {
    var l' := l[i := quotient];
    HighAgree(l', l, i + 1);
    var q, h := quotient as nat, High(l, i + 1);
    assert divisor * (q + BASE * h) == divisor * q + BASE * (divisor * h);
  }

  lemma QuotientBelow(x: nat, d: nat)
    requires d > 0 && x < d * BASE
    ensures x / d < BASE
  {
    var q := x / d;
    MulMono(d, BASE, d, if q >= BASE then q else BASE);
  }

  // ----- Small numbers -----

  function LimbCount(v: nat): nat {
    if v == 0 then 0 else 1 + LimbCount(v / BASE)
  }

  /** `pn_big_from_u64`: counts the limbs, then fills them. */
  method LimbsOf(value: u64) returns (limbs: seq<u32>)
    ensures Trimmed(limbs) && Val(limbs) == value as nat
  {
    var count, rest := 0, value;
    while rest != 0
      invariant count + LimbCount(rest as nat) == LimbCount(value as nat)
      decreases rest
    {
      count := count + 1;
      rest := rest / BASE as u64;
    }
    limbs := seq(count, _ => 0 as u32);
    rest := value;
    var i := 0;
    while i < count
      invariant 0 <= i <= count == |limbs| && Digits(limbs)
      invariant i + LimbCount(rest as nat) == count
      invariant Low(limbs, i) + P(i) * rest as nat == value as nat
      invariant i == count > 0 ==> limbs[i - 1] != 0
    {
      var digit := (rest % BASE as u64) as u32;
      LowAgree(limbs[i := digit], limbs, i);
      Carry(P(i), rest as nat);
      limbs := limbs[i := digit];
      rest := rest / BASE as u64;
      i := i + 1;
    }
  }

  // ----- Comparison -----

  function Order(x: int, y: int): int {
    if x < y then -1 else if x == y then 0 else 1
  }

  /** `abs_compare`: compares magnitudes limb by limb from the top. */
  method AbsCompare(a: Big, b: Big) returns (c: int)
    requires Trimmed(a.limbs) && Trimmed(b.limbs)
    ensures c == Order(Val(a.limbs), Val(b.limbs))
  {
    var x, y := a.limbs, b.limbs;
    if |x| != |y| {
      if |x| < |y| {
        ShorterIsSmaller(x, y);
        return -1;
      }
      ShorterIsSmaller(y, x);
      return 1;
    }
    var i := |x|;
    while i > 0
      invariant 0 <= i <= |x| && High(x, i) == High(y, i)
    {
      i := i - 1;
      if x[i] != y[i] {
        if x[i] < y[i] {
          HighDecides(x, y, i);
          return -1;
        }
        HighDecides(y, x, i);
        return 1;
      }
    }
    HighIsVal(x);
    HighIsVal(y);
    return 0;
  }

  /** `pn_big_compare` */
  method Compare(a: Big, b: Big) returns (c: int)
    requires a.Normal() && b.Normal()
    ensures c == Order(a.Value(), b.Value())
  {
    if a.sign != b.sign {
      NormalPositive(a.limbs);
      NormalPositive(b.limbs);
      return if a.sign < b.sign then -1 else 1;
    }
    c := AbsCompare(a, b);
    if a.sign < 0 {
      c := -c;
    }
  }

  lemma NormalPositive(l: seq<u32>)
    requires Trimmed(l)
    ensures Val(l) > 0 <==> l != []
  {
    if l != [] {
      TrimmedBound(l);
    }
  }

  // ----- Addition and subtraction -----

  /** `abs_add`: adds magnitudes; the result has no sign yet. */
  method AbsAdd(a: Big, b: Big) returns (out: Big)
    requires Trimmed(a.limbs) && Trimmed(b.limbs)
    ensures fresh(out) && Trimmed(out.limbs) && Val(out.limbs) == Val(a.limbs) + Val(b.limbs)
  {
    hide Low, P, Val;
    var x, y := a.limbs, b.limbs;
    var count := (if |x| > |y| then |x| else |y|) + 1;
    var limbs := seq(count, _ => 0 as u32);
    LowNone(limbs);
    LowNone(x);
    LowNone(y);
    var carry: u64 := 0;
    var i := 0;
    while i + 1 < count
      invariant 0 <= i < count == |limbs| && Digits(limbs) && carry <= 1
      invariant Low(limbs, i) + P(i) * carry as nat == Low(x, i) + Low(y, i)
    {
      var sum := carry + Limb(x, i) as u64 + Limb(y, i) as u64;
      var digit := (sum % BASE as u64) as u32;
      SumStepValue(limbs, x, y, i, digit, carry as nat, sum as nat);
      limbs := limbs[i := digit];
      carry := sum / BASE as u64;
      i := i + 1;
    }
    SumTop(limbs, x, y, carry as u32);
    limbs := limbs[i := carry as u32];
    out := new Big();
    out.limbs := limbs;
    out.Normalize();
  }

  lemma SumTop(l: seq<u32>, x: seq<u32>, y: seq<u32>, carry: u32)
    requires |l| > 0 && |x| <= |l| - 1 && |y| <= |l| - 1
    requires Low(l, |l| - 1) + P(|l| - 1) * carry as nat == Low(x, |l| - 1) + Low(y, |l| - 1)
    ensures Val(l[|l| - 1 := carry]) == Val(x) + Val(y)
  {
    LowAgree(l[|l| - 1 := carry], l, |l| - 1);
    LowBeyond(x, |l| - 1);
    LowBeyond(y, |l| - 1);
  }

  lemma SumStepValue(l: seq<u32>, x: seq<u32>, y: seq<u32>, i: nat, digit: u32, carry: nat, sum: nat)
    requires i < |l| && digit as nat == sum % BASE && sum == carry + Limb(x, i) + Limb(y, i)
    requires Low(l, i) + P(i) * carry == Low(x, i) + Low(y, i)
    ensures Low(l[i := digit], i + 1) + P(i + 1) * (sum / BASE) == Low(x, i + 1) + Low(y, i + 1)
  {
    hide P, Low;
    LowAgree(l[i := digit], l, i);
    Carry(P(i), sum);
    Distribute(P(i), carry, Limb(x, i), Limb(y, i));
    PStep(i);
    LowStep(l[i := digit], i);
    LowStep(x, i);
    LowStep(y, i);
  }

  /** `abs_sub`: subtracts a magnitude from one that is at least as large. */
  method AbsSub(a: Big, b: Big) returns (out: Big)
    requires Trimmed(a.limbs) && Trimmed(b.limbs) && Val(b.limbs) <= Val(a.limbs)
    ensures fresh(out) && Trimmed(out.limbs) && out.sign == 0
    ensures Val(out.limbs) == Val(a.limbs) - Val(b.limbs)
  {
    hide Low, P, Val;
    var x, y := a.limbs, b.limbs;
    NotLonger(x, y);
    var limbs := seq(|x|, _ => 0 as u32);
    LowNone(limbs);
    LowNone(x);
    LowNone(y);
    var borrow: i64 := 0;
    var i := 0;
    while i < |x|
      invariant 0 <= i <= |x| == |limbs| && Digits(limbs) && 0 <= borrow <= 1
      invariant Low(limbs, i) + Low(y, i) == Low(x, i) + P(i) * borrow as nat
    {
      var digit, borrowed := SubStep(x[i], Limb(y, i) as u32, borrow);
      DiffStepValue(limbs, x, y, i, digit, borrow as nat, borrowed as nat);
      limbs := limbs[i := digit];
      borrow := borrowed;
      i := i + 1;
    }
    NoBorrow(limbs, x, y, borrow as nat);
    out := new Big();
    out.limbs := limbs;
    out.Normalize();
  }

  lemma NoBorrow(l: seq<u32>, x: seq<u32>, y: seq<u32>, borrow: nat)
    requires |l| == |x| && |y| <= |x| && Digits(l) && borrow <= 1 && Val(y) <= Val(x)
    requires Low(l, |x|) + Low(y, |x|) == Low(x, |x|) + P(|x|) * borrow
    ensures Val(l) == Val(x) - Val(y)
  {
    LowBeyond(y, |x|);
    LowBound(l, |x|);
    assert borrow == 0;
  }

  /** One limb of a subtraction. */
  method SubStep(u: u32, v: u32, borrow: i64) returns (digit: u32, borrowed: i64)
    requires (u as int) < BASE && (v as int) < BASE && 0 <= borrow <= 1
    ensures (digit as int) < BASE && 0 <= borrowed <= 1
    ensures digit as int == u as int - v as int - borrow as int + BASE * borrowed as int
  {
    var diff := u as i64 - v as i64 - borrow;
    borrowed := 0;
    if diff < 0 {
      diff := diff + BASE as i64;
      borrowed := 1;
    }
    digit := diff as u32;
  }

  lemma NotLonger(x: seq<u32>, y: seq<u32>)
    requires Trimmed(x) && Trimmed(y) && Val(y) <= Val(x)
    ensures |y| <= |x|
  {
    if |y| > |x| {
      ShorterIsSmaller(x, y);
    }
  }

  lemma DiffStepValue(l: seq<u32>, x: seq<u32>, y: seq<u32>, i: nat, digit: u32, borrow: nat, borrowed: nat)
    requires i < |l| && digit as int == Limb(x, i) - Limb(y, i) - borrow + BASE * borrowed
    requires Low(l, i) + Low(y, i) == Low(x, i) + P(i) * borrow
    ensures Low(l[i := digit], i + 1) + Low(y, i + 1) == Low(x, i + 1) + P(i + 1) * borrowed
  {
    hide P, Low;
    LowAgree(l[i := digit], l, i);
    var p, u, v := P(i), Limb(x, i), Limb(y, i);
    assert digit as int + v + borrow == u + BASE * borrowed;
    Distribute(p, digit as int, v, borrow);
    Distribute(p, u, BASE * borrowed, 0);
    assert p * (BASE * borrowed) == (BASE * p) * borrowed;
    PStep(i);
    LowStep(l[i := digit], i);
    LowStep(x, i);
    LowStep(y, i);
  }

  /** `pn_big_add` */
  method Add(a: Big, b: Big) returns (out: Big)
    requires a.Normal() && b.Normal()
    ensures fresh(out) && out.Normal() && out.Value() == a.Value() + b.Value()
  {
    if a.sign == 0 {
      out := new Big.Copy(b);
      return;
    }
    if b.sign == 0 {
      out := new Big.Copy(a);
      return;
    }
    NormalPositive(a.limbs);
    NormalPositive(b.limbs);
    if a.sign == b.sign {
      out := AbsAdd(a, b);
      out.sign := a.sign;
      NormalPositive(out.limbs);
      return;
    }
    var c := AbsCompare(a, b);
    if c == 0 {
      out := new Big();
      return;
    }
    if c > 0 {
      out := AbsSub(a, b);
      out.sign := a.sign;
    } else {
      out := AbsSub(b, a);
      out.sign := b.sign;
    }
    NormalPositive(out.limbs);
  }

  /** `pn_big_sub`: adds the negation. */
  method Sub(a: Big, b: Big) returns (out: Big)
    requires a.Normal() && b.Normal()
    ensures fresh(out) && out.Normal() && out.Value() == a.Value() - b.Value()
  {
    var neg := new Big.Copy(b);
    neg.sign := -neg.sign;
    out := Add(a, neg);
  }

  // ----- Multiplication -----

  /** No 64-bit overflow in a step of long multiplication. */
  lemma RowBound(o: nat, x: nat, y: nat, carry: nat)
    requires o < BASE && x < BASE && y < BASE && carry < BASE
    ensures 0 <= x * y && o + x * y + carry < BASE * BASE && (o + x * y + carry) / BASE < BASE
  {
    MulMono(0, 0, x, y);
    MulMono(x, y, BASE - 1, BASE - 1);
    DivBelow(o + x * y + carry, BASE);
  }

  lemma RowStepValue(l: seq<u32>, i: nat, j: nat, y: seq<u32>, x: nat, digit: u32, carry: nat, current: nat, goal: nat)
    requires i + j < |l| && j < |y|
    requires current == l[i + j] as nat + x * y[j] as nat + carry && digit as nat == current % BASE
    requires Val(l) + P(i + j) * carry == goal + P(i) * (x * Low(y, j))
    ensures Val(l[i + j := digit]) + P(i + j + 1) * (current / BASE) == goal + P(i) * (x * Low(y, j + 1))
  {
    hide P, Low;
    var p, v := P(i + j), x * y[j] as nat;
    LowUpdate(l, i + j, digit, |l|);
    Carry(p, current);
    Distribute(p, l[i + j] as nat, v, carry);
    PStep(i + j);
    PAdd(i, j);
    LowStep(y, j);
    RowProduct(P(i), P(j), x, y[j] as nat, Low(y, j));
  }

  lemma RowProduct(pi: nat, pj: nat, x: nat, y: nat, low: nat)
    ensures pi * (x * (low + pj * y)) == pi * (x * low) + (pi * pj) * (x * y)
  {
    assert x * (low + pj * y) == x * low + x * (pj * y);
    assert pi * (x * low + x * (pj * y)) == pi * (x * low) + pi * (x * (pj * y));
    assert x * (pj * y) == pj * (x * y);
    assert pi * (pj * (x * y)) == (pi * pj) * (x * y);
  }

  /** One row of long multiplication: adds `x` times `y` at limb `i`. */
  method MulRow(start: seq<u32>, x: u32, y: seq<u32>, i: nat) returns (limbs: seq<u32>)
    requires Digits(start) && Digits(y) && (x as int) < BASE && i + |y| < |start|
    requires forall k :: i + |y| <= k < |start| ==> start[k] == 0
    ensures |limbs| == |start| && Digits(limbs)
    ensures forall k :: i + |y| < k < |start| ==> limbs[k] == 0
    ensures Val(limbs) == Val(start) + P(i) * (x as nat * Val(y))
  {
    hide P, Low;
    limbs := start;
    var carry: u64 := 0;
    var j := 0;
    LowNone(y);
    assert x as nat * 0 == 0;
    while j < |y|
      invariant 0 <= j <= |y| && |limbs| == |start| && Digits(limbs) && (carry as int) < BASE
      invariant forall k :: i + |y| <= k < |start| ==> limbs[k] == 0
      invariant Val(limbs) + P(i + j) * carry as nat == Val(start) + P(i) * (x as nat * Low(y, j))
    {
      RowBound(limbs[i + j] as nat, x as nat, y[j] as nat, carry as nat);
      var current := limbs[i + j] as u64 + x as u64 * y[j] as u64 + carry;
      var digit := (current % BASE as u64) as u32;
      RowStepValue(limbs, i, j, y, x as nat, digit, carry as nat, current as nat, Val(start));
      limbs := limbs[i + j := digit];
      carry := current / BASE as u64;
      j := j + 1;
    }
    limbs := AddCarry(limbs, i + |y|, carry);
  }

  /** The carry loop at the end of a row. */
  method AddCarry(start: seq<u32>, at: nat, first: u64) returns (limbs: seq<u32>)
    requires Digits(start) && at < |start| && start[at] == 0 && (first as int) < BASE
    ensures |limbs| == |start| && Digits(limbs)
    ensures forall k :: 0 <= k < |start| && k != at ==> limbs[k] == start[k]
    ensures Val(limbs) == Val(start) + P(at) * first as nat
  {
    hide P, Low;
    limbs := start;
    var carry, k := first, at;
    while carry != 0
      invariant at <= k <= at + 1 && |limbs| == |start| && Digits(limbs)
      invariant k == at ==> limbs == start && carry == first
      invariant k > at ==> carry == 0
      invariant forall k :: 0 <= k < |start| && k != at ==> limbs[k] == start[k]
      invariant Val(limbs) + P(k) * carry as nat == Val(start) + P(at) * first as nat
      decreases carry
    {
      var current := limbs[k] as u64 + carry;
      LowUpdate(limbs, k, (current % BASE as u64) as u32, |limbs|);
      limbs := limbs[k := (current % BASE as u64) as u32];
      carry := current / BASE as u64;
      k := k + 1;
    }
  }

  /** `pn_big_mul`: long multiplication. */
  method Mul(a: Big, b: Big) returns (out: Big)
    requires a.Normal() && b.Normal()
    ensures fresh(out) && out.Normal() && out.Value() == a.Value() * b.Value()
  {
    if a.sign == 0 || b.sign == 0 {
      out := new Big();
      return;
    }
    var limbs := MulLimbs(a.limbs, b.limbs);
    out := new Big();
    out.limbs := limbs;
    out.sign := a.sign * b.sign;
    out.Normalize();
    ProductPositive(a.limbs, b.limbs);
    SignedProduct(Val(a.limbs), Val(b.limbs));
    SignedProduct(Val(a.limbs), -(Val(b.limbs) as int));
    assert Val(a.limbs) * -(Val(b.limbs) as int) == -(Val(a.limbs) * Val(b.limbs));
    NormalPositive(out.limbs);
  }

  lemma ProductPositive(x: seq<u32>, y: seq<u32>)
    requires Trimmed(x) && Trimmed(y) && x != [] && y != []
    ensures Val(x) * Val(y) > 0
  {
    NormalPositive(x);
    NormalPositive(y);
    MulMono(1, 1, Val(x), Val(y));
  }

  method MulLimbs(x: seq<u32>, y: seq<u32>) returns (limbs: seq<u32>)
    requires Digits(x) && Digits(y) && x != [] && y != []
    ensures Digits(limbs) && Val(limbs) == Val(x) * Val(y)
  {
    hide P, Low;
    limbs := seq(|x| + |y|, _ => 0 as u32);
    ValZeros(limbs, |limbs|);
    LowNone(x);
    assert 0 * Val(y) == 0;
    var i := 0;
    while i < |x|
      invariant 0 <= i <= |x| && |limbs| == |x| + |y| && Digits(limbs)
      invariant forall k :: i + |y| <= k < |limbs| ==> limbs[k] == 0
      invariant Val(limbs) == Low(x, i) * Val(y)
    {
      limbs := MulRow(limbs, x[i], y, i);
      LowStep(x, i);
      assert (Low(x, i) + P(i) * x[i] as nat) * Val(y) == Low(x, i) * Val(y) + P(i) * (x[i] as nat * Val(y));
      i := i + 1;
    }
  }
}
