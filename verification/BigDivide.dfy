/** Long division of src/vm/bigint.c: each quotient digit is found by binary search. */
module BigDivide {
  import opened Limbs
  import opened BigInt

  // ----- One quotient digit -----

  /** `d` is the greatest digit whose multiple of `b` stays within `r`. */
  ghost predicate GreatestDigit(d: nat, b: nat, r: nat) {
    d < BASE && d * b <= r && r < (d + 1) * b
  }

  /** Does `mid` times the divisor stay within the remainder? */
  method Probe(b: Big, mid: u32, r: Big) returns (within: bool)
    requires b.Normal() && b.sign == 1 && Trimmed(r.limbs) && (mid as int) < BASE
    ensures within == (mid as nat * Val(b.limbs) <= Val(r.limbs))
  {
    hide Val;
    var probe := new Big.Copy(b);
    probe.MulSmall(mid);
    assert Val(b.limbs) * mid as nat == mid as nat * Val(b.limbs);
    var c := AbsCompare(probe, r);
    within := c <= 0;
  }

  /** The search range still holds the greatest digit. */
  ghost predicate InRange(lo: nat, hi: nat, best: nat, b: nat, r: nat) {
    && lo <= hi + 1 <= BASE && best < BASE && best * b <= r
    && (if lo == 0 then best == 0 else best == lo - 1)
    && r < (hi + 1) * b
  }

  /** The binary search for one quotient digit. */
  method FindDigit(b: Big, r: Big) returns (best: u32)
    requires b.Normal() && b.sign == 1 && Trimmed(r.limbs)
    requires Val(r.limbs) < BASE * Val(b.limbs)
    ensures GreatestDigit(best as nat, Val(b.limbs), Val(r.limbs))
  {
    ghost var bv, rv := Val(b.limbs), Val(r.limbs);
    var lo: u32, hi: u32 := 0, BASE as u32 - 1;
    best := 0;
    while lo <= hi
      invariant InRange(lo as nat, hi as nat, best as nat, bv, rv)
      decreases hi as int - lo as int
    {
      var mid := lo + (hi - lo) / 2;
      var within := Probe(b, mid, r);
      if within {
        best := mid;
        if mid as int == BASE - 1 {
          break;
        }
        lo := mid + 1;
      } else {
        if mid == 0 {
          break;
        }
        hi := mid - 1;
      }
    }
  }

  // ----- Long division -----

  /** Subtracts `best` times the divisor from the remainder. */
  method Reduce(r: Big, b: Big, best: u32) returns (next: Big)
    requires b.Normal() && b.sign == 1 && Trimmed(r.limbs) && (best as int) < BASE && best > 0
    requires best as nat * Val(b.limbs) <= Val(r.limbs)
    ensures fresh(next) && Trimmed(next.limbs)
    ensures Val(next.limbs) == Val(r.limbs) - best as nat * Val(b.limbs)
  {
    hide Val;
    var product := new Big.Copy(b);
    product.MulSmall(best);
    assert Val(b.limbs) * best as nat == best as nat * Val(b.limbs);
    next := AbsSub(r, product);
  }

  lemma DivideStep(a: seq<u32>, q: seq<u32>, i: nat, b: nat, r: nat, digit: u32)
    requires i < |a| == |q|
    requires High(a, i + 1) == b * High(q, i + 1) + r
    requires digit as nat * b <= BASE * r + a[i] as nat
    ensures High(a, i) == b * High(q[i := digit], i) + (BASE * r + a[i] as nat - digit as nat * b)
  {
    HighAgree(q[i := digit], q, i + 1);
    var h, d := High(q, i + 1), digit as nat;
    assert BASE * (b * h + r) == b * (BASE * h) + BASE * r;
    assert b * (d + BASE * h) == b * d + b * (BASE * h);
  }

  /** The digit loop; `a` is the magnitude of the dividend, `b` the positive divisor. */
  method DivideLimbs(a: seq<u32>, b: Big) returns (q: seq<u32>, r: Big)
    requires Digits(a) && b.Normal() && b.sign == 1
    ensures |q| == |a| && Digits(q) && fresh(r) && Trimmed(r.limbs)
    ensures Val(a) == Val(b.limbs) * Val(q) + Val(r.limbs) && Val(r.limbs) < Val(b.limbs)
  {
    hide Val;
    NormalPositive(b.limbs);
    NormalPositive([]);
    r := new Big();
    q := seq(|a|, _ => 0 as u32);
    var pos := |a|;
    assert Val(b.limbs) * 0 == 0;
    while pos > 0
      invariant 0 <= pos <= |a| == |q| && Digits(q)
      invariant fresh(r) && r != b && Trimmed(r.limbs) && Val(r.limbs) < Val(b.limbs)
      invariant b.limbs == old(b.limbs) && b.Normal() && b.sign == 1
      invariant High(a, pos) == Val(b.limbs) * High(q, pos) + Val(r.limbs)
    {
      pos := pos - 1;
      ghost var rv := Val(r.limbs);
      r.ShiftBaseAdd(a[pos]);
      var best := FindDigit(b, r);
      DivideStep(a, q, pos, Val(b.limbs), rv, best);
      q := q[pos := best];
      if best != 0 {
        r := Reduce(r, b, best);
      }
    }
    HighIsVal(a);
    HighIsVal(q);
  }

  /** The promises of `pn_big_divmod`: truncated division. */
  ghost predicate Truncated(a: int, b: int, q: int, r: int) {
    && a == q * b + r
    && (if r < 0 then -r else r) < (if b < 0 then -b else b)
    && (r == 0 || (r < 0 <==> a < 0))
  }

  /** `pn_big_divmod`; fails exactly for a zero divisor. */
  method DivMod(a: Big, b: Big) returns (ok: bool, q: Big, r: Big)
    requires a.Normal() && b.Normal()
    ensures ok <==> b.Value() != 0
    ensures fresh(q) && fresh(r) && q != r && q.Normal() && r.Normal()
    ensures ok ==> Truncated(a.Value(), b.Value(), q.Value(), r.Value())
  {
    hide Val, Truncated;
    NormalPositive(a.limbs);
    NormalPositive(b.limbs);
    if b.sign == 0 {
      ok := false;
      q := new Big();
      r := new Big();
      return;
    }
    ok := true;
    var aa := new Big.Copy(a);
    var bb := new Big.Copy(b);
    aa.sign := if aa.limbs == [] then 0 else 1;
    bb.sign := 1;
    var c := AbsCompare(aa, bb);
    if c < 0 {
      q := new Big();
      r := new Big.Copy(a);
      SmallDividend(a.Value(), b.Value());
      return;
    }
    q, r := DivideMagnitudes(aa, bb);
    q.sign := if q.limbs == [] then 0 else a.sign * b.sign;
    r.sign := if r.limbs == [] then 0 else a.sign;
    NormalPositive(q.limbs);
    NormalPositive(r.limbs);
    SignsOfDivision(a.sign, b.sign, Val(a.limbs), Val(b.limbs), Val(q.limbs), Val(r.limbs));
  }

  method DivideMagnitudes(a: Big, b: Big) returns (q: Big, r: Big)
    requires Trimmed(a.limbs) && b.Normal() && b.sign == 1
    ensures fresh(q) && fresh(r) && q != r && Trimmed(q.limbs) && Trimmed(r.limbs)
    ensures Val(a.limbs) == Val(b.limbs) * Val(q.limbs) + Val(r.limbs) && Val(r.limbs) < Val(b.limbs)
  {
    var digits, rest := DivideLimbs(a.limbs, b);
    r := rest;
    q := new Big();
    q.limbs := digits;
    q.Normalize();
  }

  lemma SmallDividend(a: int, b: int)
    requires (if a < 0 then -a else a) < (if b < 0 then -b else b)
    ensures Truncated(a, b, 0, a)
  {
  }

  lemma SignsOfDivision(s: int, t: int, a: int, b: int, q: int, r: int)
    requires (s == 1 || s == -1) && (t == 1 || t == -1)
    requires a == b * q + r && 0 <= r < b && 0 < a && 0 <= q
    ensures Truncated(Signed(s, a), Signed(t, b),
                      Signed(if q == 0 then 0 else s * t, q), Signed(if r == 0 then 0 else s, r))
  {
    SignedProducts(q, b);
    if s == 1 && t == 1 {
      assert Truncated(a, b, q, r);
    } else if s == 1 {
      assert Truncated(a, -b, -q, r);
    } else if t == 1 {
      assert Truncated(-a, b, -q, -r);
    } else {
      assert Truncated(-a, -b, q, -r);
    }
  }

  lemma SignedProducts(q: int, b: int)
    ensures q * b == b * q && (-q) * b == -(b * q) && q * (-b) == -(b * q) && (-q) * (-b) == b * q
  {
  }
}
