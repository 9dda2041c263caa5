/** Little-endian base 10^9 limbs and the numbers they denote. */
module Limbs {

  newtype u32 = x: int | 0 <= x < 0x1_0000_0000
  newtype u64 = x: int | 0 <= x < 0x1_0000_0000_0000_0000
  newtype i64 = x: int | -0x8000_0000_0000_0000 <= x < 0x8000_0000_0000_0000

  const BASE: nat := 1_000_000_000

  /** BASE to the power n. */
  ghost function P(n: nat): (p: nat)
    ensures p > 0
  {
    if n == 0 then 1 else BASE * P(n - 1)
  }

  ghost predicate Digits(l: seq<u32>) {
    forall i :: 0 <= i < |l| ==> l[i] as int < BASE
  }

  /** Limb `i`, zero beyond the end. */
  function Limb(l: seq<u32>, i: nat): nat {
    if i < |l| then l[i] as nat else 0
  }

  /** The number denoted by the first `n` limbs. */
  ghost function Low(l: seq<u32>, n: nat): nat {
    if n == 0 then 0 else Low(l, n - 1) + P(n - 1) * Limb(l, n - 1)
  }

  /** The number denoted by the limbs from `i` on, in units of limb `i`. */
  ghost function High(l: seq<u32>, i: nat): nat
    decreases |l| - i
  {
    if i >= |l| then 0 else l[i] as nat + BASE * High(l, i + 1)
  }

  ghost function Val(l: seq<u32>): nat {
    Low(l, |l|)
  }

  // ----- Arithmetic helpers -----

  lemma MulMono(a: nat, b: nat, c: nat, d: nat)
    requires a <= c && b <= d
    ensures a * b <= c * d
  {
    assert a * b <= c * b;
    assert c * b <= c * d;
  }

  /** Carrying: a digit and its carry stand for the whole. */
  lemma Carry(p: nat, x: nat)
    ensures p * (x % BASE) + (BASE * p) * (x / BASE) == p * x
  {
    assert x == BASE * (x / BASE) + x % BASE;
    assert p * x == p * (BASE * (x / BASE)) + p * (x % BASE);
    assert p * (BASE * (x / BASE)) == (BASE * p) * (x / BASE);
  }

  lemma Distribute(p: int, a: int, b: int, c: int)
    ensures p * (a + b + c) == p * a + p * b + p * c
  {
  }

  lemma Associate(a: int, b: int, c: int)
    ensures (a * b) * c == a * (b * c)
  {
  }

  lemma PStep(n: nat)
    ensures P(n + 1) == BASE * P(n)
  {
  }

  lemma LowNone(l: seq<u32>)
    ensures Low(l, 0) == 0
  {
  }

  lemma LowStep(l: seq<u32>, n: nat)
    ensures Low(l, n + 1) == Low(l, n) + P(n) * Limb(l, n)
  {
  }

  lemma DivBelow(x: nat, f: nat)
    requires x < BASE * f
    ensures x / BASE < f
  {
  }

  /** A limb times a small factor plus a carry below the factor. */
  lemma ProductBound(a: nat, f: nat, c: nat)
    requires a < BASE && c < f
    ensures 0 <= a * f && a * f + c < BASE * f && (a * f + c) / BASE < f
  {
    MulMono(a + 1, f, BASE, f);
    assert (a + 1) * f == a * f + f;
    DivBelow(a * f + c, f);
  }

  // ----- Parts of a number -----

  lemma {:induction false} LowAgree(a: seq<u32>, b: seq<u32>, n: nat)
    requires forall i :: 0 <= i < n ==> Limb(a, i) == Limb(b, i)
    ensures Low(a, n) == Low(b, n)
  {
    if n > 0 {
      LowAgree(a, b, n - 1);
    }
  }

  /** Limbs beyond the end add nothing. */
  lemma {:induction false} LowBeyond(l: seq<u32>, n: nat)
    requires |l| <= n
    ensures Low(l, n) == Val(l)
    decreases n
  {
    if n > |l| {
      LowBeyond(l, n - 1);
    }
  }

  lemma {:induction false} LowHigh(l: seq<u32>, i: nat)
    requires i <= |l|
    ensures Val(l) == Low(l, i) + P(i) * High(l, i)
    decreases |l| - i
  {
    if i < |l| {
      LowHigh(l, i + 1);
      var h := High(l, i + 1);
      assert P(i) * (l[i] as nat + BASE * h) == P(i) * l[i] as nat + P(i) * (BASE * h);
      assert P(i) * (BASE * h) == (BASE * P(i)) * h;
    }
  }

  lemma HighIsVal(l: seq<u32>)
    ensures High(l, 0) == Val(l)
  {
    LowHigh(l, 0);
  }

  lemma {:induction false} LowBound(l: seq<u32>, n: nat)
    requires Digits(l)
    ensures Low(l, n) < P(n)
  {
    if n > 0 {
      LowBound(l, n - 1);
      var d := Limb(l, n - 1);
      MulMono(P(n - 1), d, P(n - 1), BASE - 1);
      assert P(n - 1) * (BASE - 1) + P(n - 1) == BASE * P(n - 1);
    }
  }

  lemma {:induction false} PMono(m: nat, n: nat)
    requires m <= n
    ensures P(m) <= P(n)
    decreases n
  {
    if m < n {
      PMono(m, n - 1);
    }
  }

  /** No leading zero limb. */
  ghost predicate Trimmed(l: seq<u32>) {
    Digits(l) && (l != [] ==> l[|l| - 1] != 0)
  }

  lemma TrimmedBound(l: seq<u32>)
    requires Trimmed(l) && l != []
    ensures P(|l| - 1) <= Val(l) < P(|l|)
  {
    LowBound(l, |l|);
    MulMono(P(|l| - 1), 1, P(|l| - 1), l[|l| - 1] as nat);
  }

  lemma ShorterIsSmaller(a: seq<u32>, b: seq<u32>)
    requires Trimmed(a) && Trimmed(b) && |a| < |b|
    ensures Val(a) < Val(b)
  {
    LowBound(a, |a|);
    PMono(|a|, |b| - 1);
    TrimmedBound(b);
  }

  /** The highest differing limb decides. */
  lemma HighDecides(a: seq<u32>, b: seq<u32>, i: nat)
    requires Digits(a) && Digits(b) && i <= |a| && i <= |b|
    requires High(a, i) < High(b, i)
    ensures Val(a) < Val(b)
  {
    LowHigh(a, i);
    LowHigh(b, i);
    LowBound(a, i);
    MulMono(P(i), High(a, i) + 1, P(i), High(b, i));
    assert P(i) * (High(a, i) + 1) == P(i) * High(a, i) + P(i);
  }

  lemma {:induction false} HighAgree(a: seq<u32>, b: seq<u32>, i: nat)
    requires |a| == |b| && i <= |a| && forall k :: i <= k < |a| ==> a[k] == b[k]
    ensures High(a, i) == High(b, i)
    decreases |a| - i
  {
    if i < |a| {
      HighAgree(a, b, i + 1);
    }
  }

  /** Numbers have one trimmed representation. */
  lemma {:induction false} Unique(a: seq<u32>, b: seq<u32>)
    requires Trimmed(a) && Trimmed(b) && Val(a) == Val(b)
    ensures a == b
  {
    if |a| < |b| {
      ShorterIsSmaller(a, b);
    } else if |b| < |a| {
      ShorterIsSmaller(b, a);
    } else if a != b {
      var i := HighestDifference(a, b, |a|);
      HighAgree(a, b, i + 1);
      if a[i] < b[i] {
        HighDecides(a, b, i);
      } else {
        HighDecides(b, a, i);
      }
    }
  }

  lemma {:induction false} HighestDifference(a: seq<u32>, b: seq<u32>, n: nat) returns (i: nat)
    requires |a| == |b| && n <= |a| && exists k :: 0 <= k < n && a[k] != b[k]
    requires forall k :: n <= k < |a| ==> a[k] == b[k]
    ensures i < |a| && a[i] != b[i] && forall k :: i < k < |a| ==> a[k] == b[k]
  {
    i := n - 1;
    if a[i] == b[i] {
      i := HighestDifference(a, b, n - 1);
    }
  }

  /** Dropping a leading zero limb changes nothing. */
  lemma DropZero(l: seq<u32>)
    requires l != [] && l[|l| - 1] == 0
    ensures Val(l[..|l| - 1]) == Val(l)
  {
    LowAgree(l, l[..|l| - 1], |l| - 1);
  }

  lemma ValPush(l: seq<u32>, x: u32)
    ensures Val(l + [x]) == Val(l) + P(|l|) * x as nat
  {
    LowAgree(l + [x], l, |l|);
  }

  lemma {:induction false} ValZeros(l: seq<u32>, n: nat)
    requires forall i :: 0 <= i < |l| ==> l[i] == 0
    ensures Low(l, n) == 0
  {
    if n > 0 {
      ValZeros(l, n - 1);
    }
  }

  /** Shifting by one limb. */
  lemma {:induction false} ValShift(l: seq<u32>, x: u32, n: nat)
    requires n <= |l|
    ensures Low([x] + l, n + 1) == x as nat + BASE * Low(l, n)
  {
    if n == 0 {
      assert Low([x] + l, 0) == 0 && P(0) == 1;
    } else {
      ValShift(l, x, n - 1);
      assert Limb([x] + l, n) == Limb(l, n - 1);
      assert BASE * (P(n - 1) * Limb(l, n - 1)) == P(n) * Limb(l, n - 1);
    }
  }

  lemma {:induction false} PAdd(m: nat, n: nat)
    ensures P(m + n) == P(m) * P(n)
  {
    if n > 0 {
      PAdd(m, n - 1);
      assert BASE * (P(m) * P(n - 1)) == P(m) * (BASE * P(n - 1));
    }
  }

  /** Replacing one limb. */
  lemma {:induction false} LowUpdate(l: seq<u32>, k: nat, d: u32, n: nat)
    requires k < |l| && k < n
    ensures Low(l[k := d], n) + P(k) * l[k] as nat == Low(l, n) + P(k) * d as nat
  {
    if k == n - 1 {
      LowAgree(l[k := d], l, k);
    } else {
      LowUpdate(l, k, d, n - 1);
    }
  }
}
