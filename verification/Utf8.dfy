/** UTF-8 as in sections 3 and 4 of RFC 3629: encoding of Unicode scalar values, the validator,
    and the facts that make byte-level text operations agree with scalar-level ones. */
module Utf8 {

  type byte = x: int | 0 <= x < 256
  type Scalar = x: int | 0 <= x < 0xD800 || 0xE000 <= x <= 0x10FFFF

  // ----- Specification -----

  function EncodeOne(s: Scalar): (b: seq<byte>)
    ensures 1 <= |b| <= 4
  {
    if s < 0x80 then [s]
    else if s < 0x800 then [0xC0 + s / 64, 0x80 + s % 64]
    else if s < 0x10000 then [0xE0 + s / 64 / 64, 0x80 + s / 64 % 64, 0x80 + s % 64]
    else [0xF0 + s / 64 / 64 / 64, 0x80 + s / 64 / 64 % 64, 0x80 + s / 64 % 64, 0x80 + s % 64]
  }

  function Encode(t: seq<Scalar>): seq<byte> {
    if t == [] then [] else EncodeOne(t[0]) + Encode(t[1..])
  }

  /** The byte strings that encode some sequence of scalar values. */
  ghost predicate WellFormed(b: seq<byte>) {
    exists t: seq<Scalar> :: Encode(t) == b
  }

  // ----- One character -----

  /** The masks of the source, on the arithmetic forms used here. */
  lemma Masks(c: bv8)
    ensures (c & 0xE0 == 0xC0) <==> c / 32 == 6
    ensures (c & 0xF0 == 0xE0) <==> c / 16 == 14
    ensures (c & 0xF8 == 0xF0) <==> c / 8 == 30
    ensures (c & 0xC0 == 0x80) <==> c / 64 == 2
    ensures c & 0x1F == c % 32 && c & 0x0F == c % 16 && c & 7 == c % 8 && c & 0x3F == c % 64
  {
  }

  predicate Continuation(c: byte) {
    c / 64 == 2
  }

  /** The length announced by a first byte, zero for a byte that cannot be first. */
  function Width(c: byte): nat {
    if c < 0x80 then 1 else if c / 32 == 6 then 2 else if c / 16 == 14 then 3 else if c / 8 == 30 then 4 else 0
  }

  function LeadBits(c: byte): nat {
    if c < 0x80 then c else if c / 32 == 6 then c % 32 else if c / 16 == 14 then c % 16 else c % 8
  }

  function LeastOfWidth(w: nat): nat {
    if w <= 1 then 0 else if w == 2 then 0x80 else if w == 3 then 0x800 else 0x10000
  }

  /** The number carried by a first byte and `k` further ones. */
  function Combined(r: seq<byte>, k: nat): nat
    requires k < |r|
  {
    if k == 0 then LeadBits(r[0]) else 64 * Combined(r, k - 1) + r[k] % 64
  }

  predicate IsScalar(c: int) {
    0 <= c < 0xD800 || 0xE000 <= c <= 0x10FFFF
  }

  /** What the validator has found in `r` when it accepts a character. */
  predicate Accepted(r: seq<byte>) {
    && r != [] && 0 < Width(r[0]) <= |r|
    && (forall k :: 1 <= k < Width(r[0]) ==> Continuation(r[k]))
    && LeastOfWidth(Width(r[0])) <= Combined(r, Width(r[0]) - 1)
    && IsScalar(Combined(r, Width(r[0]) - 1))
  }

  lemma LeadByte(w: nat, x: nat)
    requires 2 <= w <= 4 && x < (if w == 2 then 32 else if w == 3 then 16 else 8)
    ensures var c := (if w == 2 then 0xC0 else if w == 3 then 0xE0 else 0xF0) + x;
            c < 256 && Width(c) == w && LeadBits(c) == x
  {
  }

  lemma NextByte(x: nat)
    requires x < 64
    ensures Continuation(0x80 + x) && (0x80 + x) % 64 == x
  {
  }

  /** A string that starts with an encoded character is accepted, as that character. */
  lemma Reads(s: Scalar, r: seq<byte>)
    requires EncodeOne(s) <= r
    ensures Accepted(r) && Width(r[0]) == |EncodeOne(s)| && Combined(r, Width(r[0]) - 1) == s
  {
    var e := EncodeOne(s);
    FirstBytes(e, r);
    if 0x80 <= s < 0x800 {
      ReadsTwo(s, r, s / 64, s % 64);
    } else if 0x800 <= s < 0x10000 {
      ReadsThree(s, r, s / 64 / 64, s / 64 % 64, s % 64);
    } else if 0x10000 <= s {
      ReadsFour(s, r, s / 64 / 64 / 64, s / 64 / 64 % 64, s / 64 % 64, s % 64);
    }
  }

  lemma ReadsTwo(s: Scalar, r: seq<byte>, a: nat, b: nat)
    requires 0x80 <= s < 0x800 && s == 64 * a + b && b < 64
    requires |r| >= 2 && r[0] == 0xC0 + a && r[1] == 0x80 + b
    ensures Accepted(r) && Width(r[0]) == 2 && Combined(r, 1) == s
  {
    LeadByte(2, a);
    NextByte(b);
    hide Width, LeadBits, Continuation, Accepted;
    assert Combined(r, 0) == a;
    IsAccepted(r, 2, s);
  }

  lemma ReadsThree(s: Scalar, r: seq<byte>, a: nat, b: nat, c: nat)
    requires 0x800 <= s < 0x10000 && s == 64 * (64 * a + b) + c && b < 64 && c < 64
    requires |r| >= 3 && r[0] == 0xE0 + a && r[1] == 0x80 + b && r[2] == 0x80 + c
    ensures Accepted(r) && Width(r[0]) == 3 && Combined(r, 2) == s
  {
    LeadByte(3, a);
    NextByte(b);
    NextByte(c);
    hide Width, LeadBits, Continuation, Accepted;
    assert Combined(r, 0) == a;
    assert Combined(r, 1) == 64 * a + b;
    IsAccepted(r, 3, s);
  }

  lemma ReadsFour(s: Scalar, r: seq<byte>, a: nat, b: nat, c: nat, d: nat)
    requires 0x10000 <= s && s == 64 * (64 * (64 * a + b) + c) + d && b < 64 && c < 64 && d < 64
    requires |r| >= 4 && r[0] == 0xF0 + a && r[1] == 0x80 + b && r[2] == 0x80 + c && r[3] == 0x80 + d
    ensures Accepted(r) && Width(r[0]) == 4 && Combined(r, 3) == s
  {
    LeadByte(4, a);
    NextByte(b);
    NextByte(c);
    NextByte(d);
    hide Width, LeadBits, Continuation, Accepted;
    assert Combined(r, 0) == a;
    assert Combined(r, 1) == 64 * a + b;
    assert Combined(r, 2) == 64 * (64 * a + b) + c;
    IsAccepted(r, 4, s);
  }

  lemma IsAccepted(r: seq<byte>, w: nat, s: Scalar)
    requires 2 <= w <= 4 && w <= |r| && Width(r[0]) == w && Continuation(r[1])
    requires (w >= 3 ==> Continuation(r[2])) && (w >= 4 ==> Continuation(r[3]))
    requires Combined(r, w - 1) == s && LeastOfWidth(w) <= s
    ensures Accepted(r)
  {
    hide Width, Continuation;
  }

  lemma FirstBytes(e: seq<byte>, r: seq<byte>)
    requires e <= r
    ensures forall k :: 0 <= k < |e| ==> r[k] == e[k]
  {
  }

  /** An accepted string starts with the encoding of the character read from it. */
  lemma Writes(r: seq<byte>)
    requires Accepted(r)
    ensures EncodeOne(Combined(r, Width(r[0]) - 1)) == r[..Width(r[0])]
  {
    var w := Width(r[0]);
    if w == 1 {
      assert Combined(r, 0) == r[0];
    } else {
      assert Continuation(r[1]);
      assert w >= 3 ==> Continuation(r[2]);
      assert w >= 4 ==> Continuation(r[3]);
      WriteDigits(r, w);
    }
  }

  lemma WriteDigits(r: seq<byte>, w: nat)
    requires 2 <= w <= 4 && w <= |r| && Width(r[0]) == w && Accepted(r)
    requires Continuation(r[1]) && (w >= 3 ==> Continuation(r[2])) && (w >= 4 ==> Continuation(r[3]))
    ensures EncodeOne(Combined(r, w - 1)) == r[..w]
  {
    LeadAgain(r[0]);
    CombinedBounds(r, w);
    hide Width, LeadBits, Accepted, Continuation, EncodeOne;
    var a := Combined(r, 0);
    NextAgain(r[1]);
    assert a == LeadBits(r[0]);
    if w == 2 {
      EncodedTwo(Combined(r, 1), a, r[1] % 64);
    } else if w == 3 {
      NextAgain(r[2]);
      assert Combined(r, 1) == 64 * a + r[1] % 64;
      EncodedThree(Combined(r, 2), a, r[1] % 64, r[2] % 64);
    } else {
      NextAgain(r[2]);
      NextAgain(r[3]);
      assert Combined(r, 1) == 64 * a + r[1] % 64;
      assert Combined(r, 2) == 64 * (64 * a + r[1] % 64) + r[2] % 64;
      EncodedFour(Combined(r, 3), a, r[1] % 64, r[2] % 64, r[3] % 64);
    }
  }

  lemma EncodedTwo(s: Scalar, a: nat, b: nat)
    requires 0x80 <= s < 0x800 && s == 64 * a + b && b < 64
    ensures EncodeOne(s) == [0xC0 + a, 0x80 + b]
  {
    Digit(a, b);
  }

  lemma EncodedThree(s: Scalar, a: nat, b: nat, c: nat)
    requires 0x800 <= s < 0x10000 && s == 64 * (64 * a + b) + c && b < 64 && c < 64
    ensures EncodeOne(s) == [0xE0 + a, 0x80 + b, 0x80 + c]
  {
    Digit(64 * a + b, c);
    Digit(a, b);
  }

  lemma EncodedFour(s: Scalar, a: nat, b: nat, c: nat, d: nat)
    requires 0x10000 <= s && s == 64 * (64 * (64 * a + b) + c) + d && b < 64 && c < 64 && d < 64
    ensures EncodeOne(s) == [0xF0 + a, 0x80 + b, 0x80 + c, 0x80 + d]
  {
    Digit(64 * (64 * a + b) + c, d);
    Digit(64 * a + b, c);
    Digit(a, b);
  }

  lemma Digit(m: nat, d: nat)
    requires d < 64
    ensures (64 * m + d) / 64 == m && (64 * m + d) % 64 == d
  {
  }

  lemma NextAgain(c: byte)
    requires Continuation(c)
    ensures 0x80 + c % 64 == c
  {
  }

  lemma LeadAgain(c: byte)
    requires Width(c) >= 2
    ensures c == (if Width(c) == 2 then 0xC0 else if Width(c) == 3 then 0xE0 else 0xF0) + LeadBits(c)
    ensures LeadBits(c) < (if Width(c) == 2 then 32 else if Width(c) == 3 then 16 else 8)
  {
  }

  lemma CombinedBounds(r: seq<byte>, w: nat)
    requires 2 <= w <= 4 && w <= |r| && Width(r[0]) == w && Accepted(r)
    ensures Combined(r, w - 1) >= LeastOfWidth(w) && IsScalar(Combined(r, w - 1))
    ensures w == 2 ==> Combined(r, 1) < 0x800
    ensures w == 3 ==> Combined(r, 2) < 0x10000
  {
    LeadAgain(r[0]);
    hide Width, LeadBits;
    assert Combined(r, 0) == LeadBits(r[0]);
    assert Combined(r, 1) == 64 * Combined(r, 0) + r[1] % 64;
    assert w >= 3 ==> Combined(r, 2) == 64 * Combined(r, 1) + r[2] % 64;
  }

  /** No encoding is a prefix of another one. */
  lemma PrefixFree(s: Scalar, s': Scalar, r: seq<byte>)
    requires EncodeOne(s) <= r && EncodeOne(s') <= r
    ensures s == s'
  {
    Reads(s, r);
    Reads(s', r);
  }

  // ----- Strings -----

  lemma {:induction false} EncodeAppend(t: seq<Scalar>, u: seq<Scalar>)
    ensures Encode(t + u) == Encode(t) + Encode(u)
  {
    if t == [] {
      assert t + u == u;
    } else {
      assert (t + u)[0] == t[0] && (t + u)[1..] == t[1..] + u;
      EncodeAppend(t[1..], u);
    }
  }

  lemma EncodeSingle(s: Scalar)
    ensures Encode([s]) == EncodeOne(s)
  {
    assert Encode([s][1..]) == [];
  }

  lemma EncodeSplit(t: seq<Scalar>, k: nat)
    requires k <= |t|
    ensures Encode(t) == Encode(t[..k]) + Encode(t[k..])
  {
    assert t == t[..k] + t[k..];
    EncodeAppend(t[..k], t[k..]);
  }

  lemma EncodeNext(t: seq<Scalar>, k: nat)
    requires k < |t|
    ensures Encode(t[..k + 1]) == Encode(t[..k]) + EncodeOne(t[k])
  {
    hide EncodeOne;
    assert t[..k + 1] == t[..k] + [t[k]];
    EncodeAppend(t[..k], [t[k]]);
    EncodeSingle(t[k]);
  }

  /** A byte-level prefix is a scalar-level prefix: text comparison needs no decoding. */
  lemma {:induction false} PrefixOfBytes(u: seq<Scalar>, t: seq<Scalar>)
    ensures Encode(u) <= Encode(t) <==> u <= t
  {
    if u <= t {
      EncodeSplit(t, |u|);
      assert t[..|u|] == u;
    } else if Encode(u) <= Encode(t) {
      assert u != [];
      assert EncodeOne(u[0]) <= Encode(u);
      if t != [] {
        hide Encode;
        HeadsAgree(u, t);
        PrefixOfBytes(u[1..], t[1..]);
        TailsAgree(u, t);
      }
    }
  }

  lemma TailsAgree(u: seq<Scalar>, t: seq<Scalar>)
    requires u != [] && t != [] && u[0] == t[0] && u[1..] <= t[1..]
    ensures u <= t
  {
    assert u == [u[0]] + u[1..] && t == [t[0]] + t[1..];
  }

  lemma HeadsAgree(u: seq<Scalar>, t: seq<Scalar>)
    requires u != [] && t != [] && Encode(u) <= Encode(t)
    ensures u[0] == t[0] && Encode(u[1..]) <= Encode(t[1..])
  {
    PrefixFree(u[0], t[0], Encode(t));
    var n := |EncodeOne(u[0])|;
    assert Encode(u[1..]) == Encode(u)[n..] && Encode(t[1..]) == Encode(t)[n..];
  }

  /** Equal bytes are equal texts. */
  lemma EncodeInjective(t: seq<Scalar>, u: seq<Scalar>)
    requires Encode(t) == Encode(u)
    ensures t == u
  {
    PrefixOfBytes(t, u);
    PrefixOfBytes(u, t);
  }

  // ----- Validation -----

  /** Removing an accepted character decides nothing. */
  lemma AcceptedStep(r: seq<byte>)
    requires Accepted(r)
    ensures WellFormed(r) <==> WellFormed(r[Width(r[0])..])
  {
    var w := Width(r[0]);
    var s: Scalar := Combined(r, w - 1);
    Writes(r);
    if WellFormed(r) {
      var t :| Encode(t) == r;
      assert EncodeOne(t[0]) <= r && EncodeOne(s) <= r;
      PrefixFree(t[0], s, r);
      assert Encode(t[1..]) == r[w..];
    }
    if WellFormed(r[w..]) {
      var t :| Encode(t) == r[w..];
      EncodeAppend([s], t);
      EncodeSingle(s);
      assert Encode([s] + t) == r;
    }
  }

  /** A string whose first character is not accepted is not well formed. */
  lemma RejectedStep(r: seq<byte>)
    requires r != [] && !Accepted(r)
    ensures !WellFormed(r)
  {
    if WellFormed(r) {
      var t :| Encode(t) == r;
      assert EncodeOne(t[0]) <= r;
      Reads(t[0], r);
    }
  }

  lemma EmptyWellFormed()
    ensures WellFormed([])
  {
    assert Encode([]) == [];
  }

  /** The rest of a character whose first byte announces `need` more. */
  method ReadRest(r: seq<byte>, need: nat, lead: nat) returns (ok: bool, c: nat)
    requires need < |r| && lead == LeadBits(r[0])
    ensures ok <==> forall j :: 1 <= j <= need ==> Continuation(r[j])
    ensures ok ==> c == Combined(r, need)
  {
    hide Continuation, LeadBits;
    c := lead;
    var k := 0;
    while k < need
      invariant 0 <= k <= need && c == Combined(r, k)
      invariant forall j :: 1 <= j <= k ==> Continuation(r[j])
    {
      if !Continuation(r[k + 1]) {
        return false, c;
      }
      c := 64 * c + r[k + 1] % 64;
      k := k + 1;
    }
    ok := true;
  }

  lemma AcceptedIs(r: seq<byte>)
    requires r != []
    ensures var w := Width(r[0]);
            Accepted(r) <==> && 0 < w <= |r| && (forall j :: 1 <= j <= w - 1 ==> Continuation(r[j]))
                             && LeastOfWidth(w) <= Combined(r, w - 1) && IsScalar(Combined(r, w - 1))
  {
    hide Width, Continuation, Combined, IsScalar, LeastOfWidth;
  }

  /** `utf8` accepts exactly the encodings of sequences of Unicode scalar values. */
  method Validate(s: seq<byte>) returns (ok: bool)
    ensures ok <==> WellFormed(s)
  {
    hide WellFormed, Encode, Combined, Accepted, Continuation;
    var i := 0;
    assert s[0..] == s;
    while i < |s|
      invariant 0 <= i <= |s|
      invariant WellFormed(s) <==> WellFormed(s[i..])
    {
      var r := s[i..];
      AcceptedIs(r);
      var c: nat := r[0];
      var need, min := 0, 0;
      if c < 0x80 {
      } else if c / 32 == 6 {
        need, c, min := 1, c % 32, 0x80;
      } else if c / 16 == 14 {
        need, c, min := 2, c % 16, 0x800;
      } else if c / 8 == 30 {
        need, c, min := 3, c % 8, 0x10000;
      } else {
        RejectedStep(r);
        return false;
      }
      assert need == Width(r[0]) - 1 && c == LeadBits(r[0]) && min == LeastOfWidth(need + 1);
      hide Width, LeadBits, LeastOfWidth;
      if need > |s| - (i + 1) {
        RejectedStep(r);
        return false;
      }
      ok, c := ReadRest(r, need, c);
      if !ok || c < min || c > 0x10FFFF || 0xD800 <= c <= 0xDFFF {
        RejectedStep(r);
        return false;
      }
      AcceptedStep(r);
      assert r[need + 1..] == s[i + need + 1..];
      i := i + need + 1;
    }
    EmptyWellFormed();
    assert s[i..] == [];
    ok := true;
  }

  // ----- Order -----

  /** Lexicographic comparison, -1, 0 or 1. */
  function Lexical(a: seq<int>, b: seq<int>): int {
    if a == [] then (if b == [] then 0 else -1)
    else if b == [] then 1
    else if a[0] != b[0] then (if a[0] < b[0] then -1 else 1)
    else Lexical(a[1..], b[1..])
  }

  /** The first difference decides. */
  lemma {:induction false} FirstDifference(a: seq<int>, b: seq<int>, k: nat)
    requires k < |a| && k < |b| && a[..k] == b[..k] && a[k] != b[k]
    ensures Lexical(a, b) == if a[k] < b[k] then -1 else 1
  {
    if k > 0 {
      assert a[0] == a[..k][0] && b[0] == b[..k][0];
      assert a[1..][..k - 1] == a[..k][1..] && b[1..][..k - 1] == b[..k][1..];
      FirstDifference(a[1..], b[1..], k - 1);
    }
  }

  lemma {:induction false} NoDifference(a: seq<int>, b: seq<int>)
    requires |a| <= |b| && b[..|a|] == a
    ensures Lexical(a, b) == if |a| == |b| then 0 else -1
    ensures Lexical(b, a) == if |a| == |b| then 0 else 1
  {
    if a != [] {
      assert b[0] == b[..|a|][0];
      assert b[1..][..|a| - 1] == b[..|a|][1..] == a[1..];
      NoDifference(a[1..], b[1..]);
    }
  }

  lemma {:induction false} CommonPrefix(p: seq<int>, a: seq<int>, b: seq<int>)
    ensures Lexical(p + a, p + b) == Lexical(a, b)
  {
    if p == [] {
      assert p + a == a && p + b == b;
    } else {
      assert (p + a)[1..] == p[1..] + a && (p + b)[1..] == p[1..] + b;
      CommonPrefix(p[1..], a, b);
    }
  }

  lemma DigitOrder(a: nat, b: nat)
    requires a < b
    ensures a / 64 < b / 64 || (a / 64 == b / 64 && a % 64 < b % 64)
  {
  }

  /** Where the encodings of two characters first differ, the smaller one has the smaller byte. */
  lemma SmallerFirst(s: Scalar, s': Scalar) returns (k: nat)
    requires s < s'
    ensures k < |EncodeOne(s)| && k < |EncodeOne(s')|
    ensures EncodeOne(s)[..k] == EncodeOne(s')[..k] && EncodeOne(s)[k] < EncodeOne(s')[k]
  {
    k := 0;
    if |EncodeOne(s)| < |EncodeOne(s')| {
      LongerIsGreater(s, s');
    } else if s >= 0x80 {
      k := SmallerDigit(s, s', |EncodeOne(s)|);
      SameBytes(s, s', k);
    }
  }

  /** The first base-64 digit, from the top of `w`, in which two numbers differ. */
  lemma SmallerDigit(s: nat, s': nat, w: nat) returns (k: nat)
    requires 2 <= w <= 4 && s < s'
    ensures k < w
    ensures k == w - 1 ==> s / 64 == s' / 64 && s % 64 < s' % 64
    ensures k == w - 2 ==> (k > 0 ==> s / 64 / 64 == s' / 64 / 64 && s / 64 % 64 < s' / 64 % 64) && s / 64 < s' / 64
    ensures k == w - 3 ==> (k > 0 ==> s / 64 / 64 / 64 == s' / 64 / 64 / 64 && s / 64 / 64 % 64 < s' / 64 / 64 % 64)
                           && s / 64 / 64 < s' / 64 / 64
    ensures k == w - 4 ==> s / 64 / 64 / 64 < s' / 64 / 64 / 64
  {
    DigitOrder(s, s');
    k := w - 1;
    if s / 64 < s' / 64 {
      DigitOrder(s / 64, s' / 64);
      k := w - 2;
      if s / 64 / 64 < s' / 64 / 64 && k > 0 {
        DigitOrder(s / 64 / 64, s' / 64 / 64);
        k := w - 3;
        if s / 64 / 64 / 64 < s' / 64 / 64 / 64 && k > 0 {
          k := w - 4;
        }
      }
    }
  }

  lemma LongerIsGreater(s: Scalar, s': Scalar)
    requires |EncodeOne(s)| < |EncodeOne(s')|
    ensures EncodeOne(s)[0] < EncodeOne(s')[0]
  {
    assert s < 0x800 ==> s / 64 < 32;
    assert s < 0x10000 ==> s / 64 / 64 < 16;
  }

  lemma SameBytes(s: Scalar, s': Scalar, k: nat)
    requires |EncodeOne(s)| == |EncodeOne(s')| > k && s >= 0x80 && s' >= 0x80
    requires k > 0 ==> (if |EncodeOne(s)| - k == 1 then s / 64 == s' / 64
                        else if |EncodeOne(s)| - k == 2 then s / 64 / 64 == s' / 64 / 64
                        else s / 64 / 64 / 64 == s' / 64 / 64 / 64)
    ensures EncodeOne(s)[..k] == EncodeOne(s')[..k]
  {
    var e, e' := EncodeOne(s), EncodeOne(s');
    assert k >= 1 ==> e[0] == e'[0];
    assert k >= 2 ==> e[1] == e'[1];
    assert k >= 3 ==> e[2] == e'[2];
    assert |e[..k]| == |e'[..k]| && forall i :: 0 <= i < k ==> e[i] == e'[i];
  }

  lemma SmallerCharacter(s: Scalar, s': Scalar, x: seq<byte>, y: seq<byte>)
    requires s < s'
    ensures Lexical(EncodeOne(s) + x, EncodeOne(s') + y) == -1
    ensures Lexical(EncodeOne(s') + y, EncodeOne(s) + x) == 1
  {
    var k := SmallerFirst(s, s');
    var a, b := EncodeOne(s) + x, EncodeOne(s') + y;
    assert a[..k] == EncodeOne(s)[..k] && b[..k] == EncodeOne(s')[..k];
    FirstDifference(a, b, k);
    FirstDifference(b, a, k);
  }

  /** Byte order of encodings is scalar order (section 1 of RFC 3629). */
  lemma {:induction false} ByteOrder(t: seq<Scalar>, u: seq<Scalar>)
    ensures Lexical(Encode(t), Encode(u)) == Lexical(t, u)
  {
    if t != [] && u != [] {
      if t[0] < u[0] {
        SmallerCharacter(t[0], u[0], Encode(t[1..]), Encode(u[1..]));
      } else if u[0] < t[0] {
        SmallerCharacter(u[0], t[0], Encode(u[1..]), Encode(t[1..]));
      } else {
        CommonPrefix(EncodeOne(t[0]), Encode(t[1..]), Encode(u[1..]));
        ByteOrder(t[1..], u[1..]);
      }
    }
  }
}
