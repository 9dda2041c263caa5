/** Text values: UTF-8 bytes with a cached character count and an ASCII flag, and the operations
    on them, against sequences of scalar values. */
module Text {
  import opened Utf8

  const SIZE_LIMIT: nat := 0x1_0000_0000_0000_0000

  datatype Option<T> = None | Some(value: T)

  datatype Str = Str(data: seq<byte>, characters: nat, ascii: bool)

  ghost predicate AllAscii(t: seq<Scalar>) {
    forall i :: 0 <= i < |t| ==> t[i] < 0x80
  }

  /** The value holds the text `t`. */
  ghost predicate Holds(v: Str, t: seq<Scalar>) {
    Encode(t) == v.data && |v.data| < SIZE_LIMIT && v.characters == |t| && (v.ascii <==> AllAscii(t))
  }

  // ----- Cached count and ASCII flag -----

  /** The bytes that start a character. */
  ghost function Starts(b: seq<byte>): nat {
    if b == [] then 0 else Starts(b[..|b| - 1]) + if Continuation(b[|b| - 1]) then 0 else 1
  }

  ghost predicate BytesAscii(b: seq<byte>) {
    forall i :: 0 <= i < |b| ==> b[i] < 0x80
  }

  lemma {:induction false} StartsAppend(a: seq<byte>, b: seq<byte>)
    ensures Starts(a + b) == Starts(a) + Starts(b)
  {
    if b == [] {
      assert a + b == a;
    } else {
      assert (a + b)[..|a + b| - 1] == a + b[..|b| - 1];
      StartsAppend(a, b[..|b| - 1]);
    }
  }

  /** Every character has one first byte, and is ASCII exactly when it has no other. */
  lemma OneStart(s: Scalar)
    ensures Starts(EncodeOne(s)) == 1
    ensures BytesAscii(EncodeOne(s)) <==> s < 0x80
  {
    var e := EncodeOne(s);
    OneFirst(s);
    hide EncodeOne, Continuation;
    assert Starts([]) == 0;
    assert e[..1] == [e[0]];
    assert e[..1][..0] == [];
    assert Starts(e[..1]) == 1;
    var k := 1;
    while k < |e|
      invariant 1 <= k <= |e| && Starts(e[..k]) == 1
    {
      assert e[..k + 1][..k] == e[..k];
      k := k + 1;
    }
    assert e[..k] == e;
    assert BytesAscii(e) ==> e[0] < 0x80;
  }

  lemma OneFirst(s: Scalar)
    ensures var e := EncodeOne(s);
            !Continuation(e[0]) && (forall k :: 1 <= k < |e| ==> Continuation(e[k])) && (e[0] < 0x80 <==> s < 0x80)
            && (s < 0x80 ==> |e| == 1)
  {
    Reads(s, EncodeOne(s));
  }

  /** The cached count is the number of characters, the flag says that all are ASCII. */
  lemma {:induction false} CachedCounts(t: seq<Scalar>)
    ensures Starts(Encode(t)) == |t|
    ensures BytesAscii(Encode(t)) <==> AllAscii(t)
  {
    if t != [] {
      CachedCounts(t[1..]);
      OneStart(t[0]);
      StartsAppend(EncodeOne(t[0]), Encode(t[1..]));
      AsciiParts(EncodeOne(t[0]), Encode(t[1..]));
      assert AllAscii(t) <==> t[0] < 0x80 && AllAscii(t[1..]) by {
        assert t == [t[0]] + t[1..];
      }
    }
  }

  lemma AsciiParts(a: seq<byte>, b: seq<byte>)
    ensures BytesAscii(a + b) <==> BytesAscii(a) && BytesAscii(b)
  {
    if BytesAscii(a + b) {
      assert forall i :: 0 <= i < |a| ==> a[i] == (a + b)[i];
      assert forall i :: 0 <= i < |b| ==> b[i] == (a + b)[|a| + i];
    }
  }

  /** `value_data` for text. */
  method MakeText(data: seq<byte>) returns (v: Str)
    requires |data| < SIZE_LIMIT
    ensures v.data == data
    ensures forall t: seq<Scalar> :: Encode(t) == data ==> Holds(v, t)
  {
    hide Encode, Starts, BytesAscii, Continuation;
    var characters, ascii := 0, true;
    NoCounts(data);
    var i := 0;
    while i < |data|
      invariant 0 <= i <= |data|
      invariant characters == Starts(data[..i]) && (ascii <==> BytesAscii(data[..i]))
    {
      CountsNext(data, i);
      if !Continuation(data[i]) {
        characters := characters + 1;
      }
      if data[i] >= 0x80 {
        ascii := false;
      }
      i := i + 1;
    }
    assert data[..i] == data;
    v := Str(data, characters, ascii);
    forall t: seq<Scalar> | Encode(t) == data
      ensures Holds(v, t)
    {
      CachedCounts(t);
    }
  }

  lemma NoCounts(data: seq<byte>)
    ensures Starts(data[..0]) == 0 && BytesAscii(data[..0])
  {
  }

  lemma CountsNext(data: seq<byte>, i: nat)
    requires i < |data|
    ensures Starts(data[..i + 1]) == Starts(data[..i]) + if Continuation(data[i]) then 0 else 1
    ensures BytesAscii(data[..i + 1]) <==> BytesAscii(data[..i]) && data[i] < 0x80
  {
    hide Continuation;
    assert data[..i + 1][..i] == data[..i];
    assert data[..i + 1] == data[..i] + [data[i]];
    AsciiParts(data[..i], [data[i]]);
  }

  // ----- Positions -----

  /** The byte offset of character `k`. */
  ghost function Offset(t: seq<Scalar>, k: nat): nat
    requires k <= |t|
  {
    |Encode(t[..k])|
  }

  lemma OffsetNext(t: seq<Scalar>, k: nat)
    requires k < |t|
    ensures Offset(t, k + 1) == Offset(t, k) + |EncodeOne(t[k])|
    ensures Offset(t, k + 1) <= |Encode(t)|
    ensures Encode(t)[Offset(t, k)..Offset(t, k + 1)] == EncodeOne(t[k])
  {
    hide EncodeOne;
    EncodeNext(t, k);
    EncodeSplit(t, k + 1);
    var a, b := Encode(t[..k]), EncodeOne(t[k]);
    assert Encode(t)[..|a| + |b|] == a + b;
    assert (a + b)[|a|..] == b;
  }

  lemma OffsetEnds(t: seq<Scalar>)
    ensures Offset(t, 0) == 0 && Offset(t, |t|) == |Encode(t)|
  {
    assert t[..|t|] == t;
    assert Encode(t[..0]) == [];
  }

  lemma {:induction false} OffsetOrder(t: seq<Scalar>, j: nat, k: nat)
    requires j <= k <= |t|
    ensures Offset(t, j) <= Offset(t, k) <= |Encode(t)|
    decreases k
  {
    if k > j {
      OffsetNext(t, k - 1);
      OffsetOrder(t, j, k - 1);
    } else {
      EncodeSplit(t, k);
    }
  }

  lemma {:induction false} OffsetAscii(t: seq<Scalar>, k: nat)
    requires k <= |t| && AllAscii(t)
    ensures Offset(t, k) == k
  {
    if k > 0 {
      OffsetAscii(t, k - 1);
      OffsetNext(t, k - 1);
    } else {
      OffsetEnds(t);
    }
  }

  /** The width read from the first byte of a character. */
  lemma WidthAt(t: seq<Scalar>, k: nat)
    requires k < |t|
    ensures Offset(t, k) < Offset(t, k + 1) <= |Encode(t)|
    ensures Offset(t, k + 1) == Offset(t, k) + Width(Encode(t)[Offset(t, k)])
    ensures Width(Encode(t)[Offset(t, k)]) > 0
  {
    OffsetNext(t, k);
    Reads(t[k], EncodeOne(t[k]));
  }

  /** `utf8_offset`: the bytes of character `index`, found without a scan in ASCII text. */
  method CharacterBytes(v: Str, index: nat, ghost t: seq<Scalar>) returns (found: bool, start: nat, end: nat)
    requires Holds(v, t)
    ensures found <==> index < |t|
    ensures found ==> start == Offset(t, index) && end == Offset(t, index + 1)
  {
    hide Encode, Offset, Width;
    found, start, end := false, 0, 0;
    if index >= v.characters {
      return;
    }
    if v.ascii {
      OffsetAscii(t, index);
      OffsetAscii(t, index + 1);
      return true, index, index + 1;
    }
    var i, cp := 0, 0;
    OffsetEnds(t);
    while i < |v.data|
      invariant cp <= index && i == Offset(t, cp)
    {
      var at := i;
      WidthAt(t, cp);
      var c := v.data[i];
      i := i + WidthOf(c);
      if cp == index {
        return true, at, i;
      }
      cp := cp + 1;
    }
    OffsetNotLast(t, cp);
    assert false;
  }

  /** The source's choice of a width for a byte that starts a character. */
  function WidthOf(c: byte): nat
    requires Width(c) > 0
    ensures WidthOf(c) == Width(c)
  {
    if c < 0x80 then 1 else if c / 32 == 6 then 2 else if c / 16 == 14 then 3 else 4
  }

  lemma OffsetNotLast(t: seq<Scalar>, k: nat)
    requires k < |t|
    ensures Offset(t, k) < |Encode(t)|
  {
    WidthAt(t, k);
  }

  // ----- Operations -----

  /** The bytes between two character offsets encode the characters between them. */
  lemma SliceBytes(t: seq<Scalar>, a: nat, b: nat)
    requires a <= b <= |t|
    ensures Offset(t, a) <= Offset(t, b) <= |Encode(t)|
    ensures Encode(t[a..b]) == Encode(t)[Offset(t, a)..Offset(t, b)]
  {
    OffsetOrder(t, a, b);
    EncodeSplit(t, b);
    EncodeSplit(t[..b], a);
    assert t[..b][..a] == t[..a] && t[..b][a..] == t[a..b];
    assert Encode(t)[..Offset(t, b)] == Encode(t[..b]);
  }

  /** `slice` traps on bad bounds and otherwise holds the characters from `start` to `end`. */
  method Slice(v: Str, start: nat, end: nat, ghost t: seq<Scalar>) returns (r: Option<Str>)
    requires Holds(v, t)
    ensures r.Some? <==> start <= end <= |t|
    ensures r.Some? ==> Holds(r.value, t[start..end])
  {
    hide Encode;
    CountFits(t);
    if start >= SIZE_LIMIT || end >= SIZE_LIMIT || start > end {
      return None;
    }
    var count := v.characters;
    if end > count {
      return None;
    }
    OffsetEnds(t);
    var found, bs, be, ignored;
    if start == count {
      bs := |v.data|;
    } else {
      found, bs, be := CharacterBytes(v, start, t);
    }
    if end == count {
      be := |v.data|;
    } else {
      found, be, ignored := CharacterBytes(v, end, t);
    }
    SliceBytes(t, start, end);
    var part := MakeText(v.data[bs..be]);
    r := Some(part);
  }

  lemma {:induction false} CountFits(t: seq<Scalar>)
    ensures |t| <= |Encode(t)|
  {
    if t != [] {
      CountFits(t[1..]);
    }
  }

  /** `starts_with_at`: whether the characters from `offset` on start with those of `p`. */
  method StartsWithAt(v: Str, p: Str, offset: nat, ghost t: seq<Scalar>, ghost u: seq<Scalar>) returns (r: bool)
    requires Holds(v, t) && Holds(p, u)
    ensures r <==> offset <= |t| && u <= t[offset..]
  {
    hide Encode;
    CountFits(t);
    if offset >= SIZE_LIMIT {
      return false;
    }
    var bs, be := 0, 0;
    OffsetEnds(t);
    if offset == v.characters {
      bs := |v.data|;
    } else {
      var found;
      found, bs, be := CharacterBytes(v, offset, t);
      if !found {
        return false;
      }
    }
    SliceBytes(t, offset, |t|);
    assert t[offset..|t|] == t[offset..];
    PrefixOfBytes(u, t[offset..]);
    assert v.data[bs..|v.data|] == v.data[bs..];
    r := |p.data| <= |v.data| - bs && v.data[bs..bs + |p.data|] == p.data;
  }

  /** The characters from the last to the first. */
  ghost function Backwards(t: seq<Scalar>): seq<Scalar> {
    seq(|t|, i requires 0 <= i < |t| => t[|t| - 1 - i])
  }

  lemma BackwardsNext(t: seq<Scalar>, s: Scalar)
    ensures Backwards(t + [s]) == [s] + Backwards(t)
  {
  }

  lemma ReverseStep(t: seq<Scalar>, k: nat)
    requires k < |t|
    ensures Encode(Backwards(t[..k + 1])) == EncodeOne(t[k]) + Encode(Backwards(t[..k]))
  {
    assert t[..k + 1] == t[..k] + [t[k]];
    BackwardsNext(t[..k], t[k]);
    EncodeAppend([t[k]], Backwards(t[..k]));
    EncodeSingle(t[k]);
  }

  /** `reverse` fills a buffer from its end, character by character. */
  method Reverse(v: Str, ghost t: seq<Scalar>) returns (r: Str)
    requires Holds(v, t)
    ensures Holds(r, Backwards(t))
  {
    hide Encode, Backwards, EncodeOne;
    var n := |v.data|;
    var data := new byte[n];
    var source, destination := 0, n;
    ghost var k := 0;
    OffsetEnds(t);
    NothingBackwards(t);
    while source < n
      invariant k <= |t| && source == Offset(t, k) && destination == n - source >= 0
      invariant data[destination..] == Encode(Backwards(t[..k]))
    {
      LaterOffset(t, k);
      WidthAt(t, k);
      OffsetNext(t, k);
      ReverseStep(t, k);
      var width := WidthOf(v.data[source]);
      destination := destination - width;
      ghost var tail := data[destination + width..];
      CopyBytes(data, destination, v.data, source, width);
      assert data[destination..] == v.data[source..source + width] + tail;
      source := source + width;
      k := k + 1;
    }
    AllBackwards(t, k);
    r := MakeText(data[..]);
    assert data[..] == data[destination..];
  }

  lemma NothingBackwards(t: seq<Scalar>)
    ensures Encode(Backwards(t[..0])) == []
  {
  }

  lemma LaterOffset(t: seq<Scalar>, k: nat)
    requires k <= |t| && Offset(t, k) < |Encode(t)|
    ensures k < |t|
  {
    OffsetEnds(t);
  }

  lemma AllBackwards(t: seq<Scalar>, k: nat)
    requires k <= |t| && Offset(t, k) >= |Encode(t)|
    ensures t[..k] == t
  {
    if k < |t| {
      OffsetNotLast(t, k);
    }
  }

  /** `memcpy` */
  method CopyBytes(target: array<byte>, at: nat, source: seq<byte>, from: nat, width: nat)
    requires at + width <= target.Length && from + width <= |source|
    modifies target
    ensures target[at..at + width] == source[from..from + width]
    ensures target[..at] == old(target[..at]) && target[at + width..] == old(target[at + width..])
  {
    forall i | 0 <= i < width {
      target[at + i] := source[from + i];
    }
  }

  /** `compare_values` on text: byte by byte, which orders by scalar values. */
  method Compare(a: Str, b: Str, ghost t: seq<Scalar>, ghost u: seq<Scalar>) returns (c: int)
    requires Holds(a, t) && Holds(b, u)
    ensures c == Lexical(t, u)
    ensures c == 0 <==> t == u
  {
    hide Encode;
    ByteOrder(t, u);
    var n := if |a.data| < |b.data| then |a.data| else |b.data|;
    var i := 0;
    while i < n
      invariant 0 <= i <= n && a.data[..i] == b.data[..i]
    {
      if a.data[i] != b.data[i] {
        FirstDifference(a.data, b.data, i);
        EqualTexts(t, u);
        return if a.data[i] < b.data[i] then -1 else 1;
      }
      i := i + 1;
    }
    EqualTexts(t, u);
    if |a.data| <= |b.data| {
      assert a.data[..i] == a.data;
      NoDifference(a.data, b.data);
    } else {
      assert b.data[..i] == b.data;
      NoDifference(b.data, a.data);
    }
    c := if |a.data| > |b.data| then 1 else if |a.data| < |b.data| then -1 else 0;
    assert c == 0 ==> a.data == b.data;
  }

  lemma EqualTexts(t: seq<Scalar>, u: seq<Scalar>)
    ensures Encode(t) == Encode(u) <==> t == u
  {
    if Encode(t) == Encode(u) {
      EncodeInjective(t, u);
    }
  }

  /** `utf8_decode` traps exactly on malformed bytes. */
  method Decode(bytes: seq<byte>) returns (r: Option<Str>)
    requires |bytes| < SIZE_LIMIT
    ensures r.Some? <==> WellFormed(bytes)
    ensures r.Some? ==> exists t: seq<Scalar> :: Encode(t) == bytes && Holds(r.value, t)
  {
    var ok := Validate(bytes);
    if !ok {
      return None;
    }
    var v := MakeText(bytes);
    r := Some(v);
  }
}
