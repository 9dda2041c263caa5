/** Text, bytes and machine sizes of big integers, against the decimal notation of integers. */
module BigText {
  import opened Limbs
  import opened BigInt

  const SIZE_MAX: u64 := 0xFFFF_FFFF_FFFF_FFFF

  // ----- Decimal notation -----

  predicate IsDigit(c: char) {
    '0' <= c <= '9'
  }

  function DigitChar(d: nat): (c: char)
    requires d < 10
    ensures IsDigit(c) && c as int - '0' as int == d
  {
    (d + '0' as int) as char
  }

  /** The decimal digits of a natural number, without leading zeros. */
  function Decimal(n: nat): (s: string)
    ensures |s| > 0 && AllDigits(s)
  {
    if n < 10 then [DigitChar(n)] else Decimal(n / 10) + [DigitChar(n % 10)]
  }

  /** The last `k` decimal digits, with leading zeros. */
  function Padded(k: nat, n: nat): (s: string)
    ensures |s| == k && AllDigits(s)
  {
    if k == 0 then [] else Padded(k - 1, n / 10) + [DigitChar(n % 10)]
  }

  predicate AllDigits(s: string) {
    forall i :: 0 <= i < |s| ==> IsDigit(s[i])
  }

  /** The number written by a digit string. */
  ghost function Read(s: string): nat
    requires AllDigits(s)
  {
    if s == [] then 0 else 10 * Read(s[..|s| - 1]) + (s[|s| - 1] as int - '0' as int)
  }

  function TextOf(n: int): string {
    if n < 0 then "-" + Decimal(-n) else Decimal(n)
  }

  /** Reading decimal notation gives the number back, and it has no superfluous zero. */
  lemma {:induction false} ReadDecimal(n: nat)
    ensures Read(Decimal(n)) == n
    ensures n > 0 ==> Decimal(n)[0] != '0'
  {
    if n >= 10 {
      ReadDecimal(n / 10);
      var s := Decimal(n);
      assert s[..|s| - 1] == Decimal(n / 10);
    } else {
      var s := [DigitChar(n)];
      assert s[..0] == [];
      assert Read([]) == 0;
    }
  }

  /** A number in two parts is written as its high part and the padded low part. */
  lemma {:induction false} DecimalParts(high: nat, low: nat, k: nat)
    requires high > 0 && low < Ten(k)
    ensures Decimal(high * Ten(k) + low) == Decimal(high) + Padded(k, low)
  {
    if k == 0 {
      assert high * Ten(0) + low == high;
      assert Decimal(high) + [] == Decimal(high);
    } else {
      var n := high * Ten(k) + low;
      assert high * (10 * Ten(k - 1)) == 10 * (high * Ten(k - 1));
      assert n / 10 == high * Ten(k - 1) + low / 10 && n % 10 == low % 10;
      MulMono(1, 1, high, Ten(k - 1));
      assert n >= 10;
      DecimalParts(high, low / 10, k - 1);
    }
  }

  // ----- Writing and reading -----

  /** `pn_big_string`: the top limb, then every other limb with nine digits. */
  method ToText(value: Big) returns (text: string)
    requires value.Normal()
    ensures text == TextOf(value.Value())
  {
    if value.sign == 0 {
      return "0";
    }
    hide Decimal, Padded, High, Val;
    NormalPositive(value.limbs);
    var limbs := value.limbs;
    TopLimb(limbs);
    text := Decimal(limbs[|limbs| - 1] as nat);
    var i := |limbs| - 1;
    while i > 0
      invariant 0 <= i < |limbs| && text == Decimal(High(limbs, i)) && High(limbs, i) > 0
    {
      i := i - 1;
      NextLimb(limbs, i);
      text := text + Padded(9, limbs[i] as nat);
    }
    HighIsVal(limbs);
    if value.sign < 0 {
      text := "-" + text;
    }
  }

  lemma TopLimb(limbs: seq<u32>)
    requires Trimmed(limbs) && limbs != []
    ensures High(limbs, |limbs| - 1) == limbs[|limbs| - 1] as nat > 0
  {
  }

  lemma NextLimb(limbs: seq<u32>, i: nat)
    requires i + 1 < |limbs| && Digits(limbs) && High(limbs, i + 1) > 0
    ensures Decimal(High(limbs, i)) == Decimal(High(limbs, i + 1)) + Padded(9, limbs[i] as nat)
    ensures High(limbs, i) > 0
  {
    NineDigits();
    hide Decimal, Padded;
    DecimalParts(High(limbs, i + 1), limbs[i] as nat, 9);
  }

  lemma NineDigits()
    ensures Ten(9) == BASE
  {
    assert Ten(3) == 1000;
    assert Ten(6) == 1000 * Ten(3);
    assert Ten(9) == 1000 * Ten(6);
  }

  /** `pn_big_from_digits`; refuses anything but digits. */
  method FromDigits(digits: string, sign: int) returns (ok: bool, out: Big)
    ensures fresh(out) && out.Normal()
    ensures ok <==> AllDigits(digits)
    ensures ok ==> out.Value() == if sign < 0 then -(Read(digits) as int) else Read(digits)
  {
    out := new Big();
    var i := 0;
    while i < |digits|
      invariant 0 <= i <= |digits| && AllDigits(digits[..i])
      invariant fresh(out) && out.Normal() && out.sign >= 0 && Val(out.limbs) == Read(digits[..i])
    {
      if digits[i] < '0' || digits[i] > '9' {
        ok := false;
        out := new Big();
        return;
      }
      out.MulSmall(10);
      var digit := digits[i] as int - '0' as int;
      out.AddSmall(digit as u32);
      assert digits[..i + 1][..i] == digits[..i];
      i := i + 1;
    }
    assert digits[..i] == digits;
    ok := true;
    if out.limbs != [] {
      out.sign := if sign < 0 then -1 else 1;
    }
  }

  /** Text round trip: reading back what was written, with its sign, restores the integer
      limb for limb. */
  method RoundTrip(value: Big) returns (again: Big)
    requires value.Normal()
    ensures again.sign == value.sign && again.limbs == value.limbs
  {
    var text := ToText(value);
    ghost var n := value.Value();
    var digits := if value.sign < 0 then text[1..] else text;
    assert digits == Decimal(if n < 0 then -n else n) by {
      NormalPositive(value.limbs);
    }
    ReadDecimal(if n < 0 then -n else n);
    var ok, out := FromDigits(digits, value.sign);
    again := out;
    NormalPositive(again.limbs);
    NormalPositive(value.limbs);
    Unique(again.limbs, value.limbs);
  }

  /** The number denoted by big-endian bytes. */
  ghost function ReadBytes(bytes: seq<u32>): nat {
    if bytes == [] then 0 else 256 * ReadBytes(bytes[..|bytes| - 1]) + bytes[|bytes| - 1] as nat
  }

  /** `pn_big_from_bytes` */
  method FromBytes(bytes: seq<u32>) returns (out: Big)
    requires forall i :: 0 <= i < |bytes| ==> bytes[i] < 256
    ensures fresh(out) && out.Normal() && out.Value() == ReadBytes(bytes)
  {
    out := new Big();
    var i := 0;
    while i < |bytes|
      invariant 0 <= i <= |bytes|
      invariant fresh(out) && out.Normal() && out.sign >= 0 && Val(out.limbs) == ReadBytes(bytes[..i])
    {
      out.MulSmall(256);
      out.AddSmall(bytes[i]);
      assert bytes[..i + 1][..i] == bytes[..i];
      i := i + 1;
    }
    assert bytes[..i] == bytes;
  }

  /** `pn_big_fits_size`: succeeds exactly for the values of a 64-bit size. */
  method FitsSize(value: Big) returns (ok: bool, out: u64)
    requires value.Normal()
    ensures ok <==> 0 <= value.Value() <= SIZE_MAX as int
    ensures ok ==> out as int == value.Value()
  {
    NormalPositive(value.limbs);
    out := 0;
    if value.sign < 0 {
      return false, 0;
    }
    var limbs := value.limbs;
    var i := |limbs|;
    while i > 0
      invariant 0 <= i <= |limbs| && out as nat == High(limbs, i)
    {
      i := i - 1;
      if out > (SIZE_MAX - limbs[i] as u64) / BASE as u64 {
        TooHigh(limbs, i);
        return false, 0;
      }
      out := out * BASE as u64 + limbs[i] as u64;
    }
    HighIsVal(limbs);
    ok := true;
  }

  lemma TooHigh(l: seq<u32>, i: nat)
    requires i < |l| && High(l, i) > SIZE_MAX as nat
    ensures Val(l) > SIZE_MAX as nat
  {
    LowHigh(l, i);
    MulMono(1, High(l, i), P(i), High(l, i));
  }
}
