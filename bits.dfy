/**
 * Fixed-width integers as the .NET code sees them: bytes, 32-bit two's-complement
 * wrap-around, big-endian byte strings (the replay format and UBJSON are both
 * big-endian), decimal text (Version strings, ulong.ToString()) and String.Split.
 */
module Bits {
  import opened Wrappers

  type byte = x: int | 0 <= x < 256

  const INT32_MIN: int := -0x8000_0000
  const INT32_MAX: int := 0x7FFF_FFFF
  const INT64_MIN: int := -0x8000_0000_0000_0000
  const INT64_MAX: int := 0x7FFF_FFFF_FFFF_FFFF

  type int32 = x: int | INT32_MIN <= x <= INT32_MAX
  type uint32 = x: int | 0 <= x < 0x1_0000_0000

  function Pow256(n: nat): (r: nat)
    ensures r > 0
  {
    if n == 0 then 1 else 256 * Pow256(n - 1)
  }

  lemma Pow256Values()
    ensures Pow256(0) == 1 && Pow256(1) == 0x100 && Pow256(2) == 0x1_0000 && Pow256(4) == 0x1_0000_0000
    ensures Pow256(8) == 0x1_0000_0000_0000_0000
  {
    assert Pow256(3) == 0x100_0000;
    assert Pow256(5) == 0x100_0000_0000;
    assert Pow256(6) == 0x1_0000_0000_0000;
    assert Pow256(7) == 0x100_0000_0000_0000;
  }

  const TWO_TO_32: int := 0x1_0000_0000

  /**
   * Unchecked 32-bit arithmetic: the int C# leaves once a sum or difference of two
   * ints has wrapped around (such a result is never more than 2^32 out of range).
   */
  function Wrap32(x: int): (r: int32)
    requires INT32_MIN - TWO_TO_32 <= x <= INT32_MAX + TWO_TO_32
    ensures INT32_MIN <= x <= INT32_MAX ==> r == x
    ensures x > INT32_MAX ==> r == x - TWO_TO_32
    ensures x < INT32_MIN ==> r == x + TWO_TO_32
  {
    if x > INT32_MAX then x - TWO_TO_32 else if x < INT32_MIN then x + TWO_TO_32 else x
  }

  /** The wrapped value is the exact one modulo 2^32. */
  lemma Wrap32Congruent(x: int)
    requires INT32_MIN - TWO_TO_32 <= x <= INT32_MAX + TWO_TO_32
    ensures (x - Wrap32(x)) % TWO_TO_32 == 0
  {
    var r := Wrap32(x);
    if x > INT32_MAX {
      DivUnique(x - r, TWO_TO_32, 1, 0);
    } else if x < INT32_MIN {
      DivUnique(x - r, TWO_TO_32, -1, 0);
    } else {
      DivUnique(x - r, TWO_TO_32, 0, 0);
    }
  }

  /** Unsigned value of a big-endian byte string. */
  function FromBigEndian(s: seq<byte>): (r: nat)
    ensures r < Pow256(|s|)
  {
    if s == [] then 0 else FromBigEndian(s[..|s| - 1]) * 256 + s[|s| - 1]
  }

  /** Two's-complement value of a non-empty big-endian byte string. */
  function FromBigEndianSigned(s: seq<byte>): (r: int)
    requires |s| > 0
    ensures -((Pow256(|s|) / 2) as int) <= r < Pow256(|s|) / 2
  {
    var u := FromBigEndian(s);
    if u >= Pow256(|s|) / 2 then u - Pow256(|s|) else u
  }

  /** The `len` bytes `(byte)(num >> 8 * (len - i - 1))`, most significant first. */
  function ToBigEndian(num: int, len: nat): (r: seq<byte>)
    ensures |r| == len
  {
    seq(len, i requires 0 <= i < len => (num / Pow256(len - i - 1)) % 256)
  }

  lemma DivUnique(a: int, d: int, q: int, r: int)
    requires d > 0 && a == d * q + r && 0 <= r < d
    ensures a / d == q && a % d == r
  {
    var q', r' := a / d, a % d;
    assert d * (q - q') == r' - r;
    if q - q' >= 1 {
      MulAtLeast(d, q - q');
    } else if q' - q >= 1 {
      MulAtLeast(d, q' - q);
    }
  }

  lemma MulAtLeast(d: int, k: int)
    requires d > 0 && k >= 1
    ensures d * k >= d
  {
  }

  lemma DivDiv(a: int, b: int, c: int)
    requires b > 0 && c > 0
    ensures a / (b * c) == (a / b) / c
    ensures a % (b * c) == b * ((a / b) % c) + a % b
  {
    var q, r := a / b, a % b;
    var q2, r2 := q / c, q % c;
    MulAssoc(b, c, q2);
    MulDistrib(b, c * q2, r2);
    assert a == (b * c) * q2 + (b * r2 + r);
    MulMono(b, r2, c - 1);
    MulDistrib(b, c - 1, 1);
    DivUnique(a, b * c, q2, b * r2 + r);
  }

  lemma MulAssoc(x: int, y: int, z: int)
    ensures (x * y) * z == x * (y * z)
  {
  }

  lemma MulDistrib(x: int, y: int, z: int)
    ensures x * (y + z) == x * y + x * z
  {
  }

  lemma MulMono(x: int, y: int, z: int)
    requires x >= 0 && y <= z
    ensures x * y <= x * z
  {
    MulDistrib(x, y, z - y);
  }

  /** Dropping the last byte of a big-endian encoding is encoding the value shifted right by 8. */
  lemma ToBigEndianSplit(num: int, len: nat)
    ensures ToBigEndian(num, len + 1) == ToBigEndian(num / 256, len) + [num % 256]
  {
    var a, b := ToBigEndian(num, len + 1), ToBigEndian(num / 256, len) + [num % 256];
    forall i | 0 <= i < len + 1
      ensures a[i] == b[i]
    {
      if i < len {
        assert Pow256(len + 1 - i - 1) == 256 * Pow256(len - i - 1);
        DivDiv(num, 256, Pow256(len - i - 1));
      } else {
        assert Pow256(0) == 1;
      }
    }
  }

  /** Big-endian encoding keeps exactly the value modulo 256^len. */
  lemma {:induction false} BigEndianRoundTrip(num: int, len: nat)
    ensures FromBigEndian(ToBigEndian(num, len)) == num % Pow256(len)
    decreases len
  {
    if len > 0 {
      var s := ToBigEndian(num, len);
      ToBigEndianSplit(num, len - 1);
      assert s[..len - 1] == ToBigEndian(num / 256, len - 1);
      BigEndianRoundTrip(num / 256, len - 1);
      DivDiv(num, 256, Pow256(len - 1));
    }
  }

  /** A value that fits in `len` bytes of two's complement reads back unchanged. */
  lemma SignedRoundTrip(x: int, len: nat)
    requires len > 0
    requires -((Pow256(len) / 2) as int) <= x < Pow256(len) / 2
    ensures FromBigEndianSigned(ToBigEndian(x, len)) == x
  {
    BigEndianRoundTrip(x, len);
    var p := Pow256(len);
    if x >= 0 {
      DivUnique(x, p, 0, x);
    } else {
      DivUnique(x, p, -1, x + p);
    }
  }

  /** A value that fits in `len` unsigned bytes reads back unchanged. */
  lemma UnsignedRoundTrip(x: int, len: nat)
    requires 0 <= x < Pow256(len)
    ensures FromBigEndian(ToBigEndian(x, len)) == x
  {
    BigEndianRoundTrip(x, len);
    DivUnique(x, Pow256(len), 0, x);
  }

  // ----- decimal text -----

  predicate IsDigit(c: char) { '0' <= c <= '9' }

  function DigitChar(d: nat): (c: char)
    requires d < 10
    ensures IsDigit(c) && c as int - '0' as int == d
  {
    ('0' as int + d) as char
  }

  /** The shortest decimal spelling of `n`, as Int32.ToString / UInt64.ToString give it. */
  function NatToString(n: nat): (s: string)
    ensures |s| > 0
    ensures forall i :: 0 <= i < |s| ==> IsDigit(s[i])
  {
    if n < 10 then [DigitChar(n)] else NatToString(n / 10) + [DigitChar(n % 10)]
  }

  /** The value of a string of decimal digits (leading zeros allowed). */
  function DigitsValue(s: string): nat
    requires forall i :: 0 <= i < |s| ==> IsDigit(s[i])
  {
    if s == [] then 0
    else
      assert IsDigit(s[|s| - 1]);
      DigitsValue(s[..|s| - 1]) * 10 + (s[|s| - 1] as int - '0' as int)
  }

  /** Parsing a non-empty string of digits; absent for anything else. */
  function ParseNat(s: string): (r: Option<nat>)
    ensures r.Some? <==> |s| > 0 && forall i :: 0 <= i < |s| ==> IsDigit(s[i])
  {
    if |s| > 0 && forall i :: 0 <= i < |s| ==> IsDigit(s[i]) then Some(DigitsValue(s)) else None
  }

  /** String.Split on one separator: the pieces between separators, empty pieces kept. */
  function Split(s: string, sep: char): (parts: seq<string>)
    ensures |parts| > 0
  {
    if s == [] then [[]]
    else if s[0] == sep then [[]] + Split(s[1..], sep)
    else
      var rest := Split(s[1..], sep);
      [[s[0]] + rest[0]] + rest[1..]
  }

  /** The first piece of a split is the longest prefix free of the separator. */
  lemma {:induction false} SplitFirstPiece(s: string, sep: char)
    ensures |Split(s, sep)[0]| <= |s| && Split(s, sep)[0] == s[..|Split(s, sep)[0]|]
    ensures forall i :: 0 <= i < |Split(s, sep)[0]| ==> Split(s, sep)[0][i] != sep
    ensures |Split(s, sep)[0]| < |s| ==> s[|Split(s, sep)[0]|] == sep
  {
    if s != [] && s[0] != sep {
      SplitFirstPiece(s[1..], sep);
    }
  }

  /** Printing a number and parsing the text gives the number back. */
  lemma {:induction false} NatToStringRoundTrip(n: nat)
    ensures ParseNat(NatToString(n)) == Some(n)
  {
    var s := NatToString(n);
    if n >= 10 {
      NatToStringRoundTrip(n / 10);
      assert s[..|s| - 1] == NatToString(n / 10);
    } else {
      assert s == [DigitChar(n)] && s[..|s| - 1] == [];
      assert DigitsValue(s) == DigitsValue([]) * 10 + (s[0] as int - '0' as int);
    }
  }
}
