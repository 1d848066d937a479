/**
 * The vendored UBJSON serialiser: each .NET value becomes a one-byte type marker
 * followed by its payload, big-endian. Integers take the narrowest signed form
 * the dispatch reaches (after C#'s unchecked narrowing casts), strings are
 * framed by their UTF-16 length and carry their UTF-8 bytes, and containers are
 * the concatenation of their elements between brackets.
 *
 * The byte arrays the serialiser builds are `seq<byte>` in the pure part; the
 * helpers that fill arrays in loops (GetBytes, GetBigEndianBytes, Array.Reverse)
 * work on `array<byte>`, and the container encoders append to a growing list.
 */
module UbJsonSerializer {
  import opened Wrappers
  import opened Bits

  // ----- markers (the UBJSON type reference) -----

  const NULL_MARKER: byte := 0x5A          // 'Z'
  const NOOP_MARKER: byte := 0x4E          // 'N'
  const TRUE_MARKER: byte := 0x54          // 'T'
  const FALSE_MARKER: byte := 0x46         // 'F'
  const INT8_MARKER: byte := 0x69          // 'i'
  const UINT8_MARKER: byte := 0x55         // 'U'
  const INT16_MARKER: byte := 0x49         // 'I'
  const INT32_MARKER: byte := 0x6C         // 'l'
  const INT64_MARKER: byte := 0x4C         // 'L'
  const FLOAT32_MARKER: byte := 0x64       // 'd'
  const FLOAT64_MARKER: byte := 0x44       // 'D'
  const PRECISION_MARKER: byte := 0x48     // 'H'
  const STRING_MARKER: byte := 0x53        // 'S'
  const CHAR_MARKER: byte := 0x43          // 'C'
  const ARRAY_START_MARKER: byte := 0x5B   // '['
  const ARRAY_END_MARKER: byte := 0x5D     // ']'
  const OBJECT_START_MARKER: byte := 0x7B  // '{'
  const OBJECT_END_MARKER: byte := 0x7D    // '}'

  // ----- .NET integer types and unchecked narrowing -----

  type int8 = x: int | -0x80 <= x < 0x80
  type int16 = x: int | -0x8000 <= x < 0x8000
  type int64 = x: int | INT64_MIN <= x <= INT64_MAX
  type uint16 = x: int | 0 <= x < 0x1_0000
  type uint64 = x: int | 0 <= x < 0x1_0000_0000_0000_0000

  /** The unchecked cast (sbyte)x: the low 8 bits read as two's complement. */
  function ToInt8(x: int): (r: int8)
    ensures (x - r) % 0x100 == 0
    ensures -0x80 <= x < 0x80 ==> r == x
  {
    var m := x % 0x100;
    if m < 0x80 then m else m - 0x100
  }

  /** The unchecked cast (short)x: the low 16 bits read as two's complement. */
  function ToInt16(x: int): (r: int16)
    ensures (x - r) % 0x1_0000 == 0 && (x - r) % 0x100 == 0
    ensures -0x8000 <= x < 0x8000 ==> r == x
  {
    var m := x % 0x1_0000;
    DivUnique(x - m, 0x100, 0x100 * (x / 0x1_0000), 0);
    if m < 0x8000 then m
    else
      DivUnique(x - (m - 0x1_0000), 0x100, 0x100 * (x / 0x1_0000) + 0x100, 0);
      m - 0x1_0000
  }

  /** The unchecked cast (int)x: the low 32 bits read as two's complement. */
  function ToInt32(x: int): (r: int32)
    ensures (x - r) % TWO_TO_32 == 0 && (x - r) % 0x100 == 0
    ensures INT32_MIN <= x <= INT32_MAX ==> r == x
  {
    var m := x % TWO_TO_32;
    DivUnique(x - m, 0x100, 0x100_0000 * (x / TWO_TO_32), 0);
    DivUnique(x - m, TWO_TO_32, x / TWO_TO_32, 0);
    if m <= INT32_MAX then m
    else
      DivUnique(x - (m - TWO_TO_32), 0x100, 0x100_0000 * (x / TWO_TO_32) + 0x100_0000, 0);
      DivUnique(x - (m - TWO_TO_32), TWO_TO_32, x / TWO_TO_32 + 1, 0);
      m - TWO_TO_32
  }

  // ----- the value being serialised -----

  /**
   * A .NET string as UTF-16: its Length counts code units, two for a character
   * outside the Basic Multilingual Plane. A string's length is an int.
   */
  function Utf16Length(s: string): (n: nat)
    ensures |s| <= n <= 2 * |s|
  {
    if s == [] then 0 else (if s[0] as int > 0xFFFF then 2 else 1) + Utf16Length(s[1..])
  }

  type NetString = s: string | Utf16Length(s) <= INT32_MAX

  /**
   * The runtime types Serialize(object) tells apart, in the order it checks for them.
   * A string is checked for before the containers and a dictionary before a plain
   * enumerable, so each object falls into exactly one case. Floating-point values
   * are their IEEE bit patterns; a decimal is its ToString() text. `Unsupported`
   * is null and every other object.
   */
  datatype Value =
    | Bool(b: bool)
    | SByte(i8: int8)
    | Byte(u8: byte)
    | Short(i16: int16)
    | Int(i32: int32)
    | Long(i64: int64)
    | Float(bits32: uint32)
    | Double(bits64: uint64)
    | Char(c: uint16)
    | UShort(u16: uint16)
    | UInt(u32: uint32)
    | Decimal(text: NetString)
    | ULong(u64: uint64)
    | Str(s: NetString)
    | Dict(entries: seq<Entry>)
    | List(items: seq<Value>)
    | Unsupported

  /** One DictionaryEntry, in the dictionary's enumeration order. */
  datatype Entry = Entry(key: Value, value: Value)

  // ----- integers -----

  /** Serialize(sbyte): the Int8 marker and the byte (byte)o. */
  function SerializeSByte(o: int8): (r: seq<byte>)
    ensures |r| == 2 && r[0] == INT8_MARKER && FromBigEndianSigned(r[1..]) == o
  {
    assert Pow256(1) == 0x100;
    [INT8_MARKER, o % 0x100]
  }

  /**
   * Serialize(short): up to sbyte.MaxValue through the sbyte cast, else Int16 and two
   * bytes. The bytes always hold one well-formed integer of at least -128 that agrees
   * with the value in its low byte, and that is the value itself from -128 up.
   */
  function SerializeShort(o: int16): (r: seq<byte>)
    ensures o <= 0x7F ==> r == [INT8_MARKER, o % 0x100]
    ensures 0x7F < o ==> r == [INT16_MARKER] + ToBigEndian(o, 2)
    ensures DecodeInteger(r).Some? && -0x80 <= DecodeInteger(r).value && (DecodeInteger(r).value - o) % 0x100 == 0
    ensures -0x80 <= o ==> DecodeInteger(r) == Some(o)
  {
    if o <= 0x7F then
      var c := ToInt8(o);
      SameLowByte(o, c, c);
      LowByteOfCast(o, c);
      SerializeSByte(c)
    else
      Pow256Values();
      DecodeSigned(INT16_MARKER, o, 2);
      [INT16_MARKER] + ToBigEndian(o, 2)
  }

  /**
   * Serialize(int): up to short.MaxValue through the short cast, else Int32 and four
   * bytes; decodes as SerializeShort does. From short.MinValue up the form is the
   * narrowest that holds the value; below it the cast keeps the low 16 bits, which
   * may read as a positive short.
   */
  function SerializeInt(o: int32): (r: seq<byte>)
    ensures -0x8000 <= o <= 0x7F ==> r == [INT8_MARKER, o % 0x100]
    ensures 0x7F < o <= 0x7FFF ==> r == [INT16_MARKER] + ToBigEndian(o, 2)
    ensures 0x7FFF < o ==> r == [INT32_MARKER] + ToBigEndian(o, 4)
    ensures o < -0x8000 ==> r == SerializeShort(ToInt16(o))
    ensures DecodeInteger(r).Some? && -0x80 <= DecodeInteger(r).value && (DecodeInteger(r).value - o) % 0x100 == 0
    ensures -0x80 <= o ==> DecodeInteger(r) == Some(o)
  {
    if o <= 0x7FFF then
      var a := ToInt16(o);
      assert -0x8000 <= o ==> a == o;
      var r := SerializeShort(a);
      SameLowByte(o, a, DecodeInteger(r).value);
      r
    else
      Pow256Values();
      DecodeSigned(INT32_MARKER, o, 4);
      [INT32_MARKER] + ToBigEndian(o, 4)
  }

  /**
   * Serialize(long): up to int.MaxValue through the int cast, else Int64 and eight
   * bytes; decodes as SerializeShort does. From short.MinValue up the form is the
   * narrowest that holds the value. Below it the value passes through the int cast
   * and then the short cast, so it is the short of its low 16 bits (from int.MinValue)
   * or the int of its low 32 bits (below int.MinValue).
   */
  function SerializeLong(o: int64): (r: seq<byte>)
    ensures -0x8000 <= o <= 0x7F ==> r == [INT8_MARKER, o % 0x100]
    ensures 0x7F < o <= 0x7FFF ==> r == [INT16_MARKER] + ToBigEndian(o, 2)
    ensures 0x7FFF < o <= INT32_MAX ==> r == [INT32_MARKER] + ToBigEndian(o, 4)
    ensures INT32_MAX < o ==> r == [INT64_MARKER] + ToBigEndian(o, 8)
    ensures INT32_MIN <= o < -0x8000 ==> r == SerializeShort(ToInt16(o))
    ensures o < INT32_MIN ==> r == SerializeInt(ToInt32(o))
    ensures DecodeInteger(r).Some? && -0x80 <= DecodeInteger(r).value && (DecodeInteger(r).value - o) % 0x100 == 0
    ensures -0x80 <= o ==> DecodeInteger(r) == Some(o)
  {
    if o <= INT32_MAX then
      var a := ToInt32(o);
      assert INT32_MIN <= o ==> a == o;
      var r := SerializeInt(a);
      SameLowByte(o, a, DecodeInteger(r).value);
      r
    else
      Pow256Values();
      DecodeSigned(INT64_MARKER, o, 8);
      [INT64_MARKER] + ToBigEndian(o, 8)
  }

  /** A cast that keeps the low byte leaves the byte written for the value unchanged. */
  lemma LowByteOfCast(v: int, c: int)
    requires (v - c) % 0x100 == 0
    ensures c % 0x100 == v % 0x100
  {
    DivUnique(v - c, 0x100, (v - c) / 0x100, 0);
    DivUnique(c, 0x100, c / 0x100, c % 0x100);
    DivUnique(v, 0x100, c / 0x100 + (v - c) / 0x100, c % 0x100);
  }

  /** A value whose cast agrees with it in the low byte, read back through that cast, still agrees with it. */
  lemma SameLowByte(v: int, a: int, d: int)
    requires (v - a) % 0x100 == 0 && (d - a) % 0x100 == 0
    ensures (d - v) % 0x100 == 0
  {
    DivUnique(d - v, 0x100, (d - a) / 0x100 - (v - a) / 0x100, 0);
  }

  /** Payload size of each integer marker; absent for every other marker. */
  function IntegerSize(marker: byte): (r: Option<nat>)
    ensures r.Some? ==> r.value in {1, 2, 4, 8}
  {
    if marker == INT8_MARKER || marker == UINT8_MARKER then Some(1)
    else if marker == INT16_MARKER then Some(2)
    else if marker == INT32_MARKER then Some(4)
    else if marker == INT64_MARKER then Some(8)
    else None
  }

  /**
   * Reads one UBJSON integer that fills `b` exactly: signed big-endian after
   * i, I, l and L, unsigned after U. The reference the encoders are held to.
   */
  function DecodeInteger(b: seq<byte>): (r: Option<int>)
    ensures r.Some? <==> |b| > 0 && IntegerSize(b[0]).Some? && |b| == 1 + IntegerSize(b[0]).value
  {
    if |b| == 0 then None
    else match IntegerSize(b[0])
      case None => None
      case Some(k) =>
        if |b| != 1 + k then None
        else if b[0] == UINT8_MARKER then Some(b[1])
        else Some(FromBigEndianSigned(b[1..]))
  }

  lemma DecodeSigned(marker: byte, x: int, len: nat)
    requires IntegerSize(marker) == Some(len) && marker != UINT8_MARKER
    requires -((Pow256(len) / 2) as int) <= x < Pow256(len) / 2
    ensures DecodeInteger([marker] + ToBigEndian(x, len)) == Some(x)
  {
    var b := [marker] + ToBigEndian(x, len);
    assert b[1..] == ToBigEndian(x, len);
    SignedRoundTrip(x, len);
  }

  /**
   * The narrowing casts can land above sbyte.MaxValue: an int below short.MinValue,
   * or a long below int.MinValue, may come out in a wider positive form that reads
   * back as a different value.
   */
  lemma NarrowingWraps()
    ensures SerializeInt(-33768) == [INT16_MARKER, 0x7C, 0x18]
    ensures SerializeLong(-33768) == [INT16_MARKER, 0x7C, 0x18]
    ensures SerializeLong(-2147483649) == [INT32_MARKER, 0x7F, 0xFF, 0xFF, 0xFF]
    ensures DecodeInteger(SerializeInt(-33768)) == Some(31768)
    ensures DecodeInteger(SerializeLong(-2147483649)) == Some(INT32_MAX)
  {
    Pow256Values();
    assert ToInt16(-33768) == 31768 by {
      DivUnique(-33768, 0x1_0000, -1, 31768);
    }
    assert ToBigEndian(31768, 2) == [0x7C, 0x18] by {
      DivUnique(31768, 0x100, 0x7C, 0x18);
      DivUnique(0x7C, 0x100, 0, 0x7C);
    }
    assert ToInt32(-2147483649) == INT32_MAX by {
      DivUnique(-2147483649, TWO_TO_32, -1, INT32_MAX);
    }
    assert ToBigEndian(INT32_MAX, 4) == [0x7F, 0xFF, 0xFF, 0xFF] by {
      assert Pow256(3) == 0x100_0000;
      DivUnique(INT32_MAX, 0x100_0000, 0x7F, 0xFF_FFFF);
      DivUnique(0x7F, 0x100, 0, 0x7F);
      DivUnique(INT32_MAX, 0x1_0000, 0x7FFF, 0xFFFF);
      DivUnique(0x7FFF, 0x100, 0x7F, 0xFF);
      DivUnique(INT32_MAX, 0x100, 0x7F_FFFF, 0xFF);
      DivUnique(0x7F_FFFF, 0x100, 0x7FFF, 0xFF);
    }
    DecodeSigned(INT16_MARKER, 31768, 2);
    DecodeSigned(INT32_MARKER, INT32_MAX, 4);
  }

  /** Every narrower signed type serialises a value exactly as long does. */
  lemma SameBytesAtEveryWidth(x: int)
    requires INT32_MIN <= x <= INT32_MAX
    ensures -0x80 <= x < 0x80 ==> SerializeSByte(x) == SerializeLong(x)
    ensures -0x8000 <= x < 0x8000 ==> SerializeShort(x) == SerializeLong(x)
    ensures SerializeInt(x) == SerializeLong(x)
  {
  }

  // ----- chars -----

  /** Serialize(char): above sbyte.MaxValue through the short cast, else Char and the byte. */
  function SerializeChar(c: uint16): (r: seq<byte>)
    ensures c <= 0x7F ==> r == [CHAR_MARKER, c]
    ensures c > 0x7F ==> DecodeInteger(r).Some? && (DecodeInteger(r).value - c) % 0x100 == 0
  {
    if c > 0x7F then
      var s := ToInt16(c);
      SameLowByte(c, s, DecodeInteger(SerializeShort(s)).value);
      SerializeShort(s)
    else [CHAR_MARKER, c]
  }

  /**
   * An ASCII char keeps its Char marker. A char up to short.MaxValue becomes an
   * Int16 holding its code. Above that the short cast makes it negative, so it
   * falls through to the sbyte cast: an Int8 holding only its low byte. It reads
   * back as the char's code exactly when that is at most 32767.
   */
  lemma CharEncoding(c: uint16)
    ensures c <= 0x7F ==> SerializeChar(c) == [CHAR_MARKER, c]
    ensures 0x7F < c <= 0x7FFF ==> SerializeChar(c) == [INT16_MARKER] + ToBigEndian(c, 2)
    ensures 0x7FFF < c ==> SerializeChar(c) == [INT8_MARKER, c % 0x100]
    ensures c > 0x7F ==> (DecodeInteger(SerializeChar(c)) == Some(c) <==> c <= 0x7FFF)
  {
    if c > 0x7F {
      Pow256Values();
      if c <= 0x7FFF {
        DecodeSigned(INT16_MARKER, c, 2);
      } else {
        CharAboveShort(c);
      }
    }
  }

  lemma CharAboveShort(c: uint16)
    requires 0x7FFF < c
    ensures SerializeChar(c) == [INT8_MARKER, c % 0x100]
    ensures DecodeInteger(SerializeChar(c)) != Some(c)
  {
    var s := ToInt16(c);
    assert s == c - 0x1_0000;
    var m := s % 0x100;
    DivUnique(c, 0x100, s / 0x100 + 0x100, m);
    var t := ToInt8(s);
    assert t == if m < 0x80 then m else m - 0x100;
    if m >= 0x80 {
      DivUnique(t, 0x100, -1, m);
    }
    assert SerializeChar(c) == SerializeSByte(t);
  }

  // ----- strings -----

  /** Encoding.UTF8 bytes of one character (a Unicode scalar value). */
  function Utf8Char(ch: char): (r: seq<byte>)
    ensures 1 <= |r| <= 4
    ensures |r| == 1 <==> ch as int < 0x80
  {
    var v := ch as int;
    if v < 0x80 then [v]
    else if v < 0x800 then [0xC0 + v / 0x40, 0x80 + v % 0x40]
    else if v < 0x1_0000 then [0xE0 + v / 0x1000, 0x80 + (v / 0x40) % 0x40, 0x80 + v % 0x40]
    else [0xF0 + v / 0x4_0000, 0x80 + (v / 0x1000) % 0x40, 0x80 + (v / 0x40) % 0x40, 0x80 + v % 0x40]
  }

  /** Encoding.UTF8.GetBytes. */
  function Utf8(s: string): seq<byte>
  {
    if s == [] then [] else Utf8Char(s[0]) + Utf8(s[1..])
  }

  predicate IsAscii(s: string) {
    forall i :: 0 <= i < |s| ==> s[i] as int < 0x80
  }

  /** GetLengthBytes: the length as sbyte, short or int, by the same thresholds. */
  function GetLengthBytes(length: int32): (r: seq<byte>)
    requires 0 <= length
    ensures DecodeInteger(r) == Some(length)
  {
    if length <= 0x7F then SerializeSByte(length)
    else if length <= 0x7FFF then SerializeShort(length)
    else SerializeInt(length)
  }

  /**
   * A length reads back exactly, in an integer whose marker gives its size: two
   * bytes up to 127, three up to 32767, five beyond; the same bytes as long gives.
   */
  lemma GetLengthBytesRoundTrip(n: int32)
    requires 0 <= n
    ensures var r := GetLengthBytes(n);
      && |r| >= 2 && IntegerSize(r[0]) == Some(|r| - 1)
      && DecodeInteger(r) == Some(n)
      && |r| == (if n <= 0x7F then 2 else if n <= 0x7FFF then 3 else 5)
      && r == SerializeLong(n)
  {
    Pow256Values();
  }

  /** SerializeString: the marker, the length of the UTF-16 string, then its UTF-8 bytes. */
  function SerializeString(marker: byte, o: NetString): (r: seq<byte>)
    ensures |r| == 1 + |GetLengthBytes(Utf16Length(o))| + |Utf8(o)|
  {
    [marker] + GetLengthBytes(Utf16Length(o)) + Utf8(o)
  }

  /** Reads marker, length and payload of a framed string: the reference for SerializeString. */
  function DecodeString(b: seq<byte>): (r: Option<(byte, int, seq<byte>)>)
  {
    if |b| < 2 then None
    else match IntegerSize(b[1])
      case None => None
      case Some(k) =>
        if |b| < 2 + k then None
        else Some((b[0], DecodeInteger(b[1..2 + k]).value, b[2 + k..]))
  }

  /** A framed string reads back as its marker, its UTF-16 length and its UTF-8 bytes. */
  lemma StringRoundTrip(marker: byte, o: NetString)
    ensures DecodeString(SerializeString(marker, o)) == Some((marker, Utf16Length(o), Utf8(o)))
  {
    var len := GetLengthBytes(Utf16Length(o));
    GetLengthBytesRoundTrip(Utf16Length(o));
    var r := SerializeString(marker, o);
    assert r[1] == len[0];
    assert r[1..1 + |len|] == len;
    assert r[1 + |len|..] == Utf8(o);
  }

  /**
   * The length field counts UTF-16 code units, not bytes: it never exceeds the
   * number of UTF-8 bytes that follow, and equals it exactly for ASCII text.
   */
  lemma {:induction false} LengthCountsBytesIffAscii(s: string)
    ensures Utf16Length(s) <= |Utf8(s)|
    ensures Utf16Length(s) == |Utf8(s)| <==> IsAscii(s)
  {
    if s != [] {
      LengthCountsBytesIffAscii(s[1..]);
      assert IsAscii(s) <==> s[0] as int < 0x80 && IsAscii(s[1..]) by {
        if s[0] as int < 0x80 && IsAscii(s[1..]) {
          forall i | 0 <= i < |s| ensures s[i] as int < 0x80 {
            if i > 0 { assert s[i] == s[1..][i - 1]; }
          }
        }
      }
    }
  }

  /** ASCII text is sent as its character codes, one byte each. */
  lemma {:induction false} AsciiBytes(s: string)
    requires IsAscii(s)
    ensures Utf8(s) == seq(|s|, i requires 0 <= i < |s| => s[i] as int)
  {
    if s != [] {
      assert IsAscii(s[1..]) by {
        forall i | 0 <= i < |s[1..]| ensures s[1..][i] as int < 0x80 { assert s[1..][i] == s[i + 1]; }
      }
      AsciiBytes(s[1..]);
    }
  }

  /** The characters a run of bytes spells, one per byte. */
  function Latin(b: seq<byte>): (s: string)
    ensures |s| == |b|
  {
    seq(|b|, i requires 0 <= i < |b| => b[i] as char)
  }

  /** ulong.ToString(): at most twenty digits. */
  lemma {:induction false} DigitCount(n: nat, k: nat)
    requires 1 <= k && n < Pow10(k)
    ensures |NatToString(n)| <= k
  {
    if n >= 10 {
      DigitCount(n / 10, k - 1);
    }
  }

  function Pow10(k: nat): (r: nat)
    ensures r >= 1
  {
    if k == 0 then 1 else 10 * Pow10(k - 1)
  }

  lemma ULongDigits(o: uint64)
    ensures Utf16Length(NatToString(o)) <= 40
  {
    assert Pow10(20) == 100_000_000_000_000_000_000 by {
      assert Pow10(5) == 100_000;
      assert Pow10(10) == 10_000_000_000;
      assert Pow10(15) == 1_000_000_000_000_000;
    }
    DigitCount(o, 20);
  }

  /** Serialize(ulong): up to long.MaxValue as a long, beyond it as high-precision decimal text. */
  function SerializeULong(o: uint64): (r: seq<byte>)
    ensures o <= INT64_MAX ==> DecodeInteger(r) == Some(o)
    ensures o > INT64_MAX ==> |r| > 0 && r[0] == PRECISION_MARKER
  {
    if o <= INT64_MAX then SerializeLong(o)
    else
      ULongDigits(o);
      SerializeString(PRECISION_MARKER, NatToString(o))
  }

  /**
   * A ulong above long.MaxValue travels as text: a high-precision string whose
   * length field is its digit count and whose digits parse back to the value.
   */
  lemma ULongRoundTrip(o: uint64)
    ensures o <= INT64_MAX ==> DecodeInteger(SerializeULong(o)) == Some(o)
    ensures o > INT64_MAX ==>
      var d := DecodeString(SerializeULong(o));
      && d.Some? && d.value.0 == PRECISION_MARKER && d.value.1 == |d.value.2|
      && ParseNat(Latin(d.value.2)) == Some(o)
  {
    if o > INT64_MAX {
      var text := NatToString(o);
      ULongDigits(o);
      StringRoundTrip(PRECISION_MARKER, text);
      assert IsAscii(text) by {
        forall i | 0 <= i < |text| ensures text[i] as int < 0x80 { assert IsDigit(text[i]); }
      }
      LengthCountsBytesIffAscii(text);
      AsciiBytes(text);
      assert Latin(Utf8(text)) == text;
      NatToStringRoundTrip(o);
    }
  }

  // ----- the whole dispatch -----

  /** The byte strings of a list of parts, one after another. */
  function Concat(parts: seq<seq<byte>>): (r: seq<byte>)
  {
    if parts == [] then [] else Concat(parts[..|parts| - 1]) + parts[|parts| - 1]
  }

  /**
   * Serialize(object). A ushort is passed on as an int and a uint as a long
   * (overload resolution picks the next wider signed parameter).
   */
  function Serialize(v: Value): (r: seq<byte>)
    ensures |r| > 0
    decreases v
  {
    match v
    case Bool(b) => if b then [TRUE_MARKER] else [FALSE_MARKER]
    case SByte(o) => SerializeSByte(o)
    case Byte(o) => [UINT8_MARKER, o]
    case Short(o) => SerializeShort(o)
    case Int(o) => SerializeInt(o)
    case Long(o) => SerializeLong(o)
    case Float(bits) => [FLOAT32_MARKER] + ToBigEndian(bits, 4)
    case Double(bits) => [FLOAT64_MARKER] + ToBigEndian(bits, 8)
    case Char(c) => SerializeChar(c)
    case UShort(o) => SerializeInt(o)
    case UInt(o) => SerializeLong(o)
    case Decimal(text) => SerializeString(PRECISION_MARKER, text)
    case ULong(o) => SerializeULong(o)
    case Str(s) => SerializeString(STRING_MARKER, s)
    case Dict(entries) =>
      [OBJECT_START_MARKER]
      + Concat(seq(|entries|, i requires 0 <= i < |entries| => Serialize(entries[i].key) + Serialize(entries[i].value)))
      + [OBJECT_END_MARKER]
    case List(items) =>
      [ARRAY_START_MARKER]
      + Concat(seq(|items|, i requires 0 <= i < |items| => Serialize(items[i])))
      + [ARRAY_END_MARKER]
    case Unsupported => [NULL_MARKER]
  }

  /** SerializeNoop: the no-op marker alone. */
  function SerializeNoop(): (r: seq<byte>)
    ensures r == [NOOP_MARKER]
  {
    [NOOP_MARKER]
  }

  /** SerializePrecision: caller-supplied decimal text as a high-precision string. */
  function SerializePrecision(o: NetString): (r: seq<byte>)
    ensures DecodeString(r) == Some((PRECISION_MARKER, Utf16Length(o), Utf8(o)))
  {
    StringRoundTrip(PRECISION_MARKER, o);
    SerializeString(PRECISION_MARKER, o)
  }

  /**
   * Every scalar gets its marker: bool the T or F marker alone, byte the UInt8
   * marker and the byte, an unsupported object (or null) the null marker alone,
   * floats their marker and their bits big-endian, and every integer type one
   * well-formed integer that is the value whenever it is at least -128.
   */
  lemma ScalarMarkers(v: Value)
    ensures v.Bool? ==> Serialize(v) == [if v.b then TRUE_MARKER else FALSE_MARKER]
    ensures v.Byte? ==> Serialize(v) == [UINT8_MARKER, v.u8] && DecodeInteger(Serialize(v)) == Some(v.u8)
    ensures v.Unsupported? ==> Serialize(v) == [NULL_MARKER]
    ensures v.Float? ==> Serialize(v)[0] == FLOAT32_MARKER && FromBigEndian(Serialize(v)[1..]) == v.bits32
    ensures v.Double? ==> Serialize(v)[0] == FLOAT64_MARKER && FromBigEndian(Serialize(v)[1..]) == v.bits64
    ensures v.SByte? ==> DecodeInteger(Serialize(v)) == Some(v.i8)
    ensures v.Short? ==> (DecodeInteger(Serialize(v)) == Some(v.i16) <==> v.i16 >= -0x80)
    ensures v.Int? ==> (DecodeInteger(Serialize(v)) == Some(v.i32) <==> v.i32 >= -0x80)
    ensures v.Long? ==> (DecodeInteger(Serialize(v)) == Some(v.i64) <==> v.i64 >= -0x80)
    ensures v.UShort? ==> DecodeInteger(Serialize(v)) == Some(v.u16)
    ensures v.UInt? ==> DecodeInteger(Serialize(v)) == Some(v.u32)
  {
    Pow256Values();
    match v
    case Float(bits) =>
      assert Serialize(v)[1..] == ToBigEndian(bits, 4);
      UnsignedRoundTrip(bits, 4);
    case Double(bits) =>
      assert Serialize(v)[1..] == ToBigEndian(bits, 8);
      UnsignedRoundTrip(bits, 8);
    case _ =>
  }

  /**
   * Containers are framed by their brackets, and the body of a list or a
   * dictionary is the bodies of its parts laid end to end: splitting the
   * elements anywhere splits the body at the same place.
   */
  lemma ListBody(a: seq<Value>, b: seq<Value>)
    ensures var r := Serialize(List(a + b));
      && r[0] == ARRAY_START_MARKER && r[|r| - 1] == ARRAY_END_MARKER
      && r[1..|r| - 1] == Body(a) + Body(b)
  {
    var parts := seq(|a + b|, i requires 0 <= i < |a + b| => Serialize((a + b)[i]));
    ConcatSplit(parts, |a|);
    assert parts[..|a|] == seq(|a|, i requires 0 <= i < |a| => Serialize(a[i]));
    assert parts[|a|..] == seq(|b|, i requires 0 <= i < |b| => Serialize(b[i]));
  }

  /** The bytes between a list's brackets. */
  function Body(items: seq<Value>): seq<byte>
  {
    Concat(seq(|items|, i requires 0 <= i < |items| => Serialize(items[i])))
  }

  lemma {:induction false} ConcatSplit(parts: seq<seq<byte>>, k: nat)
    requires k <= |parts|
    ensures Concat(parts) == Concat(parts[..k]) + Concat(parts[k..])
    decreases |parts|
  {
    if k < |parts| {
      var n := |parts|;
      ConcatSplit(parts[..n - 1], k);
      assert parts[..n - 1][..k] == parts[..k];
      assert parts[k..][..n - k - 1] == parts[..n - 1][k..];
      AppendAssoc(Concat(parts[..k]), Concat(parts[..n - 1][k..]), parts[n - 1]);
    } else {
      assert parts[..k] == parts && parts[k..] == [];
    }
  }

  // ----- the imperative helpers -----

  /** GetBytes: a fresh array holding the marker and then the data. */
  method GetBytes(marker: byte, data: array<byte>) returns (bytes: array<byte>)
    ensures fresh(bytes)
    ensures bytes[..] == [marker] + data[..]
  {
    bytes := new byte[data.Length + 1];
    bytes[0] := marker;
    for i := 0 to data.Length
      invariant bytes[0] == marker
      invariant forall j :: 0 <= j < i ==> bytes[j + 1] == data[j]
    {
      bytes[i + 1] := data[i];
    }
  }

  /**
   * GetBigEndianBytes(num, len): byte i is num shifted right by 8 * (len - i - 1),
   * cast to byte. An arithmetic shift of a long is division by a power of two
   * rounded down, which Dafny's `/` gives for a positive divisor.
   */
  method GetBigEndianBytes(num: int64, len: nat) returns (bytes: array<byte>)
    requires len <= 8
    ensures fresh(bytes)
    ensures bytes[..] == ToBigEndian(num, len)
  {
    bytes := new byte[len];
    for i := 0 to len
      invariant forall j :: 0 <= j < i ==> bytes[j] == (num / Pow256(len - j - 1)) % 256
    {
      bytes[i] := (num / Pow256(len - i - 1)) % 256;
    }
  }

  /** The reverse of a byte string. */
  function Reversed(s: seq<byte>): (r: seq<byte>)
    ensures |r| == |s|
  {
    seq(|s|, i requires 0 <= i < |s| => s[|s| - 1 - i])
  }

  /** Array.Reverse: swaps the ends inwards, in place. */
  method Reverse(a: array<byte>)
    modifies a
    ensures a[..] == Reversed(old(a[..]))
  {
    var i, j := 0, a.Length - 1;
    while i < j
      invariant 0 <= i && i - 1 <= j < a.Length && i + j == a.Length - 1
      invariant forall k :: 0 <= k < i || j < k < a.Length ==> a[k] == old(a[a.Length - 1 - k])
      invariant forall k :: i <= k <= j ==> a[k] == old(a[k])
    {
      a[i], a[j] := a[j], a[i];
      i, j := i + 1, j - 1;
    }
  }

  /** Reversing twice gives the bytes back. */
  lemma ReversedTwice(s: seq<byte>)
    ensures Reversed(Reversed(s)) == s
  {
  }

  /**
   * BitConverter.GetBytes for a value of `len` bytes: the machine's byte order,
   * least significant first on a little-endian machine.
   */
  function NativeBytes(bits: int, len: nat, littleEndian: bool): (r: seq<byte>)
    ensures |r| == len
  {
    if littleEndian then Reversed(ToBigEndian(bits, len)) else ToBigEndian(bits, len)
  }

  /** GetBigEndianBytes(byte[]): reverses the machine's bytes in place on a little-endian machine. */
  method ToNetworkOrder(bytes: array<byte>, littleEndian: bool)
    modifies bytes
    ensures littleEndian ==> bytes[..] == Reversed(old(bytes[..]))
    ensures !littleEndian ==> bytes[..] == old(bytes[..])
  {
    if littleEndian {
      Reverse(bytes);
    }
  }

  /**
   * Serialize(float) and Serialize(double): the machine bytes of the bit pattern
   * put into network order behind the Float32 or Float64 marker. On either kind
   * of machine the result is the same.
   */
  method SerializeFloating(v: Value, littleEndian: bool) returns (r: array<byte>)
    requires v.Float? || v.Double?
    ensures fresh(r)
    ensures r[..] == Serialize(v)
  {
    var len := if v.Float? then 4 else 8;
    var bits := if v.Float? then v.bits32 else v.bits64;
    var machine := NativeBytes(bits, len, littleEndian);
    var bytes := new byte[len](i requires 0 <= i < len => machine[i]);
    assert bytes[..] == machine;
    ToNetworkOrder(bytes, littleEndian);
    ReversedTwice(ToBigEndian(bits, len));
    r := GetBytes(if v.Float? then FLOAT32_MARKER else FLOAT64_MARKER, bytes);
  }

  /** Serialize(IEnumerable): the start marker, each element's bytes appended in turn, the end marker. */
  method SerializeArray(items: seq<Value>) returns (bytes: seq<byte>)
    ensures bytes == Serialize(List(items))
  {
    ghost var parts := seq(|items|, i requires 0 <= i < |items| => Serialize(items[i]));
    bytes := [ARRAY_START_MARKER];
    for i := 0 to |items|
      invariant bytes == [ARRAY_START_MARKER] + Concat(parts[..i])
    {
      assert parts[..i + 1][..i] == parts[..i];
      bytes := bytes + Serialize(items[i]);
    }
    assert parts[..|items|] == parts;
    assert Serialize(List(items)) == [ARRAY_START_MARKER] + Concat(parts) + [ARRAY_END_MARKER];
    bytes := bytes + [ARRAY_END_MARKER];
  }

  /** Serialize(IDictionary): the start marker, each key's bytes then its value's, the end marker. */
  method SerializeObject(entries: seq<Entry>) returns (bytes: seq<byte>)
    ensures bytes == Serialize(Dict(entries))
  {
    ghost var parts := seq(|entries|, i requires 0 <= i < |entries| => Serialize(entries[i].key) + Serialize(entries[i].value));
    bytes := [OBJECT_START_MARKER];
    for i := 0 to |entries|
      invariant bytes == [OBJECT_START_MARKER] + Concat(parts[..i])
    {
      assert parts[..i + 1][..i] == parts[..i];
      var key, value := Serialize(entries[i].key), Serialize(entries[i].value);
      assert parts[i] == key + value;
      AppendAssoc(bytes, key, value);
      bytes := bytes + key;
      bytes := bytes + value;
    }
    assert parts[..|entries|] == parts;
    assert Serialize(Dict(entries)) == [OBJECT_START_MARKER] + Concat(parts) + [OBJECT_END_MARKER];
    bytes := bytes + [OBJECT_END_MARKER];
  }
}
