/**
 * SlpReader: the container layout of a replay file and the decoding of its events.
 *
 * The file is an immutable byte sequence. Its first byte tells the container shape:
 * a bare event stream (legacy files, starting with a GameStart) or a UBJSON object
 * whose "raw" array holds the event stream from offset 15. Events are one command
 * byte followed by a payload whose size the MESSAGE_SIZES event (or, for legacy
 * files, a fixed table) declares. Every payload field is read big-endian, and a
 * field that does not fit in the payload reads as null.
 */
module SlpReader {
  import opened Wrappers
  import opened Bits
  import opened Types
  import FullWidth
  import Version
  import SlpParser

  // ----- reading the file -----

  function Min(a: int, b: int): int {
    if a < b then a else b
  }

  /** `new byte[n]`. */
  function Zeros(n: nat): (r: seq<byte>)
    ensures |r| == n && forall i :: 0 <= i < n ==> r[i] == 0
  {
    seq(n, _ => 0)
  }

  /**
   * `Read(buffer, 0, buffer.Length, pos)`: the bytes the file holds from `pos` on
   * overwrite the front of the buffer; past the end of the file the buffer keeps
   * its previous content.
   */
  function ReadInto(bytes: seq<byte>, buf: seq<byte>, pos: nat): (r: seq<byte>)
    ensures |r| == |buf|
    ensures forall i :: 0 <= i < |r| ==> r[i] == if pos + i < |bytes| then bytes[pos + i] else buf[i]
  {
    if pos >= |bytes| then buf
    else
      var k := Min(|buf|, |bytes| - pos);
      bytes[pos..pos + k] + buf[k..]
  }

  /** A read into a fresh buffer of `n` bytes: the file's bytes, zero past its end. */
  function ReadFresh(bytes: seq<byte>, pos: nat, n: nat): (r: seq<byte>)
    ensures |r| == n
    ensures pos + n <= |bytes| ==> r == bytes[pos..pos + n]
  {
    var r := ReadInto(bytes, Zeros(n), pos);
    assert pos + n <= |bytes| ==> r == bytes[pos..pos + n] by {
      if pos + n <= |bytes| {
        forall i | 0 <= i < n ensures r[i] == bytes[pos..pos + n][i] { }
      }
    }
    r
  }

  // ----- container layout -----

  const LEFT_BRACE: byte := 0x7B

  /**
   * Where the event stream starts: 15 when the file is a UBJSON object (first byte
   * '{'), 0 for a legacy stream (first byte 0x36) and also 0, without any error, for
   * any other first byte, including an empty file.
   */
  function RawDataPosition(bytes: seq<byte>): (r: int32)
    ensures r == 15 <==> |bytes| > 0 && bytes[0] == LEFT_BRACE
    ensures r == 0 <==> !(|bytes| > 0 && bytes[0] == LEFT_BRACE)
  {
    var first := ReadFresh(bytes, 0, 1)[0];
    if first == 0x36 then 0
    else if first != LEFT_BRACE then 0
    else 15
  }

  /**
   * The length of the event stream: the whole file for a legacy stream; otherwise
   * the big-endian int32 just before the stream when it is positive, else everything
   * from the stream's start to the end of the file.
   */
  function RawDataLength(bytes: seq<byte>): (r: int32)
    requires |bytes| <= INT32_MAX
    ensures RawDataPosition(bytes) == 0 ==> r == |bytes|
    ensures r > 0 || r == |bytes| - RawDataPosition(bytes)
    ensures RawDataPosition(bytes) == 15 && FromBigEndianSigned(ReadFresh(bytes, 11, 4)) > 0 ==>
      r == FromBigEndianSigned(ReadFresh(bytes, 11, 4))
    ensures RawDataPosition(bytes) == 15 && FromBigEndianSigned(ReadFresh(bytes, 11, 4)) <= 0 ==>
      r == |bytes| - 15
  {
    var pos := RawDataPosition(bytes);
    if pos == 0 then |bytes|
    else
      Pow256Values();
      var len := FromBigEndianSigned(ReadFresh(bytes, pos as nat - 4, 4));
      if len > 0 then len else |bytes| - pos
  }

  /**
   * A UBJSON container whose length field holds `len` reports exactly that length
   * when it is positive, and otherwise everything after the length field.
   */
  lemma RawDataLengthOfHeader(header: seq<byte>, len: int, rest: seq<byte>)
    requires |header| == 11 && header[0] == LEFT_BRACE
    requires INT32_MIN <= len <= INT32_MAX
    requires |header| + 4 + |rest| <= INT32_MAX
    ensures RawDataPosition(header + ToBigEndian(len, 4) + rest) == 15
    ensures RawDataLength(header + ToBigEndian(len, 4) + rest) == if len > 0 then len else |rest|
  {
    var bytes := header + ToBigEndian(len, 4) + rest;
    assert bytes[0] == header[0];
    assert bytes[11..15] == ToBigEndian(len, 4);
    Pow256Values();
    SignedRoundTrip(len, 4);
  }

  /** The command-to-payload-size table of legacy files, which carry no MESSAGE_SIZES event. */
  const LEGACY_SIZES: map<byte, nat> := map[0x36 := 0x140, 0x37 := 0x6, 0x38 := 0x46, 0x39 := 0x1]

  /**
   * The table after the first `k` (command, big-endian u16 size) triplets of `buf`
   * have been stored over `base`, in order.
   */
  function Triplets(base: map<byte, nat>, buf: seq<byte>, k: nat): (t: map<byte, nat>)
    requires 3 * k <= |buf|
    ensures base.Keys <= t.Keys
    ensures forall j :: 0 <= j < k ==> buf[3 * j] in t
  {
    if k == 0 then base
    else
      var t := Triplets(base, buf, k - 1);
      t[buf[3 * k - 3] := buf[3 * k - 2] as int * 256 + buf[3 * k - 1] as int]
  }

  /** A later triplet for the same command overwrites an earlier one: the last one wins. */
  lemma {:induction false} TripletsLastWins(base: map<byte, nat>, buf: seq<byte>, k: nat, j: nat)
    requires 3 * k <= |buf| && j < k
    requires forall i :: j < i < k ==> buf[3 * i] != buf[3 * j]
    ensures Triplets(base, buf, k)[buf[3 * j]] == buf[3 * j + 1] as int * 256 + buf[3 * j + 2] as int
  {
    if j < k - 1 {
      assert buf[3 * (k - 1)] != buf[3 * j];
      TripletsLastWins(base, buf, k - 1, j);
    } else {
      assert 3 * j == 3 * k - 3;
    }
  }

  /** A command no triplet names keeps its entry in the base table, or stays absent. */
  lemma {:induction false} TripletsUntouched(base: map<byte, nat>, buf: seq<byte>, k: nat, c: byte)
    requires 3 * k <= |buf|
    requires forall i :: 0 <= i < k ==> buf[3 * i] != c
    ensures c in Triplets(base, buf, k) <==> c in base
    ensures c in base ==> Triplets(base, buf, k)[c] == base[c]
  {
    if k > 0 {
      assert buf[3 * (k - 1)] != c;
      TripletsUntouched(base, buf, k - 1, c);
    }
  }

  /**
   * GetMessageSizes as a function of the file: the legacy table at position 0; an
   * empty table when the stream does not start with MESSAGE_SIZES; otherwise the
   * event's length byte L under 0x35 and the (L - 1) / 3 triplets after it. A zero L
   * makes the buffer size negative and a remainder that is not a whole triplet makes
   * the loop index past the buffer: both throw.
   */
  function MessageSizesOf(bytes: seq<byte>, rawPos: int32): (r: Result<map<byte, nat>, Exception>)
    requires rawPos >= 0
    ensures rawPos == 0 ==> r == Success(LEGACY_SIZES)
    ensures r.Success? && rawPos != 0 ==> forall c :: c in r.value ==> r.value[c] < 0x1_0000
  {
    if rawPos == 0 then Success(LEGACY_SIZES)
    else
      var head := ReadFresh(bytes, rawPos as nat, 2);
      if head[0] != Code(MessageSizes) then Success(map[])
      else
        var len := head[1];
        if len == 0 then Failure(OverflowException)
        else if (len - 1) % 3 != 0 then Failure(IndexOutOfRangeException)
        else
          var t := Triplets(map[0x35 := len], ReadFresh(bytes, rawPos as nat + 2, len - 1), (len - 1) / 3);
          TripletsBounded(map[0x35 := len], ReadFresh(bytes, rawPos as nat + 2, len - 1), (len - 1) / 3);
          Success(t)
  }

  lemma {:induction false} TripletsBounded(base: map<byte, nat>, buf: seq<byte>, k: nat)
    requires 3 * k <= |buf|
    requires forall c :: c in base ==> base[c] < 0x1_0000
    ensures forall c :: c in Triplets(base, buf, k) ==> Triplets(base, buf, k)[c] < 0x1_0000
  {
    if k > 0 {
      TripletsBounded(base, buf, k - 1);
    }
  }

  /** At a wrapped stream that does not start with MESSAGE_SIZES, no command has a size. */
  lemma MessageSizesAbsent(bytes: seq<byte>, rawPos: int32)
    requires rawPos > 0 && rawPos < |bytes| && bytes[rawPos] != 0x35
    ensures MessageSizesOf(bytes, rawPos) == Success(map[])
  {
    assert ReadFresh(bytes, rawPos as nat, 2)[0] == bytes[rawPos];
  }

  /**
   * A well-formed MESSAGE_SIZES event (length byte 3n + 1 followed by n triplets)
   * declares 0x35 with its own length unless a triplet overrides it, and each
   * command with the size of its last triplet.
   */
  lemma MessageSizesOfEvent(bytes: seq<byte>, rawPos: int32, triplets: seq<byte>)
    requires rawPos > 0 && |triplets| % 3 == 0 && |triplets| + 1 < 256
    requires rawPos as int + 2 + |triplets| <= |bytes|
    requires bytes[rawPos] == 0x35 && bytes[rawPos + 1] == |triplets| + 1
    requires bytes[rawPos + 2..rawPos as int + 2 + |triplets|] == triplets
    ensures MessageSizesOf(bytes, rawPos)
            == Success(Triplets(map[0x35 := |triplets| + 1], triplets, |triplets| / 3))
  {
    assert ReadFresh(bytes, rawPos as nat, 2) == bytes[rawPos..rawPos + 2];
    assert ReadFresh(bytes, rawPos as nat + 2, |triplets|) == triplets;
  }

  /** The layout of an opened file (the fields of SlpFileType). */
  datatype SlpFile = SlpFile(
    bytes: seq<byte>,
    rawDataPosition: int32,
    rawDataLength: int32,
    metadataPosition: int32,
    metadataLength: int32,
    messageSizes: map<byte, nat>)

  /**
   * OpenSlpFile: the layout computed field by field in declaration order; the
   * metadata position skips the 10 bytes after the stream (int arithmetic, so it
   * wraps). Fails with the exception GetMessageSizes throws.
   */
  function Layout(bytes: seq<byte>): (r: Result<SlpFile, Exception>)
    requires |bytes| <= INT32_MAX
    ensures r.Success? ==>
      && r.value.bytes == bytes
      && r.value.rawDataPosition == RawDataPosition(bytes)
      && r.value.rawDataLength == RawDataLength(bytes)
      && r.value.metadataPosition == Wrap32(RawDataPosition(bytes) as int + RawDataLength(bytes) as int + 10)
      && r.value.metadataLength == |bytes| - RawDataPosition(bytes) - 1
      && Success(r.value.messageSizes) == MessageSizesOf(bytes, RawDataPosition(bytes))
    ensures r.Failure? <==> MessageSizesOf(bytes, RawDataPosition(bytes)).Failure?
  {
    var rawPos := RawDataPosition(bytes);
    var rawLen := RawDataLength(bytes);
    var metaPos := Wrap32(rawPos as int + rawLen as int + 10);
    var metaLen := |bytes| - rawPos - 1;
    match MessageSizesOf(bytes, rawPos)
    case Failure(e) => Failure(e)
    case Success(sizes) => Success(SlpFile(bytes, rawPos, rawLen, metaPos, metaLen, sizes))
  }

  /**
   * GetMessageSizes: fills the table from the MESSAGE_SIZES event, one triplet per
   * turn of the loop.
   */
  method GetMessageSizes(bytes: seq<byte>, rawPos: int32) returns (r: Result<map<byte, nat>, Exception>)
    requires rawPos >= 0
    ensures r == MessageSizesOf(bytes, rawPos)
  {
    if rawPos == 0 {
      var messageSizes: map<byte, nat> := map[];
      messageSizes := messageSizes[0x36 := 0x140];
      messageSizes := messageSizes[0x37 := 0x6];
      messageSizes := messageSizes[0x38 := 0x46];
      messageSizes := messageSizes[0x39 := 0x1];
      assert messageSizes == LEGACY_SIZES;
      return Success(messageSizes);
    }
    var buffer := ReadFresh(bytes, rawPos as nat, 2);
    if buffer[0] != Code(MessageSizes) {
      return Success(map[]);
    }
    var payloadLength := buffer[1];
    var messageSizes: map<byte, nat> := map[0x35 := payloadLength];
    if payloadLength == 0 {
      return Failure(OverflowException);
    }
    var sizesBuffer := ReadFresh(bytes, rawPos as nat + 2, payloadLength - 1);
    r := StoreTriplets(messageSizes, sizesBuffer);
    assert |sizesBuffer| == payloadLength - 1;
  }

  /** The loop of GetMessageSizes: stores each triplet of `buffer` over `messageSizes`, in order. */
  method StoreTriplets(messageSizes: map<byte, nat>, buffer: seq<byte>) returns (r: Result<map<byte, nat>, Exception>)
    ensures |buffer| % 3 != 0 ==> r == Failure(IndexOutOfRangeException)
    ensures |buffer| % 3 == 0 ==> r == Success(Triplets(messageSizes, buffer, |buffer| / 3))
  {
    var sizes := messageSizes;
    var i := 0;
    while i < |buffer|
      invariant 0 <= i <= |buffer| && i % 3 == 0
      invariant sizes == Triplets(messageSizes, buffer, i / 3)
    {
      if i + 2 >= |buffer| {
        return Failure(IndexOutOfRangeException);
      }
      var command := buffer[i];
      var sizeOfCommand := buffer[i + 1] as int * 256 + buffer[i + 2] as int;
      sizes := sizes[command := sizeOfCommand];
      i := i + 3;
    }
    return Success(sizes);
  }

  /** OpenSlpFile: computes the layout, failing when the size table cannot be read. */
  method OpenSlpFile(bytes: seq<byte>) returns (r: Result<SlpFile, Exception>)
    requires |bytes| <= INT32_MAX
    ensures r == Layout(bytes)
  {
    var rawPos := RawDataPosition(bytes);
    var rawLen := RawDataLength(bytes);
    var metaPos := Wrap32(rawPos as int + rawLen as int + 10);
    var metaLen := |bytes| - rawPos - 1;
    var sizes := GetMessageSizes(bytes, rawPos);
    if sizes.Failure? {
      return Failure(sizes.error);
    }
    return Success(SlpFile(bytes, rawPos, rawLen, metaPos, metaLen, sizes.value));
  }

  // ----- payload field readers -----

  /** `CanRead(offset, width)`: the field lies inside the payload. */
  predicate CanRead(p: seq<byte>, offset: nat, width: nat) {
    offset + width <= |p|
  }

  function ReadUint8(p: seq<byte>, offset: nat): (r: Option<int32>)
    ensures r.Some? <==> CanRead(p, offset, 1)
    ensures r.Some? ==> r.value == p[offset]
  {
    if CanRead(p, offset, 1) then Some(p[offset] as int32) else None
  }

  /** `ReadSByte`: the byte as a two's-complement value. */
  function ReadInt8(p: seq<byte>, offset: nat): (r: Option<int32>)
    ensures r.Some? <==> CanRead(p, offset, 1)
    ensures r.Some? ==> -128 <= r.value < 128 && (r.value - p[offset]) % 256 == 0
  {
    if CanRead(p, offset, 1) then Some(if p[offset] >= 128 then p[offset] as int - 256 else p[offset] as int) else None
  }

  /** `ReadBoolean`: any non-zero byte is true. */
  function ReadBool(p: seq<byte>, offset: nat): (r: Option<bool>)
    ensures r.Some? <==> CanRead(p, offset, 1)
    ensures r.Some? ==> (r.value <==> p[offset] != 0)
  {
    if CanRead(p, offset, 1) then Some(p[offset] != 0) else None
  }

  function ReadUint16(p: seq<byte>, offset: nat): (r: Option<int32>)
    ensures r.Some? <==> CanRead(p, offset, 2)
    ensures r.Some? ==> r.value == p[offset] as int * 256 + p[offset + 1] as int
  {
    if CanRead(p, offset, 2) then
      var raw := p[offset..offset + 2];
      assert FromBigEndian(raw[..1]) == raw[0] by {
        assert raw[..1][..0] == [];
      }
      Some(FromBigEndian(raw) as int32)
    else None
  }

  function ReadInt32(p: seq<byte>, offset: nat): (r: Option<int32>)
    ensures r.Some? <==> CanRead(p, offset, 4)
  {
    if CanRead(p, offset, 4) then
      Pow256Values();
      Some(FromBigEndianSigned(p[offset..offset + 4]))
    else None
  }

  function ReadUint32(p: seq<byte>, offset: nat): (r: Option<uint32>)
    ensures r.Some? <==> CanRead(p, offset, 4)
  {
    if CanRead(p, offset, 4) then
      Pow256Values();
      Some(FromBigEndian(p[offset..offset + 4]))
    else None
  }

  /** A float field, kept as its raw big-endian bit pattern. */
  function ReadFloat(p: seq<byte>, offset: nat): (r: Option<Float32>)
    ensures r.Some? <==> CanRead(p, offset, 4)
  {
    if CanRead(p, offset, 4) then
      Pow256Values();
      Some(Float32(FromBigEndian(p[offset..offset + 4])))
    else None
  }

  lemma FieldAt(pre: seq<byte>, mid: seq<byte>, post: seq<byte>)
    ensures (pre + mid + post)[|pre|..|pre| + |mid|] == mid
  {
  }

  /** An int32 written big-endian at some offset is read back by ReadInt32 at that offset. */
  lemma ReadInt32RoundTrip(pre: seq<byte>, x: int32, post: seq<byte>)
    ensures ReadInt32(pre + ToBigEndian(x, 4) + post, |pre|) == Some(x)
  {
    FieldAt(pre, ToBigEndian(x, 4), post);
    Pow256Values();
    SignedRoundTrip(x, 4);
  }

  /** A uint32 written big-endian is read back by ReadUint32. */
  lemma ReadUint32RoundTrip(pre: seq<byte>, x: uint32, post: seq<byte>)
    ensures ReadUint32(pre + ToBigEndian(x, 4) + post, |pre|) == Some(x)
  {
    FieldAt(pre, ToBigEndian(x, 4), post);
    Pow256Values();
    UnsignedRoundTrip(x, 4);
  }

  /** A 16-bit value written big-endian is read back by ReadUint16. */
  lemma ReadUint16RoundTrip(pre: seq<byte>, x: int, post: seq<byte>)
    requires 0 <= x < 0x1_0000
    ensures ReadUint16(pre + ToBigEndian(x, 2) + post, |pre|) == Some(x)
  {
    FieldAt(pre, ToBigEndian(x, 2), post);
    Pow256Values();
    UnsignedRoundTrip(x, 2);
  }

  /** A signed byte written in two's complement is read back by ReadInt8. */
  lemma ReadInt8RoundTrip(pre: seq<byte>, x: int, post: seq<byte>)
    requires -128 <= x < 128
    ensures ReadInt8(pre + ToBigEndian(x, 1) + post, |pre|) == Some(x)
  {
    FieldAt(pre, ToBigEndian(x, 1), post);
    Pow256Values();
    SignedRoundTrip(x, 1);
    var b := ToBigEndian(x, 1);
    assert b[..0] == [];
  }

  // ----- decoding event payloads -----

  /**
   * The controller-fix option of a player from its dash-back and shield-drop words:
   * "Mixed" when they differ, else "UCF" for 1, "Dween" for 2 and "None" otherwise
   * (two absent words count as equal).
   */
  function ControllerFix(dashback: Option<uint32>, shieldDrop: Option<uint32>): (r: string)
    ensures r == "Mixed" <==> dashback != shieldDrop
    ensures r == "UCF" <==> dashback == shieldDrop && dashback == Some(1)
    ensures r == "Dween" <==> dashback == shieldDrop && dashback == Some(2)
    ensures r == "None" <==> dashback == shieldDrop && dashback != Some(1) && dashback != Some(2)
  {
    if dashback != shieldDrop then "Mixed"
    else if dashback == Some(1) then "UCF"
    else if dashback == Some(2) then "Dween"
    else "None"
  }

  /**
   * The 16 name-tag bytes of player `i`: `payload.Skip(i * 0x10).Take(16)`, counted
   * from the start of the payload, and shorter or empty where the payload ends.
   */
  function NameTagBytes(p: seq<byte>, i: nat): (r: seq<byte>)
    ensures |r| == if |p| <= 16 * i then 0 else Min(16, |p| - 16 * i)
    ensures forall k :: 0 <= k < |r| ==> r[k] == p[16 * i + k]
  {
    p[Min(16 * i, |p|)..Min(16 * i + 16, |p|)]
  }

  /**
   * The decoded name tag up to its first NUL, folded to half-width characters: the
   * result is the half-width form of the text's prefix that stops at the first NUL
   * (or runs to the end when there is none).
   */
  function NameTag(text: string): (r: string)
    ensures |r| <= |text|
    ensures forall k :: 0 <= k < |r| ==> r[k] != '\0' && !FullWidth.IsFullWidth(r[k])
    ensures r == FullWidth.ToHalfWidth(text[..|r|])
    ensures forall k :: 0 <= k < |r| ==> text[k] != '\0'
    ensures |r| < |text| ==> text[|r|] == '\0'
  {
    var first := Split(text, '\0')[0];
    SplitFirstPiece(text, '\0');
    FullWidth.ToHalfWidth(first)
  }

  /** A plain name padded with NULs decodes to itself. */
  lemma NameTagOfPadded(name: string, padding: string)
    requires forall k :: 0 <= k < |name| ==> name[k] != '\0' && !FullWidth.IsFullWidth(name[k])
    ensures NameTag(name + ['\0'] + padding) == name
  {
    Version.SplitAtSeparator(name, '\0', padding);
    FullWidth.ToHalfWidthFixedPoint(name);
  }

  /** A version byte as the interpolated `byte?` value. */
  function VersionByte(p: seq<byte>, offset: nat): (r: Option<nat>)
    ensures r.Some? <==> CanRead(p, offset, 1)
    ensures r.Some? ==> r.value == p[offset]
  {
    if CanRead(p, offset, 1) then Some(p[offset] as nat) else None
  }

  /** Player `i` of a GameStart payload: four slots of 0x24 bytes, ports 1 to 4. */
  function ParsePlayer(p: seq<byte>, i: nat, decode: seq<byte> -> string): (r: PlayerType)
    requires i < 4
    ensures r.playerIndex == i && r.port == i + 1
  {
    var offset := i * 0x24;
    PlayerType(
      i, i + 1,
      ReadUint8(p, 0x65 + offset),
      ReadUint8(p, 0x68 + offset),
      ReadUint8(p, 0x67 + offset),
      ReadUint8(p, 0x66 + offset),
      ReadUint8(p, 0x6e + offset),
      Some(ControllerFix(ReadUint32(p, 0x141 + i * 0x8), ReadUint32(p, 0x145 + i * 0x8))),
      Some(NameTag(decode(NameTagBytes(p, i)))))
  }

  /**
   * Where player `i`'s fields sit in a GameStart payload long enough to hold its
   * controller-fix words: the byte fields in the player's 0x24-byte slot, the two
   * big-endian words at 0x141 + 8i and 0x145 + 8i, and the name tag decoded from the
   * 16 bytes at 16i (the offset 0x161 + 16i is computed beside it but not used).
   */
  lemma PlayerFields(p: seq<byte>, i: nat, decode: seq<byte> -> string)
    requires i < 4 && |p| >= 0x149 + 8 * i
    ensures var r, o := ParsePlayer(p, i, decode), 0x24 * i;
      && r.characterId == Some(p[0x65 + o] as int32)
      && r.slotType == Some(p[0x66 + o] as int32)
      && r.startStocks == Some(p[0x67 + o] as int32)
      && r.characterColor == Some(p[0x68 + o] as int32)
      && r.teamId == Some(p[0x6e + o] as int32)
      && r.controllerFix == Some(ControllerFix(Some(FromBigEndian(p[0x141 + 8 * i..0x145 + 8 * i])),
                                               Some(FromBigEndian(p[0x145 + 8 * i..0x149 + 8 * i]))))
      && r.nameTag == Some(NameTag(decode(p[16 * i..16 * i + 16])))
  {
    assert NameTagBytes(p, i) == p[16 * i..16 * i + 16];
  }

  /**
   * Player `i`'s controller-fix words written big-endian at 0x141 + 8i and
   * 0x145 + 8i parse back to the option they select.
   */
  lemma ControllerFixRoundTrip(pre: seq<byte>, i: nat, dashback: uint32, shieldDrop: uint32, post: seq<byte>,
                               decode: seq<byte> -> string)
    requires i < 4 && |pre| == 0x141 + 8 * i
    ensures ParsePlayer(pre + ToBigEndian(dashback, 4) + ToBigEndian(shieldDrop, 4) + post, i, decode).controllerFix
            == Some(ControllerFix(Some(dashback), Some(shieldDrop)))
  {
    var d, w := ToBigEndian(dashback, 4), ToBigEndian(shieldDrop, 4);
    assert pre + d + w + post == pre + d + (w + post);
    ReadUint32RoundTrip(pre, dashback, w + post);
    ReadUint32RoundTrip(pre + d, shieldDrop, post);
  }

  /**
   * Player `i`'s ten bytes from 0x65 + 0x24i parse back to its fields: character,
   * slot type, stocks and colour in the first four, team in the tenth.
   */
  lemma PlayerSlotRoundTrip(pre: seq<byte>, i: nat, slot: seq<byte>, post: seq<byte>, decode: seq<byte> -> string)
    requires i < 4 && |pre| == 0x65 + 0x24 * i && |slot| == 10
    ensures var r := ParsePlayer(pre + slot + post, i, decode);
      && r.characterId == Some(slot[0] as int32) && r.slotType == Some(slot[1] as int32)
      && r.startStocks == Some(slot[2] as int32) && r.characterColor == Some(slot[3] as int32)
      && r.teamId == Some(slot[9] as int32)
  {
    var p := pre + slot + post;
    assert p[0x65 + 0x24 * i] == slot[0] && p[0x66 + 0x24 * i] == slot[1] && p[0x67 + 0x24 * i] == slot[2];
    assert p[0x68 + 0x24 * i] == slot[3] && p[0x6e + 0x24 * i] == slot[9];
  }

  function ParseGameStart(p: seq<byte>, decode: seq<byte> -> string): (r: GameStartType)
    ensures |r.players| == 4
    ensures forall i :: 0 <= i < 4 ==> r.players[i] == ParsePlayer(p, i, decode)
  {
    GameStartType(
      Some(Version.FormatVersion(VersionByte(p, 0x1), VersionByte(p, 0x2), VersionByte(p, 0x3))),
      ReadBool(p, 0xd),
      ReadBool(p, 0x1a1),
      ReadUint16(p, 0x13),
      [ParsePlayer(p, 0, decode), ParsePlayer(p, 1, decode), ParsePlayer(p, 2, decode), ParsePlayer(p, 3, decode)],
      ReadUint8(p, 0x1a3),
      ReadUint8(p, 0x1a4))
  }

  /**
   * A pre-frame update: each field read at its offset, null where the payload ends
   * before it. The frame number, player index and follower flag that key the frame
   * table sit right after the command byte.
   */
  function ParsePreFrameUpdate(p: seq<byte>): (r: PreFrameUpdateType)
    ensures r.frame == if |p| >= 5 then Some(FromBigEndianSigned(p[1..5])) else None
    ensures r.playerIndex == if |p| >= 6 then Some(p[5] as int32) else None
    ensures r.isFollower == if |p| >= 7 then Some(p[6] != 0) else None
  {
    PreFrameUpdateType(
      ReadInt32(p, 0x1), ReadUint8(p, 0x5), ReadBool(p, 0x6), ReadUint32(p, 0x7), ReadUint16(p, 0xb),
      ReadFloat(p, 0xd), ReadFloat(p, 0x11), ReadFloat(p, 0x15), ReadFloat(p, 0x19), ReadFloat(p, 0x1d),
      ReadFloat(p, 0x21), ReadFloat(p, 0x25), ReadFloat(p, 0x29), ReadUint32(p, 0x2d), ReadUint16(p, 0x31),
      ReadFloat(p, 0x33), ReadFloat(p, 0x37), ReadFloat(p, 0x3c))
  }

  /** A post-frame update, keyed like a pre-frame update by the fields right after the command byte. */
  function ParsePostFrameUpdate(p: seq<byte>): (r: PostFrameUpdateType)
    ensures r.frame == if |p| >= 5 then Some(FromBigEndianSigned(p[1..5])) else None
    ensures r.playerIndex == if |p| >= 6 then Some(p[5] as int32) else None
    ensures r.isFollower == if |p| >= 7 then Some(p[6] != 0) else None
  {
    PostFrameUpdateType(
      ReadInt32(p, 0x1), ReadUint8(p, 0x5), ReadBool(p, 0x6), ReadUint8(p, 0x7), ReadUint16(p, 0x8),
      ReadFloat(p, 0xa), ReadFloat(p, 0xe), ReadFloat(p, 0x12), ReadFloat(p, 0x16), ReadFloat(p, 0x1a),
      ReadUint8(p, 0x1e), ReadUint8(p, 0x1f), ReadUint8(p, 0x20), ReadUint8(p, 0x21),
      ReadFloat(p, 0x22), ReadFloat(p, 0x2b), ReadBool(p, 0x2f), ReadUint16(p, 0x30),
      ReadUint8(p, 0x32), ReadUint8(p, 0x33), ReadUint8(p, 0x34),
      SelfInducedSpeedsType(ReadFloat(p, 0x35), ReadFloat(p, 0x39), ReadFloat(p, 0x3d), ReadFloat(p, 0x41), ReadFloat(p, 0x45)))
  }

  /** An item update: the frame number after the command byte, then the item's type id. */
  function ParseItemUpdate(p: seq<byte>): (r: ItemUpdateType)
    ensures r.frame == if |p| >= 5 then Some(FromBigEndianSigned(p[1..5])) else None
    ensures r.typeId == if |p| >= 7 then Some(p[5] as int32 * 256 + p[6] as int32) else None
    ensures r.owner.Some? <==> |p| >= 0x2b
  {
    ItemUpdateType(
      ReadInt32(p, 0x1), ReadUint16(p, 0x5), ReadUint8(p, 0x7),
      ReadFloat(p, 0x8), ReadFloat(p, 0xc), ReadFloat(p, 0x10), ReadFloat(p, 0x14), ReadFloat(p, 0x18),
      ReadUint16(p, 0x1c), ReadFloat(p, 0x1e), ReadUint32(p, 0x22),
      ReadUint8(p, 0x26), ReadUint8(p, 0x27), ReadUint8(p, 0x28), ReadUint8(p, 0x29), ReadInt8(p, 0x2a))
  }

  /**
   * ParseMessage: the payload record of an event, read from its buffer (which starts
   * with the command byte); null for MESSAGE_SIZES and for bytes that name no command.
   */
  function ParseMessage(command: byte, p: seq<byte>, decode: seq<byte> -> string): (r: Option<EventPayload>)
    ensures r.Some? <==> CommandOf(command).Some? && CommandOf(command) != Some(MessageSizes)
    ensures r.Some? ==> Code(CommandOfPayload(r.value)) == command
  {
    match CommandOf(command)
    case None => None
    case Some(c) =>
      match c
      case GameStartCmd => Some(GameStart(ParseGameStart(p, decode)))
      case PreFrameUpdateCmd => Some(PreFrameUpdate(ParsePreFrameUpdate(p)))
      case PostFrameUpdateCmd => Some(PostFrameUpdate(ParsePostFrameUpdate(p)))
      case ItemUpdateCmd => Some(ItemUpdate(ParseItemUpdate(p)))
      case FrameBookendCmd => Some(FrameBookend(FrameBookendType(ReadInt32(p, 0x1), ReadInt32(p, 0x5))))
      case GameEndCmd => Some(GameEnd(GameEndType(ReadUint8(p, 0x1), ReadUint8(p, 0x2))))
      case MessageSizes => None
  }

  /**
   * The version a GameStart prints parses back to its three bytes; a payload too
   * short to hold them prints a version that does not parse.
   */
  lemma GameStartVersion(p: seq<byte>, decode: seq<byte> -> string)
    ensures var v := Version.Parse(ParseGameStart(p, decode).slpVersion.value);
      && (v.Some? <==> |p| >= 4)
      && (|p| >= 4 ==> v == Some(Version.Triple(p[1], p[2], p[3])))
  {
    Version.FormatParseRoundTrip(VersionByte(p, 0x1), VersionByte(p, 0x2), VersionByte(p, 0x3));
  }

  /**
   * A GameStart payload of the legacy size (0x140 bytes after the command byte) holds
   * every per-player byte field but neither controller-fix word, nor the PAL flag,
   * the scene or the game mode.
   */
  lemma LegacyGameStart(p: seq<byte>, decode: seq<byte> -> string)
    requires |p| == LEGACY_SIZES[0x36] + 1
    ensures var g := ParseGameStart(p, decode);
      && g.isTeams.Some? && g.stageId.Some?
      && g.isPAL.None? && g.scene.None? && g.gameMode.None?
      && forall i :: 0 <= i < 4 ==>
           && g.players[i].characterId.Some? && g.players[i].characterColor.Some?
           && g.players[i].startStocks.Some? && g.players[i].slotType.Some? && g.players[i].teamId.Some?
           && g.players[i].controllerFix == Some("None")
  {
    var g := ParseGameStart(p, decode);
    forall i | 0 <= i < 4
      ensures g.players[i].controllerFix == Some("None")
    {
      assert ReadUint32(p, 0x141 + i * 0x8) == None;
    }
  }

  /**
   * Pre- and post-frame updates of the legacy sizes carry the frame number, player
   * index and follower flag the frame reconstruction needs.
   */
  lemma LegacyFrameUpdates(pre: seq<byte>, post: seq<byte>)
    requires |pre| == LEGACY_SIZES[0x37] + 1 && |post| == LEGACY_SIZES[0x38] + 1
    ensures var u := ParsePreFrameUpdate(pre);
      u.frame.Some? && u.playerIndex.Some? && u.isFollower.Some? && u.seed.None?
    ensures var u := ParsePostFrameUpdate(post);
      && u.frame.Some? && u.playerIndex.Some? && u.isFollower.Some? && u.internalCharacterId.Some?
      && u.selfInducedSpeeds.groundX.None?
  {
  }

  /** A pre-frame update written as command, frame and player index decodes to them. */
  lemma PreFrameUpdateRoundTrip(frame: int32, playerIndex: byte, rest: seq<byte>)
    ensures var u := ParsePreFrameUpdate([Code(PreFrameUpdateCmd)] + ToBigEndian(frame, 4) + [playerIndex] + rest);
      u.frame == Some(frame) && u.playerIndex == Some(playerIndex)
  {
    var p := [Code(PreFrameUpdateCmd)] + ToBigEndian(frame, 4) + [playerIndex] + rest;
    assert p == [Code(PreFrameUpdateCmd)] + ToBigEndian(frame, 4) + ([playerIndex] + rest);
    ReadInt32RoundTrip([Code(PreFrameUpdateCmd)], frame, [playerIndex] + rest);
    assert p[5] == playerIndex;
  }

  // ----- walking the event stream -----

  /** An event handed to the callback: where it starts, its command byte and its payload buffer. */
  datatype Delivered = Delivered(pos: nat, command: byte, payload: seq<byte>)

  /**
   * The state of the IterateEvents loop: the read position, the reused one-byte
   * command buffer and the per-command payload buffers, reused from event to event.
   */
  datatype Scan = Scan(pos: nat, commandByte: byte, buffers: map<byte, seq<byte>>)

  /** Every command of the size table has a buffer of its payload size plus the command byte. */
  predicate Shaped(sizes: map<byte, nat>, buffers: map<byte, seq<byte>>) {
    && buffers.Keys == sizes.Keys
    && forall c :: c in buffers ==> |buffers[c]| == sizes[c] + 1
  }

  /** `new byte[size + 1]` for every command of the table. */
  function FreshBuffers(sizes: map<byte, nat>): (b: map<byte, seq<byte>>)
    ensures Shaped(sizes, b)
  {
    map c | c in sizes :: Zeros(sizes[c] + 1)
  }

  /** The loop's state on entry at `pos`: fresh buffers everywhere. */
  function FreshScan(sizes: map<byte, nat>, pos: nat): Scan {
    Scan(pos, 0, FreshBuffers(sizes))
  }

  /** IterateEvents' first position: `startPos` when it is positive, else the stream's start. */
  function StartOf(startPos: Option<int32>, rawPos: int32): (r: int32)
    ensures startPos.Some? && startPos.value > 0 ==> r == startPos.value
    ensures !(startPos.Some? && startPos.value > 0) ==> r == rawPos
  {
    if startPos.GetOr(0) > 0 then startPos.value else rawPos
  }

  /** `RawDataPosition + RawDataLength`, in int arithmetic. */
  function StopOf(f: SlpFile): int32 {
    Wrap32(f.rawDataPosition as int + f.rawDataLength as int)
  }

  /**
   * One turn of the loop at `s`: none when the loop is left there (the position is
   * at or past the stop, the command byte has no size, or the event does not fit
   * before the stop); otherwise the event delivered and the state after it.
   */
  function Next(bytes: seq<byte>, sizes: map<byte, nat>, stop: int, s: Scan): (r: Option<(Delivered, Scan)>)
    requires Shaped(sizes, s.buffers)
    ensures r.Some? ==>
      && r.value.0.pos == s.pos
      && r.value.0.command in sizes && |r.value.0.payload| == sizes[r.value.0.command] + 1
      && r.value.1.pos == s.pos + |r.value.0.payload| <= stop
      && Shaped(sizes, r.value.1.buffers)
  {
    if s.pos >= stop then None
    else
      var commandByte := ReadInto(bytes, [s.commandByte], s.pos)[0];
      if commandByte !in s.buffers then None
      else
        var buffer := s.buffers[commandByte];
        if |buffer| > stop - s.pos then None
        else
          var payload := ReadInto(bytes, buffer, s.pos);
          Some((Delivered(s.pos, commandByte, payload),
                Scan(s.pos + |payload|, commandByte, s.buffers[commandByte := payload])))
  }

  /**
   * What a turn reads is the file's: the command byte at the position, and the event's
   * bytes where the file holds all of them; a turn that delivers nothing before the
   * stop met a byte naming no command, or an event running past the stop.
   */
  lemma NextReads(bytes: seq<byte>, sizes: map<byte, nat>, stop: int, s: Scan)
    requires Shaped(sizes, s.buffers)
    ensures var r := Next(bytes, sizes, stop, s);
      && (r.Some? && s.pos < |bytes| ==> r.value.0.command == bytes[s.pos])
      && (r.Some? && s.pos + |r.value.0.payload| <= |bytes| ==>
            r.value.0.payload == bytes[s.pos..s.pos + |r.value.0.payload|])
      && (r.None? && s.pos < stop && s.pos < |bytes| ==>
            bytes[s.pos] !in sizes || sizes[bytes[s.pos]] + 1 > stop - s.pos)
  {
    var r := Next(bytes, sizes, stop, s);
    if r.Some? && s.pos + |r.value.0.payload| <= |bytes| {
      var payload := r.value.0.payload;
      forall i | 0 <= i < |payload| ensures payload[i] == bytes[s.pos..s.pos + |payload|][i] { }
    }
  }

  /** The events delivered from some state on, and the position where the loop is left. */
  datatype Walked = Walked(events: seq<Delivered>, end: nat)

  /**
   * Every event the loop delivers from `s` when the callback never asks to stop, and
   * the position it returns.
   */
  function Walk(bytes: seq<byte>, sizes: map<byte, nat>, stop: int, s: Scan): (w: Walked)
    requires Shaped(sizes, s.buffers)
    ensures s.pos <= w.end && (w.end == s.pos || w.end <= stop)
    ensures w.events == [] ==> w.end == s.pos
    decreases stop - s.pos
  {
    match Next(bytes, sizes, stop, s)
    case None => Walked([], s.pos)
    case Some((d, t)) =>
      var w := Walk(bytes, sizes, stop, t);
      Walked([d] + w.events, w.end)
  }

  /** One unfolding of the walk: the event of the first turn, then the walk from the state after it. */
  lemma WalkStep(bytes: seq<byte>, sizes: map<byte, nat>, stop: int, s: Scan)
    requires Shaped(sizes, s.buffers)
    ensures var n := Next(bytes, sizes, stop, s);
      && (n.None? ==> Walk(bytes, sizes, stop, s) == Walked([], s.pos))
      && (n.Some? ==> Walk(bytes, sizes, stop, s)
                        == Walked([n.value.0] + Walk(bytes, sizes, stop, n.value.1).events,
                                  Walk(bytes, sizes, stop, n.value.1).end))
  {
  }

  lemma ConsSuffix<T>(a: seq<T>, x: T, b: seq<T>, k: nat)
    requires a == [x] + b && 0 < k <= |a|
    ensures a[k..] == b[k - 1..]
    ensures k < |a| ==> a[k] == b[k - 1]
  {
  }

  /** The first event of a walk that delivers one, and the state the walk goes on from. */
  lemma WalkFirst(bytes: seq<byte>, sizes: map<byte, nat>, stop: int, s: Scan) returns (d: Delivered, t: Scan)
    requires Shaped(sizes, s.buffers)
    requires Walk(bytes, sizes, stop, s).events != []
    ensures Shaped(sizes, t.buffers)
    ensures Walk(bytes, sizes, stop, s).events == [d] + Walk(bytes, sizes, stop, t).events
    ensures Walk(bytes, sizes, stop, s).end == Walk(bytes, sizes, stop, t).end
    ensures d.pos == s.pos && t.pos == s.pos + |d.payload| > s.pos
  {
    var n := Next(bytes, sizes, stop, s);
    WalkStep(bytes, sizes, stop, s);
    d, t := n.value.0, n.value.1;
  }

  /**
   * `events` cover `start` up to `end` with no gap or overlap: the first starts at
   * `start`, each ends where the next begins, and the last ends at `end`.
   */
  predicate Tiles(events: seq<Delivered>, start: int, end: int)
    decreases |events|
  {
    if events == [] then start == end
    else events[0].pos == start && Tiles(events[1..], events[0].pos + |events[0].payload|, end)
  }

  /** Tiling, event by event. */
  lemma {:induction false} TilesIndex(events: seq<Delivered>, start: int, end: int)
    requires Tiles(events, start, end)
    ensures events != [] ==> events[0].pos == start
    ensures events == [] ==> start == end
    ensures forall i :: 0 <= i < |events| ==>
      events[i].pos + |events[i].payload| == (if i + 1 < |events| then events[i + 1].pos else end)
    decreases |events|
  {
    if events != [] {
      var rest := events[1..];
      assert Tiles(rest, events[0].pos + |events[0].payload|, end);
      TilesIndex(rest, events[0].pos + |events[0].payload|, end);
      forall i | 0 <= i < |events|
        ensures events[i].pos + |events[i].payload| == (if i + 1 < |events| then events[i + 1].pos else end)
      {
        if i > 0 {
          assert events[i] == rest[i - 1];
          if i + 1 < |events| {
            assert events[i + 1] == rest[i];
            assert events[i].pos + |events[i].payload| == events[i + 1].pos;
          } else {
            assert events[i].pos + |events[i].payload| == end;
          }
        } else if |events| > 1 {
          assert events[1] == rest[0];
          assert events[i].pos + |events[i].payload| == events[i + 1].pos;
        } else {
          assert rest == [];
          assert events[i].pos + |events[i].payload| == end;
        }
      }
    }
  }

  /**
   * The delivered events tile the region from the start up to the position where
   * the loop is left.
   */
  lemma {:induction false} WalkTiles(bytes: seq<byte>, sizes: map<byte, nat>, stop: int, s: Scan)
    requires Shaped(sizes, s.buffers)
    ensures Tiles(Walk(bytes, sizes, stop, s).events, s.pos, Walk(bytes, sizes, stop, s).end)
    decreases stop - s.pos
  {
    var w := Walk(bytes, sizes, stop, s);
    if w.events != [] {
      var d, t := WalkFirst(bytes, sizes, stop, s);
      var w' := Walk(bytes, sizes, stop, t);
      WalkTiles(bytes, sizes, stop, t);
      assert w.events[1..] == w'.events;
    }
  }

  /**
   * A delivered event at or after `from` with a command of the table and that
   * command's declared size plus one, ending at or before the stop, and, where the
   * file holds all of it, made of the file's bytes.
   */
  predicate WellDelivered(bytes: seq<byte>, sizes: map<byte, nat>, stop: int, from: int, e: Delivered) {
    && e.command in sizes && |e.payload| == sizes[e.command] + 1
    && from <= e.pos && e.pos + |e.payload| <= stop
    && (e.pos < |bytes| ==> e.command == bytes[e.pos])
    && (e.pos + |e.payload| <= |bytes| ==> e.payload == bytes[e.pos..e.pos + |e.payload|])
  }

  /**
   * Each delivered event has a command of the table and that command's declared size
   * plus one, ends at or before the stop, and, where the file holds all of it, is
   * the file's bytes.
   */
  lemma {:induction false} WalkEvents(bytes: seq<byte>, sizes: map<byte, nat>, stop: int, s: Scan)
    requires Shaped(sizes, s.buffers)
    ensures forall e :: e in Walk(bytes, sizes, stop, s).events ==> WellDelivered(bytes, sizes, stop, s.pos, e)
    decreases stop - s.pos
  {
    var n := Next(bytes, sizes, stop, s);
    WalkStep(bytes, sizes, stop, s);
    NextReads(bytes, sizes, stop, s);
    if n.Some? {
      var d, t := n.value.0, n.value.1;
      var w, w' := Walk(bytes, sizes, stop, s), Walk(bytes, sizes, stop, t);
      WalkEvents(bytes, sizes, stop, t);
      assert w.events == [d] + w'.events;
      assert WellDelivered(bytes, sizes, stop, s.pos, d);
      forall e | e in w.events
        ensures WellDelivered(bytes, sizes, stop, s.pos, e)
      {
        if e != d {
          assert e in w'.events;
        }
      }
    }
  }

  /**
   * Where the loop is left before the stop, the byte there names no command of the
   * table, or its event would run past the stop.
   */
  lemma {:induction false} WalkLeaves(bytes: seq<byte>, sizes: map<byte, nat>, stop: int, s: Scan)
    requires Shaped(sizes, s.buffers)
    ensures var w := Walk(bytes, sizes, stop, s);
      w.end < stop && w.end < |bytes| ==> bytes[w.end] !in sizes || sizes[bytes[w.end]] + 1 > stop - w.end
    decreases stop - s.pos
  {
    var n := Next(bytes, sizes, stop, s);
    WalkStep(bytes, sizes, stop, s);
    NextReads(bytes, sizes, stop, s);
    if n.Some? {
      WalkLeaves(bytes, sizes, stop, n.value.1);
    }
  }

  /**
   * When the whole region lies inside the file, every read is complete, so what the
   * loop delivers does not depend on what the reused buffers held before.
   */
  lemma {:induction false} WalkIgnoresBuffers(bytes: seq<byte>, sizes: map<byte, nat>, stop: int, s1: Scan, s2: Scan)
    requires stop <= |bytes|
    requires s1.pos == s2.pos && Shaped(sizes, s1.buffers) && Shaped(sizes, s2.buffers)
    ensures Walk(bytes, sizes, stop, s1) == Walk(bytes, sizes, stop, s2)
    decreases stop - s1.pos
  {
    var n1, n2 := Next(bytes, sizes, stop, s1), Next(bytes, sizes, stop, s2);
    WalkStep(bytes, sizes, stop, s1);
    WalkStep(bytes, sizes, stop, s2);
    assert n1.Some? <==> n2.Some?;
    if n1.Some? {
      assert n1.value.0 == n2.value.0;
      WalkIgnoresBuffers(bytes, sizes, stop, n1.value.1, n2.value.1);
    }
  }

  /** Resuming a walk at its own start delivers the same events, whatever the buffers hold. */
  lemma WalkResumeHere(bytes: seq<byte>, sizes: map<byte, nat>, stop: int, s: Scan, r: Scan)
    requires stop <= |bytes|
    requires Shaped(sizes, s.buffers) && Shaped(sizes, r.buffers) && r.pos == s.pos
    ensures Walk(bytes, sizes, stop, r) == Walked(Walk(bytes, sizes, stop, s).events[0..], Walk(bytes, sizes, stop, s).end)
  {
    WalkIgnoresBuffers(bytes, sizes, stop, s, r);
    assert Walk(bytes, sizes, stop, s).events[0..] == Walk(bytes, sizes, stop, s).events;
  }

  /**
   * Resuming: a walk started at the position of its k-th event, whatever its
   * buffers hold, delivers exactly that event and the ones after it, and is left at
   * the same position.
   */
  /** Equal event lists and ends make equal walk results; kept apart so the recursive step stays small. */
  lemma SameWalked(a: seq<Delivered>, b: seq<Delivered>, x: nat, y: nat)
    requires a == b && x == y
    ensures Walked(a, x) == Walked(b, y)
  {
  }

  lemma {:induction false} WalkResume(bytes: seq<byte>, sizes: map<byte, nat>, stop: int, s: Scan, k: nat, r: Scan)
    requires stop <= |bytes|
    requires Shaped(sizes, s.buffers) && Shaped(sizes, r.buffers)
    requires k < |Walk(bytes, sizes, stop, s).events|
    requires r.pos == Walk(bytes, sizes, stop, s).events[k].pos
    ensures Walk(bytes, sizes, stop, r) == Walked(Walk(bytes, sizes, stop, s).events[k..], Walk(bytes, sizes, stop, s).end)
    decreases k
  {
    var w := Walk(bytes, sizes, stop, s);
    var d, t := WalkFirst(bytes, sizes, stop, s);
    var w' := Walk(bytes, sizes, stop, t);
    if k == 0 {
      WalkResumeHere(bytes, sizes, stop, s, r);
    } else {
      ConsSuffix(w.events, d, w'.events, k);
      assert k - 1 < |w'.events| && r.pos == w'.events[k - 1].pos;
      WalkResume(bytes, sizes, stop, t, k - 1, r);
      SameWalked(w.events[k..], w'.events[k - 1..], w.end, w'.end);
    }
  }

  // ----- the callback and the loop -----

  /** What the loop hands the callback for an event: its command byte and its decoded payload. */
  function CallOf(d: Delivered, decode: seq<byte> -> string): (byte, Option<EventPayload>) {
    (d.command, ParseMessage(d.command, d.payload, decode))
  }

  /** The payload the callback hands the parser for `d`: its decoded payload, or none when that is null. */
  function Handed(d: Delivered, decode: seq<byte> -> string): seq<EventPayload> {
    var p := CallOf(d, decode).1;
    if p.Some? then [p.value] else []
  }

  /** The payloads the callback hands the parser for `events`, in order: the non-null decoded ones. */
  function Payloads(events: seq<Delivered>, decode: seq<byte> -> string): (r: seq<EventPayload>)
    ensures |r| <= |events|
  {
    if events == [] then []
    else Payloads(events[..|events| - 1], decode) + Handed(events[|events| - 1], decode)
  }

  /** The callback's replies over `n` events: every one false but the last, which is `stopped`. */
  function Replies(n: nat, stopped: bool): (r: seq<bool>)
    ensures |r| == n
    ensures forall i :: 0 <= i < n ==> r[i] == (stopped && i == n - 1)
  {
    seq(n, i requires 0 <= i < n => stopped && i == n - 1)
  }

  /**
   * The callback SlippiGame.Process hands to IterateEvents: an event whose payload
   * decodes to null is passed over; any other goes to the parser, and in
   * settings-only mode the loop is asked to stop once the parser's settings are
   * complete.
   */
  class ProcessCallback {
    const parser: SlpParser.SlpParser
    const settingsOnly: bool
    /** The name decoder the loop decodes payloads with. */
    ghost const decode: seq<byte> -> string
    /** The events the loop has handed over, oldest first. */
    ghost var events: seq<Delivered>
    /** The answers given back to the loop, oldest first (a call that throws gives none). */
    ghost var replies: seq<bool>

    constructor(parser: SlpParser.SlpParser, settingsOnly: bool, ghost decode: seq<byte> -> string)
      ensures this.parser == parser && this.settingsOnly == settingsOnly && this.decode == decode
      ensures events == [] && replies == []
    {
      this.parser := parser;
      this.settingsOnly := settingsOnly;
      this.decode := decode;
      events := [];
      replies := [];
    }

    /** The callback proper, called with the command byte and decoded payload of `event`. */
    method Invoke(ghost event: Delivered, command: byte, payload: Option<EventPayload>) returns (stop: bool, status: Status)
      modifies this, parser
      requires (command, payload) == CallOf(event, decode)
      requires parser.Valid()
      ensures parser.Valid() && parser.Grew()
      ensures events == old(events) + [event]
      ensures parser.handled == old(parser.handled) + Handed(event, decode)
      ensures payload.None? ==> status == Ok && unchanged(parser)
      ensures status == Ok ==> stop == (payload.Some? && settingsOnly && parser.GetSettings().Some?)
      ensures replies == old(replies) + (if status == Ok then [stop] else [])
      ensures status != Ok ==> !stop
    {
      events := events + [event];
      if payload.None? {
        stop, status := false, Ok;
      } else {
        status := parser.HandleCommand(payload.value);
        stop := status == Ok && settingsOnly && parser.GetSettings().Some?;
      }
      if status == Ok {
        replies := replies + [stop];
      }
    }
  }

  /**
   * The reads at the head of a turn of the loop in state `s`: the command byte into
   * the one-byte buffer, then, when that command has a buffer and its event fits
   * before the stop, the event into its buffer. `found` is false where the loop is
   * left; otherwise `s'` is the state after the event.
   */
  method ReadEvent(bytes: seq<byte>, ghost sizes: map<byte, nat>, stop: int32, s: Scan)
      returns (found: bool, command: byte, buffer: seq<byte>, s': Scan)
    requires s.pos < stop as int && Shaped(sizes, s.buffers)
    ensures var n := Next(bytes, sizes, stop as int, s);
      && (found <==> n.Some?)
      && (found ==> n.value == (Delivered(s.pos, command, buffer), s'))
  {
    command := ReadInto(bytes, [s.commandByte], s.pos)[0];
    s' := s;
    if command !in s.buffers {
      return false, command, [], s';
    }
    buffer := s.buffers[command];
    if |buffer| > stop as int - s.pos {
      return false, command, buffer, s';
    }
    buffer := ReadInto(bytes, buffer, s.pos);
    s' := Scan(s.pos + |buffer|, command, s.buffers[command := buffer]);
    found := true;
  }

  /**
   * The states the loop passes through from `s` when the callback never asks to stop:
   * `s` itself, then the state after each event of the walk.
   */
  function Trace(bytes: seq<byte>, sizes: map<byte, nat>, stop: int, s: Scan): (r: seq<Scan>)
    requires Shaped(sizes, s.buffers)
    ensures |r| == |Walk(bytes, sizes, stop, s).events| + 1 && r[0] == s
    decreases stop - s.pos
  {
    match Next(bytes, sizes, stop, s)
    case None => [s]
    case Some((_, t)) => [s] + Trace(bytes, sizes, stop, t)
  }

  /**
   * The k-th turn of a trace `tr` of a walk that delivers `events` and ends at `end`:
   * the k-th state is shaped; a turn in it delivers the k-th event and leads to the
   * next state, or, in the last state, delivers nothing and the walk ends there.
   */
  predicate StepOK(bytes: seq<byte>, sizes: map<byte, nat>, stop: int, tr: seq<Scan>, events: seq<Delivered>, end: nat, k: nat)
    requires |tr| == |events| + 1 && k < |tr|
  {
    && Shaped(sizes, tr[k].buffers)
    && if k < |events| then Next(bytes, sizes, stop, tr[k]) == Some((events[k], tr[k + 1]))
       else Next(bytes, sizes, stop, tr[k]).None? && tr[k].pos == end
  }

  /** `tr` is a trace of a walk that delivers `events` and ends at `end`, turn by turn. */
  predicate TraceOf(bytes: seq<byte>, sizes: map<byte, nat>, stop: int, tr: seq<Scan>, events: seq<Delivered>, end: nat) {
    && |tr| == |events| + 1
    && forall k: nat :: k < |tr| ==> StepOK(bytes, sizes, stop, tr, events, end, k)
  }

  /** The k-th state of the trace from `s` is the state the walk from `s` reaches after k events. */
  lemma {:induction false} TraceStep(bytes: seq<byte>, sizes: map<byte, nat>, stop: int, s: Scan, k: nat)
    requires Shaped(sizes, s.buffers) && k <= |Walk(bytes, sizes, stop, s).events|
    ensures var tr, w := Trace(bytes, sizes, stop, s), Walk(bytes, sizes, stop, s);
      StepOK(bytes, sizes, stop, tr, w.events, w.end, k)
    decreases k
  {
    var tr, w := Trace(bytes, sizes, stop, s), Walk(bytes, sizes, stop, s);
    WalkStep(bytes, sizes, stop, s);
    if k > 0 {
      var t := Next(bytes, sizes, stop, s).value.1;
      var tr', w' := Trace(bytes, sizes, stop, t), Walk(bytes, sizes, stop, t);
      assert tr == [s] + tr' && w.events == [w.events[0]] + w'.events;
      TraceStep(bytes, sizes, stop, t, k - 1);
      StepOKCons(bytes, sizes, stop, s, w.events[0], tr', w'.events, w.end, k);
    }
  }

  /** A turn of a trace is the turn before it in the trace with one more state in front. */
  lemma StepOKCons(bytes: seq<byte>, sizes: map<byte, nat>, stop: int, s: Scan, e: Delivered,
                   tr: seq<Scan>, events: seq<Delivered>, end: nat, k: nat)
    requires |tr| == |events| + 1 && 0 < k <= |tr|
    requires StepOK(bytes, sizes, stop, tr, events, end, k - 1)
    ensures StepOK(bytes, sizes, stop, [s] + tr, [e] + events, end, k)
  {
    assert ([s] + tr)[k] == tr[k - 1];
    if k < |events| + 1 {
      assert ([e] + events)[k] == events[k - 1] && ([s] + tr)[k + 1] == tr[k];
    }
  }

  /** The states the loop passes through from `s` are a trace of the walk from `s`. */
  lemma WalkTrace(bytes: seq<byte>, sizes: map<byte, nat>, stop: int, s: Scan)
    requires Shaped(sizes, s.buffers)
    ensures var w := Walk(bytes, sizes, stop, s);
      TraceOf(bytes, sizes, stop, Trace(bytes, sizes, stop, s), w.events, w.end)
  {
    var tr, w := Trace(bytes, sizes, stop, s), Walk(bytes, sizes, stop, s);
    forall k: nat | k < |tr|
      ensures StepOK(bytes, sizes, stop, tr, w.events, w.end, k)
    {
      TraceStep(bytes, sizes, stop, s, k);
    }
  }

  lemma PayloadsSnoc(events: seq<Delivered>, e: Delivered, decode: seq<byte> -> string)
    ensures Payloads(events + [e], decode) == Payloads(events, decode) + Handed(e, decode)
  {
    assert (events + [e])[..|events|] == events;
  }

  lemma RepliesSnoc(n: nat, last: bool)
    ensures Replies(n + 1, last) == Replies(n, false) + [last]
  {
  }

  /** The body of the loop past the reads: decode the payload and hand it to the callback. */
  method Deliver(cb: ProcessCallback, ghost d: Delivered, command: byte, buffer: seq<byte>, decode: seq<byte> -> string)
      returns (shouldStop: bool, status: Status)
    modifies cb, cb.parser
    requires d.command == command && d.payload == buffer && cb.decode == decode
    requires cb.parser.Valid()
    ensures cb.parser.Valid() && cb.parser.Grew()
    ensures cb.events == old(cb.events) + [d]
    ensures cb.replies == old(cb.replies) + (if status == Ok then [shouldStop] else [])
    ensures status != Ok ==> !shouldStop
    ensures shouldStop ==> cb.settingsOnly && cb.parser.GetSettings().Some?
    ensures cb.parser.handled == old(cb.parser.handled) + Handed(d, decode)
  {
    var parsedPayload := ParseMessage(command, buffer, decode);
    shouldStop, status := cb.Invoke(d, command, parsedPayload);
  }

  /**
   * One turn of the loop in `state`, the k-th state of a trace `tr` of a walk that
   * delivers `events`: read the next event and, when there is one, decode it and hand
   * it to the callback. `found` is false exactly when the walk has no k-th event, and
   * then the walk ends at the state's position; otherwise the k-th event is handed
   * over and `state'` is the next state of the trace.
   */
  method Turn(f: SlpFile, cb: ProcessCallback, decode: seq<byte> -> string, stop: int32, state: Scan,
              ghost tr: seq<Scan>, ghost events: seq<Delivered>, ghost end: nat, ghost k: nat)
      returns (found: bool, shouldStop: bool, status: Status, state': Scan)
    modifies cb, cb.parser
    requires TraceOf(f.bytes, f.messageSizes, stop as int, tr, events, end)
    requires k < |tr| && state == tr[k] && state.pos < stop as int
    requires cb.parser.Valid() && cb.decode == decode
    ensures cb.parser.Valid()
    ensures found <==> k < |events|
    ensures !found ==> && end == state.pos && cb.events == old(cb.events) && cb.replies == old(cb.replies)
                       && status == Ok && !shouldStop
    ensures found ==> && state.pos < state'.pos <= stop as int && events[k].pos == state.pos
                      && cb.events == old(cb.events) + [events[k]] && state' == tr[k + 1]
                      && cb.replies == old(cb.replies) + (if status == Ok then [shouldStop] else [])
                      && (status != Ok ==> !shouldStop)
                      && cb.parser.handled == old(cb.parser.handled) + Handed(events[k], decode)
    ensures !found ==> cb.parser.handled == old(cb.parser.handled)
    ensures shouldStop ==> cb.settingsOnly && cb.parser.GetSettings().Some?
  {
    assert StepOK(f.bytes, f.messageSizes, stop as int, tr, events, end, k);
    var command, buffer;
    found, command, buffer, state' := ReadEvent(f.bytes, f.messageSizes, stop, state);
    if !found {
      return found, false, Ok, state';
    }
    shouldStop, status := Deliver(cb, Delivered(state.pos, command, buffer), command, buffer, decode);
  }

  /**
   * The loop of IterateEvents, from the first state of a trace `tr` of a walk that
   * delivers `events` and ends at `end`, while the position is before `stop`: each
   * event is handed to the callback in turn. The events handed over are a prefix of
   * the walk's events; the loop is left at `end` once all are handed over, or, when the
   * callback asks to stop, at the start of the event it stopped on. An exception from
   * the callback ends the loop and propagates.
   */
  method IterateRange(f: SlpFile, cb: ProcessCallback, decode: seq<byte> -> string, start: int32, stop: int32,
                      ghost tr: seq<Scan>, ghost events: seq<Delivered>, ghost end: nat)
      returns (readPosition: int32, status: Status, ghost delivered: nat, ghost stopped: bool)
    modifies cb, cb.parser
    requires 0 <= start
    requires TraceOf(f.bytes, f.messageSizes, stop as int, tr, events, end)
    requires tr[0] == FreshScan(f.messageSizes, start as nat)
    requires cb.parser.Valid() && cb.decode == decode
    ensures cb.parser.Valid()
    ensures delivered <= |events|
    ensures cb.events == old(cb.events) + events[..delivered]
    ensures status == Ok && !stopped ==> delivered == |events| && readPosition as int == end
    ensures status == Ok && stopped ==> 0 < delivered && readPosition as int == events[delivered - 1].pos
    ensures status == Ok ==> cb.replies == old(cb.replies) + Replies(delivered, stopped)
    ensures status != Ok ==> 0 < delivered && !stopped && cb.replies == old(cb.replies) + Replies(delivered - 1, false)
    ensures stopped ==> cb.settingsOnly && cb.parser.GetSettings().Some?
    ensures cb.parser.handled == old(cb.parser.handled) + Payloads(events[..delivered], decode)
  {
    readPosition := start;
    // the read position, the one-byte command buffer and the payload buffers
    var state := FreshScan(f.messageSizes, start as nat);
    delivered, stopped, status := 0, false, Ok;
    while readPosition < stop
      invariant delivered <= |events|
      invariant state == tr[delivered] && state.pos == readPosition as int
      invariant cb.parser.Valid()
      invariant cb.events == old(cb.events) + events[..delivered]
      invariant cb.replies == old(cb.replies) + Replies(delivered, false)
      invariant cb.parser.handled == old(cb.parser.handled) + Payloads(events[..delivered], decode)
      invariant status == Ok && !stopped
      decreases stop - readPosition
    {
      var found, shouldStop;
      found, shouldStop, status, state := Turn(f, cb, decode, stop, state, tr, events, end, delivered);
      if !found {
        return;
      }
      TakeSnoc(events, delivered);
      AppendAssoc(old(cb.events), events[..delivered], [events[delivered]]);
      PayloadsSnoc(events[..delivered], events[delivered], decode);
      AppendAssoc(old(cb.parser.handled), Payloads(events[..delivered], decode), Handed(events[delivered], decode));
      delivered := delivered + 1;
      if status != Ok {
        return;
      }
      AppendAssoc(old(cb.replies), Replies(delivered - 1, false), [shouldStop]);
      RepliesSnoc(delivered - 1, shouldStop);
      if shouldStop {
        stopped := true;
        return;
      }
      readPosition := state.pos as int32;
    }
    assert StepOK(f.bytes, f.messageSizes, stop as int, tr, events, end, delivered);
  }

  /**
   * IterateEvents: walks the event stream from `startPos` (when positive) or the
   * stream's start up to `RawDataPosition + RawDataLength`, handing each event to the
   * callback, and returns where it left off. The events handed over are a prefix of
   * the walk's events; the walk ends with the position it is left at, or, when the
   * callback asks to stop, with the start of the event it stopped on. An exception
   * from the callback ends the loop and propagates, so the returned position then
   * means nothing.
   */
  method IterateEvents(f: SlpFile, cb: ProcessCallback, startPos: Option<int32>, decode: seq<byte> -> string)
      returns (readPosition: int32, status: Status, ghost delivered: nat, ghost stopped: bool)
    modifies cb, cb.parser
    requires 0 <= f.rawDataPosition
    requires cb.parser.Valid() && cb.decode == decode
    ensures cb.parser.Valid()
    ensures var w := Walk(f.bytes, f.messageSizes, StopOf(f),
                          FreshScan(f.messageSizes, StartOf(startPos, f.rawDataPosition)));
      && delivered <= |w.events|
      && cb.events == old(cb.events) + w.events[..delivered]
      && (status == Ok && !stopped ==> delivered == |w.events| && readPosition as int == w.end)
      && (status == Ok && stopped ==> 0 < delivered && readPosition as int == w.events[delivered - 1].pos)
      && (status == Ok ==> cb.replies == old(cb.replies) + Replies(delivered, stopped))
      && (status != Ok ==> 0 < delivered && !stopped && cb.replies == old(cb.replies) + Replies(delivered - 1, false))
      && cb.parser.handled == old(cb.parser.handled) + Payloads(w.events[..delivered], decode)
    ensures stopped ==> cb.settingsOnly && cb.parser.GetSettings().Some?
  {
    var start, stop := StartOf(startPos, f.rawDataPosition), StopOf(f);
    ghost var s0 := FreshScan(f.messageSizes, start as nat);
    ghost var w := Walk(f.bytes, f.messageSizes, stop as int, s0);
    WalkTrace(f.bytes, f.messageSizes, stop as int, s0);
    readPosition, status, delivered, stopped :=
      IterateRange(f, cb, decode, start, stop, Trace(f.bytes, f.messageSizes, stop as int, s0), w.events, w.end);
  }
}
