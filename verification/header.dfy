/** The fixed 16-byte message header of the networking layer.

    Layout (all multi-byte fields big-endian, as written by `htons`/`htonl`):
      byte 0        magic
      byte 1        type
      bytes 2..5    id
      bytes 6..7    body type
      bytes 8..10   body size (24 bits)
      byte 11       extension count
      bytes 12..13  total extension length
      bytes 14..15  CRC-16 of bytes 0..13

    The buffer is a byte sequence; the parser is a set of pure reads and the
    builder a set of pure updates returning the new buffer. */
module Header {
  import opened Wrappers
  import Crc16

  /** `kMagic` and `kByteSize` come from protocol.h, which is not part of
      this model. The size is the 16 bytes the layout above fills; the magic
      value is a stand-in, and no property below depends on its value. */
  const kMagic: bv8 := 0x4C
  const kByteSize: nat := 16
  /** The CRC covers this many leading bytes (a literal in the source). */
  const kCrcSpan: nat := 14

  type Buffer = seq<bv8>

  /** A buffer that holds exactly one header. */
  predicate Sized(buf: Buffer) {
    |buf| == kByteSize
  }

  /** `a` and `b` agree on every byte outside `[lo, hi)`. */
  predicate SameOutside(a: Buffer, b: Buffer, lo: nat, hi: nat) {
    |a| == |b| && forall i | 0 <= i < |a| && !(lo <= i < hi) :: a[i] == b[i]
  }

  // ---------------------------------------------------------------------
  // Big-endian layout of 16- and 32-bit values

  function Be16(v: bv16): (r: seq<bv8>)
    ensures |r| == 2
  {
    [(v >> 8) as bv8, (v & 0xFF) as bv8]
  }

  function FromBe16(hi: bv8, lo: bv8): bv16 {
    ((hi as bv16) << 8) | (lo as bv16)
  }

  function Be32(v: bv32): (r: seq<bv8>)
    ensures |r| == 4
  {
    [(v >> 24) as bv8, ((v >> 16) & 0xFF) as bv8, ((v >> 8) & 0xFF) as bv8, (v & 0xFF) as bv8]
  }

  function FromBe32(b0: bv8, b1: bv8, b2: bv8, b3: bv8): bv32 {
    ((b0 as bv32) << 24) | ((b1 as bv32) << 16) | ((b2 as bv32) << 8) | (b3 as bv32)
  }

  /** Reading back a big-endian 16-bit value gives the value; and two bytes
      are the layout of their reading. */
  lemma Be16RoundTrip(v: bv16, hi: bv8, lo: bv8)
    ensures FromBe16(Be16(v)[0], Be16(v)[1]) == v
    ensures Be16(FromBe16(hi, lo)) == [hi, lo]
  {
  }

  lemma Be32RoundTrip(v: bv32, b0: bv8, b1: bv8, b2: bv8, b3: bv8)
    ensures FromBe32(Be32(v)[0], Be32(v)[1], Be32(v)[2], Be32(v)[3]) == v
    ensures Be32(FromBe32(b0, b1, b2, b3)) == [b0, b1, b2, b3]
  {
  }

  // ---------------------------------------------------------------------
  // Header::Parser

  /** The big-endian CRC stored in the last two bytes. */
  function StoredCrc(buf: Buffer): bv16
    requires Sized(buf)
  {
    FromBe16(buf[kByteSize - 2], buf[kByteSize - 1])
  }

  /** `Parser::IsValid`: the magic byte is right, and the stored CRC equals
      the CRC recomputed over bytes 0..13. */
  predicate IsValid(buf: Buffer)
    requires Sized(buf)
  {
    buf[0] == kMagic && Crc16.Checksum(buf[..kCrcSpan]) == StoredCrc(buf)
  }

  function Type(buf: Buffer): bv8
    requires Sized(buf)
  {
    buf[1]
  }

  function Id(buf: Buffer): bv32
    requires Sized(buf)
  {
    FromBe32(buf[2], buf[3], buf[4], buf[5])
  }

  function BodyType(buf: Buffer): bv16
    requires Sized(buf)
  {
    FromBe16(buf[6], buf[7])
  }

  /** Reads the four bytes 8..11 as one big-endian word and drops the low
      byte (which is the extension count), leaving a 24-bit value. */
  function BodySize(buf: Buffer): (r: bv32)
    requires Sized(buf)
    ensures r < 0x100_0000
  {
    FromBe32(buf[8], buf[9], buf[10], buf[11]) >> 8
  }

  function ExtCount(buf: Buffer): bv8
    requires Sized(buf)
  {
    buf[11]
  }

  function ExtLen(buf: Buffer): bv16
    requires Sized(buf)
  {
    FromBe16(buf[12], buf[13])
  }

  /** `IsValid` fails exactly when the magic byte differs or the stored CRC
      differs from the recomputed one. */
  lemma IsValidCases(buf: Buffer)
    requires Sized(buf)
    ensures buf[0] != kMagic ==> !IsValid(buf)
    ensures Crc16.Checksum(buf[..kCrcSpan]) != StoredCrc(buf) ==> !IsValid(buf)
    ensures buf[0] == kMagic && Crc16.Checksum(buf[..kCrcSpan]) == StoredCrc(buf) ==> IsValid(buf)
  {
  }

  /** An independent characterisation of validity: the magic byte is right
      and the CRC register over the whole 16 bytes comes out zero. */
  lemma {:induction false} ValidIffZeroResidue(buf: Buffer)
    requires Sized(buf)
    ensures IsValid(buf) <==> buf[0] == kMagic && Crc16.Checksum(buf) == 0
  {
    assert buf == buf[..kCrcSpan] + [buf[14], buf[15]];
    Crc16.ResidueOfMessage(buf[..kCrcSpan], buf[14], buf[15]);
    var c := Crc16.Checksum(buf[..kCrcSpan]);
    Be16RoundTrip(c, buf[14], buf[15]);
  }

  // ---------------------------------------------------------------------
  // Header::Builder

  /** `Builder::Build`: stamps the magic byte, then stores the CRC of bytes
      0..13 (magic included) big-endian in the last two bytes. */
  function Build(buf: Buffer): (r: Buffer)
    requires Sized(buf)
    ensures Sized(r) && IsValid(r)
    ensures r[1..kCrcSpan] == buf[1..kCrcSpan]
    ensures Type(r) == Type(buf) && Id(r) == Id(buf) && BodyType(r) == BodyType(buf)
    ensures BodySize(r) == BodySize(buf) && ExtCount(r) == ExtCount(buf) && ExtLen(r) == ExtLen(buf)
    ensures IsValid(buf) ==> r == buf
  {
    var stamped := buf[0 := kMagic];
    var crc := Crc16.Checksum(stamped[..kCrcSpan]);
    var r := stamped[..kByteSize - 2] + Be16(crc);
    assert r[..kCrcSpan] == stamped[..kCrcSpan];
    Be16RoundTrip(crc, 0, 0);
    r
  }

  /** `Builder::set_type`: byte 1. */
  function SetType(buf: Buffer, t: bv8): (r: Buffer)
    requires Sized(buf)
    ensures Sized(r) && Type(r) == t
    ensures SameOutside(buf, r, 1, 2)
  {
    buf[1 := t]
  }

  /** `Builder::set_id`: bytes 2..5, big-endian. */
  function SetId(buf: Buffer, id: bv32): (r: Buffer)
    requires Sized(buf)
    ensures Sized(r) && Id(r) == id
    ensures SameOutside(buf, r, 2, 6)
  {
    Be32RoundTrip(id, 0, 0, 0, 0);
    buf[..2] + Be32(id) + buf[6..]
  }

  /** `Builder::set_body_type`: bytes 6..7, big-endian. */
  function SetBodyType(buf: Buffer, bodyType: bv16): (r: Buffer)
    requires Sized(buf)
    ensures Sized(r) && BodyType(r) == bodyType
    ensures SameOutside(buf, r, 6, 8)
  {
    Be16RoundTrip(bodyType, 0, 0);
    buf[..6] + Be16(bodyType) + buf[8..]
  }

  /** `Builder::set_body_size`: writes `body_size << 8` (a 32-bit shift, so
      the top byte is lost) big-endian over bytes 8..11, then puts back the
      extension count it saved from byte 11. Only the low 24 bits survive. */
  function SetBodySize(buf: Buffer, bodySize: bv32): (r: Buffer)
    requires Sized(buf)
    ensures Sized(r) && BodySize(r) == bodySize & 0xFF_FFFF
    ensures bodySize < 0x100_0000 ==> BodySize(r) == bodySize
    ensures ExtCount(r) == ExtCount(buf)
    ensures SameOutside(buf, r, 8, 11)
  {
    var saved := buf[11];
    var written := buf[..8] + Be32(bodySize << 8) + buf[12..];
    var w := Be32(bodySize << 8);
    var r := written[11 := saved];
    assert r[8] == w[0] && r[9] == w[1] && r[10] == w[2] && r[11] == saved;
    BodySizeWord(bodySize, saved);
    assert BodySize(r) == bodySize & 0xFF_FFFF;
    r
  }

  /** The 24-bit field read back after `set_body_size`, whatever the
      preserved low byte holds. */
  lemma BodySizeWord(bodySize: bv32, low: bv8)
    ensures var w := Be32(bodySize << 8);
      FromBe32(w[0], w[1], w[2], low) >> 8 == bodySize & 0xFF_FFFF
    ensures bodySize < 0x100_0000 ==> bodySize & 0xFF_FFFF == bodySize
  {
  }

  /** `Builder::set_ext_count`: byte 11 only. */
  function SetExtCount(buf: Buffer, extCount: bv8): (r: Buffer)
    requires Sized(buf)
    ensures Sized(r) && ExtCount(r) == extCount
    ensures BodySize(r) == BodySize(buf)
    ensures SameOutside(buf, r, 11, 12)
  {
    buf[11 := extCount]
  }

  /** `Builder::set_ext_len`: bytes 12..13, big-endian. */
  function SetExtLen(buf: Buffer, extLen: bv16): (r: Buffer)
    requires Sized(buf)
    ensures Sized(r) && ExtLen(r) == extLen
    ensures SameOutside(buf, r, 12, 14)
  {
    Be16RoundTrip(extLen, 0, 0);
    buf[..12] + Be16(extLen) + buf[14..]
  }

  /** Reading the 24-bit field and writing it back restores bytes 8..10. */
  lemma BodySizeRewrite(b8: bv8, b9: bv8, b10: bv8, b11: bv8)
    ensures var w := Be32((FromBe32(b8, b9, b10, b11) >> 8) << 8);
      w[0] == b8 && w[1] == b9 && w[2] == b10
  {
  }

  /** `Build` looks only at bytes 1..13 of its input. */
  lemma BuildDependsOnlyOnFields(a: Buffer, b: Buffer)
    requires Sized(a) && Sized(b)
    requires a[1..kCrcSpan] == b[1..kCrcSpan]
    ensures Build(a) == Build(b)
  {
    var sa := a[0 := kMagic];
    var sb := b[0 := kMagic];
    assert sa[..kCrcSpan] == sb[..kCrcSpan] by {
      forall i | 0 <= i < kCrcSpan
        ensures sa[i] == sb[i]
      {
        if i > 0 {
          assert a[1..kCrcSpan][i - 1] == b[1..kCrcSpan][i - 1];
        }
      }
    }
    assert sa[..kByteSize - 2] == sb[..kByteSize - 2];
  }

  // ---------------------------------------------------------------------
  // The header as a record of fields

  /** The fields a header carries, at the widths of the builder's setters. */
  datatype Fields = Fields(
    msgType: bv8,
    id: bv32,
    bodyType: bv16,
    bodySize: bv32,
    extCount: bv8,
    extLen: bv16)

  /** The body size fits the 24-bit field. */
  predicate Representable(f: Fields) {
    f.bodySize < 0x100_0000
  }

  function Blank(): (r: Buffer)
    ensures Sized(r)
  {
    seq(kByteSize, _ => 0)
  }

  /** Every setter applied in turn to a zeroed buffer; each field reads
      back as written, the body size cut to 24 bits. */
  function SetAll(f: Fields): (r: Buffer)
    ensures Sized(r)
    ensures Type(r) == f.msgType && Id(r) == f.id && BodyType(r) == f.bodyType
    ensures BodySize(r) == f.bodySize & 0xFF_FFFF
    ensures ExtCount(r) == f.extCount && ExtLen(r) == f.extLen
  {
    var b1 := SetType(Blank(), f.msgType);
    var b2 := SetId(b1, f.id);
    var b3 := SetBodyType(b2, f.bodyType);
    var b4 := SetBodySize(b3, f.bodySize);
    var b5 := SetExtCount(b4, f.extCount);
    var b6 := SetExtLen(b5, f.extLen);
    assert Type(b6) == f.msgType by {
      assert b6[1] == b5[1] == b4[1] == b3[1] == b2[1] == b1[1];
    }
    assert Id(b6) == f.id by {
      assert b6[2..6] == b5[2..6] == b4[2..6] == b3[2..6] == b2[2..6];
    }
    assert BodyType(b6) == f.bodyType by {
      assert b6[6..8] == b5[6..8] == b4[6..8];
    }
    assert BodySize(b6) == f.bodySize & 0xFF_FFFF by {
      assert b6[8..12] == b5[8..12];
    }
    b6
  }

  /** A header written the way a sender does it: every setter, then `Build`. */
  function Encode(f: Fields): (r: Buffer)
    ensures Sized(r) && IsValid(r)
  {
    Build(SetAll(f))
  }

  /** A header read the way a receiver does it: `IsValid`, then every getter. */
  function Parse(buf: Buffer): (r: Option<Fields>)
    requires Sized(buf)
    ensures r.Some? <==> IsValid(buf)
    ensures r.Some? ==> Representable(r.value)
  {
    if IsValid(buf) then
      Some(Fields(Type(buf), Id(buf), BodyType(buf), BodySize(buf), ExtCount(buf), ExtLen(buf)))
    else
      None
  }

  /** Every field written comes back from the parser; a body size wider
      than 24 bits comes back truncated to its low 24 bits. */
  lemma ParseEncode(f: Fields)
    ensures Parse(Encode(f)) == Some(f.(bodySize := f.bodySize & 0xFF_FFFF))
    ensures Representable(f) ==> Parse(Encode(f)) == Some(f)
  {
    var r := Encode(f);
    assert r == Build(SetAll(f));
    var g := Fields(Type(r), Id(r), BodyType(r), BodySize(r), ExtCount(r), ExtLen(r));
    assert Parse(r) == Some(g);
    assert g == f.(bodySize := f.bodySize & 0xFF_FFFF);
    BodySizeWord(f.bodySize, 0);
  }

  /** Every valid header is the encoding of the fields parsed from it: the
      sixteen bytes hold nothing the fields do not determine. */
  lemma EncodeParse(buf: Buffer)
    requires Sized(buf) && IsValid(buf)
    ensures Parse(buf).Some? && Encode(Parse(buf).value) == buf
  {
    var f := Parse(buf).value;
    var b := SetAll(f);
    Be32RoundTrip(0, buf[2], buf[3], buf[4], buf[5]);
    Be16RoundTrip(0, buf[6], buf[7]);
    Be16RoundTrip(0, buf[12], buf[13]);
    BodySizeRewrite(buf[8], buf[9], buf[10], buf[11]);
    assert b[1..kCrcSpan] == buf[1..kCrcSpan] by {
      FieldsDetermineBytes(b, buf);
    }
    BuildDependsOnlyOnFields(b, buf);
  }

  /** Two buffers whose fields read the same agree on bytes 1..13. */
  lemma FieldsDetermineBytes(a: Buffer, b: Buffer)
    requires Sized(a) && Sized(b)
    requires Type(a) == Type(b) && Id(a) == Id(b) && BodyType(a) == BodyType(b)
    requires BodySize(a) == BodySize(b) && ExtCount(a) == ExtCount(b) && ExtLen(a) == ExtLen(b)
    ensures a[1..kCrcSpan] == b[1..kCrcSpan]
  {
    Be32RoundTrip(0, a[2], a[3], a[4], a[5]);
    Be32RoundTrip(0, b[2], b[3], b[4], b[5]);
    Be16RoundTrip(0, a[6], a[7]);
    Be16RoundTrip(0, b[6], b[7]);
    Be16RoundTrip(0, a[12], a[13]);
    Be16RoundTrip(0, b[12], b[13]);
    BodySizeRewrite(a[8], a[9], a[10], a[11]);
    BodySizeRewrite(b[8], b[9], b[10], b[11]);
  }
}
