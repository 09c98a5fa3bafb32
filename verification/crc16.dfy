/** CRC-16 with the ITU-T V.41 polynomial 0x1021, initial register 0xFFFF,
    no reflection and no final XOR (the parameters of boost's
    `crc_ccitt_type`, also known as CRC-16/CCITT-FALSE), computed bitwise
    over bytes. */
module Crc16 {

  const Poly: bv16 := 0x1021
  const Init: bv16 := 0xFFFF

  /** One register shift: multiply by x modulo the polynomial. */
  function Shift(c: bv16): bv16 {
    if c & 0x8000 != 0 then (c << 1) ^ Poly else c << 1
  }

  /** Feeds one byte, most significant bit first, into the register. */
  function Step(c: bv16, b: bv8): bv16 {
    var x := c ^ ((b as bv16) << 8);
    Shift(Shift(Shift(Shift(Shift(Shift(Shift(Shift(x))))))))
  }

  /** The register after feeding `data` into a register holding `c`. */
  function Feed(c: bv16, data: seq<bv8>): bv16
    decreases |data|
  {
    if |data| == 0 then c else Feed(Step(c, data[0]), data[1..])
  }

  /** The checksum boost's `crc_ccitt_type` reports after `process_bytes`. */
  function Checksum(data: seq<bv8>): bv16 {
    Feed(Init, data)
  }

  function HighByte(c: bv16): bv8 { (c >> 8) as bv8 }
  function LowByte(c: bv16): bv8 { (c & 0xFF) as bv8 }

  /** Feeding a concatenation is feeding its parts one after the other. */
  lemma {:induction false} FeedAppend(c: bv16, a: seq<bv8>, b: seq<bv8>)
    ensures Feed(c, a + b) == Feed(Feed(c, a), b)
    decreases |a|
  {
    if |a| == 0 {
      assert a + b == b;
    } else {
      assert (a + b)[1..] == a[1..] + b;
      FeedAppend(Step(c, a[0]), a[1..], b);
    }
  }

  /** The residue property of a CRC without final XOR: feeding the register's
      own value, high byte first, clears it, and no other pair of bytes does. */
  lemma Residue(c: bv16, hi: bv8, lo: bv8)
    ensures Step(Step(c, hi), lo) == 0 <==> hi == HighByte(c) && lo == LowByte(c)
  {
  }

  /** Feeding a message followed by its checksum, high byte first, leaves a
      zero register; any other two trailing bytes leave a non-zero one. */
  lemma {:induction false} ResidueOfMessage(data: seq<bv8>, hi: bv8, lo: bv8)
    ensures Checksum(data + [hi, lo]) == 0
        <==> hi == HighByte(Checksum(data)) && lo == LowByte(Checksum(data))
  {
    var c := Checksum(data);
    FeedAppend(Init, data, [hi, lo]);
    assert [hi, lo] == [hi] + [lo];
    FeedCons(c, hi, [lo]);
    assert [lo] == [lo] + [];
    FeedCons(Step(c, hi), lo, []);
    Residue(c, hi, lo);
  }

  lemma CheckSteps()
    ensures Step(0xFFFF, 0x31) == 0xC782
    ensures Step(0xC782, 0x32) == 0x3DBA
    ensures Step(0x3DBA, 0x33) == 0x5BCE
    ensures Step(0x5BCE, 0x34) == 0x5349
    ensures Step(0x5349, 0x35) == 0x4560
    ensures Step(0x4560, 0x36) == 0x2EF4
    ensures Step(0x2EF4, 0x37) == 0x7718
    ensures Step(0x7718, 0x38) == 0xA12B
    ensures Step(0xA12B, 0x39) == 0x29B1
  {
  }

  lemma FeedCons(c: bv16, b: bv8, rest: seq<bv8>)
    ensures Feed(c, [b] + rest) == Feed(Step(c, b), rest)
  {
    assert ([b] + rest)[1..] == rest;
  }

  lemma {:induction false} CheckTail(d: seq<bv8>, c: bv16)
    requires d == [0x37, 0x38, 0x39] && c == 0x2EF4
    ensures Feed(c, d) == 0x29B1
  {
    CheckSteps();
    assert d[3..] == [];
    assert d[2..] == [d[2]] + d[3..];
    FeedCons(0xA12B, d[2], d[3..]);
    assert d[1..] == [d[1]] + d[2..];
    FeedCons(0x7718, d[1], d[2..]);
    assert d == [d[0]] + d[1..];
    FeedCons(c, d[0], d[1..]);
  }

  lemma {:induction false} CheckMiddle(d: seq<bv8>, c: bv16)
    requires d == [0x34, 0x35, 0x36, 0x37, 0x38, 0x39] && c == 0x5BCE
    ensures Feed(c, d) == 0x29B1
  {
    CheckSteps();
    CheckTail(d[3..], 0x2EF4);
    assert d[2..] == [d[2]] + d[3..];
    FeedCons(0x4560, d[2], d[3..]);
    assert d[1..] == [d[1]] + d[2..];
    FeedCons(0x5349, d[1], d[2..]);
    assert d == [d[0]] + d[1..];
    FeedCons(c, d[0], d[1..]);
  }

  /** The standard check value of CRC-16/CCITT-FALSE: the checksum of the
      ASCII digits "123456789" is 0x29B1. This pins the polynomial, the
      initial register and the bit order. */
  lemma {:induction false} CheckValue(d: seq<bv8>)
    requires d == [0x31, 0x32, 0x33, 0x34, 0x35, 0x36, 0x37, 0x38, 0x39]
    ensures Checksum(d) == 0x29B1
  {
    CheckSteps();
    CheckMiddle(d[3..], 0x5BCE);
    assert d[2..] == [d[2]] + d[3..];
    FeedCons(0x3DBA, d[2], d[3..]);
    assert d[1..] == [d[1]] + d[2..];
    FeedCons(0xC782, d[1], d[2..]);
    assert d == [d[0]] + d[1..];
    FeedCons(Init, d[0], d[1..]);
  }
}
