/** The CRC of program-specific information (ISO/IEC 13818-1, Annex A), as a 32-bit shift register. */
module Crc32 {
  import opened Binary
  import opened Bytes

  /** The register, most significant bit first. */
  type Register = r: seq<bool> | |r| == 32 witness seq(32, i => false)

  type Bits8 = b: seq<bool> | |b| == 8 witness seq(8, i => false)

  function Ones(): Register { seq(32, i => true) }
  function Zeros(): Register { seq(32, i => false) }

  /** The generator polynomial without its leading term. */
  const GENERATOR: nat := 0x04c11db7

  function Generator(): Register { Digits(GENERATOR, 32) }

  /** Its terms are x^26, x^23, x^22, x^16, x^12, x^11, x^10, x^8, x^7, x^5, x^4, x^2, x and 1. */
  lemma GeneratorTerms()
    ensures forall i :: 0 <= i < 32 ==>
      Generator()[i] == (31 - i in {26, 23, 22, 16, 12, 11, 10, 8, 7, 5, 4, 2, 1, 0})
  {
    hide Digits;
    LeadingDigits(0x04c1, 0x1db7);
    DigitsOf04c1();
    DigitsOf1db7();
  }

  lemma GeneratorIsNumber()
    ensures Value(Generator()) == 0x04c1_1db7
  {
    WidePowers();
    ValueOfDigits(GENERATOR, 32);
  }

  /** A number's digits, cut after the first sixteen. */
  lemma {:induction false} DigitsCut(high: nat, low: nat, n: nat)
    requires low < Power(n)
    ensures Digits(high * Power(n) + low, 16 + n) == Digits(high, 16) + Digits(low, n)
  {
    var v := high * Power(n) + low;
    if n == 0 {
      assert v == high;
    } else {
      var p := Power(n - 1);
      assert v == 2 * (high * p) + low;
      assert v / 2 == high * p + low / 2 && v % 2 == low % 2;
      DigitsCut(high, low / 2, n - 1);
    }
  }

  lemma LeadingDigits(high: nat, low: nat)
    requires low < 0x1_0000
    ensures Digits(high * 0x1_0000 + low, 32) == Digits(high, 16) + Digits(low, 16)
  {
    WidePowers();
    DigitsCut(high, low, 16);
  }

  lemma DigitsOf04c1()
    ensures Digits(0x04c1, 16) == [false, false, false, false, false, true, false, false,
                                   true, true, false, false, false, false, false, true]
  {
    assert Digits(0x04, 8) == [false, false, false, false, false, true, false, false];
  }

  lemma DigitsOf1db7()
    ensures Digits(0x1db7, 16) == [false, false, false, true, true, true, false, true,
                                   true, false, true, true, false, true, true, true]
  {
    assert Digits(0x1d, 8) == [false, false, false, true, true, true, false, true];
  }

  function BitsOf(b: Byte): Bits8 { Digits(b, 8) }

  function ByteOf(b: Bits8): Byte
  {
    ValueInRange(b);
    Value(b)
  }

  /** crc ^ (byte << 24) */
  function AddByte(r: Register, b: Bits8): Register
  {
    seq(32, i requires 0 <= i < 32 => if i < 8 then r[i] != b[i] else r[i])
  }

  function ShiftOnce(r: Register): Register
  {
    var shifted := r[1..] + [false];
    if r[0] then seq(32, i requires 0 <= i < 32 => shifted[i] != Generator()[i]) else shifted
  }

  function ShiftTimes(r: Register, n: nat): Register
  {
    if n == 0 then r else ShiftOnce(ShiftTimes(r, n - 1))
  }

  function Absorb(r: Register, b: Byte): Register { ShiftTimes(AddByte(r, BitsOf(b)), 8) }

  function CrcFrom(r: Register, data: seq<Byte>): Register
  {
    if data == [] then r else Absorb(CrcFrom(r, data[..|data| - 1]), data[|data| - 1])
  }

  function Crc(data: seq<Byte>): Register { CrcFrom(Ones(), data) }

  /** The register as four bytes, big-endian. */
  function ToBytes(r: Register): seq<Byte>
  {
    [ByteOf(r[0..8]), ByteOf(r[8..16]), ByteOf(r[16..24]), ByteOf(r[24..32])]
  }

  method ComputeCrc(data: seq<Byte>) returns (crc: Register)
    ensures crc == Crc(data)
  {
    crc := Ones();
    assert data[..0] == [];
    for i := 0 to |data|
      invariant crc == Crc(data[..i])
    {
      assert data[..i + 1][..i] == data[..i];
      ghost var added := AddByte(crc, BitsOf(data[i]));
      crc := AddByte(crc, BitsOf(data[i]));
      for bit := 0 to 8
        invariant crc == ShiftTimes(added, bit)
      {
        crc := ShiftOnce(crc);
      }
    }
    assert data[..|data|] == data;
  }

  // ---------------------------------------------------------------- bit by bit

  /** One bit into the shift register of Annex A: it is added to the bit shifted out, and that feeds back. */
  function Feed(r: Register, bit: bool): Register
  {
    var shifted := r[1..] + [false];
    if r[0] != bit then seq(32, i requires 0 <= i < 32 => shifted[i] != Generator()[i]) else shifted
  }

  function FeedAll(r: Register, bits: seq<bool>): Register
  {
    if bits == [] then r else Feed(FeedAll(r, bits[..|bits| - 1]), bits[|bits| - 1])
  }

  /** The bits of a byte string, most significant first. */
  function Stream(data: seq<Byte>): seq<bool>
  {
    if data == [] then [] else Stream(data[..|data| - 1]) + BitsOf(data[|data| - 1])
  }

  /** Adds up to eight bits to the leading ones of the register. */
  function AddBits(r: Register, bits: seq<bool>): Register
    requires |bits| <= 8
  {
    seq(32, i requires 0 <= i < 32 => if i < |bits| then r[i] != bits[i] else r[i])
  }

  lemma FeedStep(r: Register, bits: seq<bool>)
    requires 0 < |bits| <= 8
    ensures ShiftOnce(AddBits(r, bits)) == AddBits(Feed(r, bits[0]), bits[1..])
  {
    hide Generator;
  }

  lemma {:induction false} ShiftingIsFeeding(r: Register, b: Bits8, n: nat)
    requires n <= 8
    ensures ShiftTimes(AddByte(r, b), n) == AddBits(FeedAll(r, b[..n]), b[n..])
  {
    hide ShiftOnce, Feed;
    if n == 0 {
      assert AddByte(r, b) == AddBits(r, b);
      assert b[0..] == b;
    } else {
      ShiftingIsFeeding(r, b, n - 1);
      FeedStep(FeedAll(r, b[..n - 1]), b[n - 1..]);
      assert b[n - 1..][1..] == b[n..];
      assert b[..n][..n - 1] == b[..n - 1];
    }
  }

  lemma {:induction false} FeedConcat(r: Register, a: seq<bool>, b: seq<bool>)
    ensures FeedAll(r, a + b) == FeedAll(FeedAll(r, a), b)
  {
    hide Feed;
    if b == [] {
      assert a + b == a;
    } else {
      FeedConcat(r, a, b[..|b| - 1]);
      assert (a + b)[..|a + b| - 1] == a + b[..|b| - 1];
    }
  }

  /** Taking in a byte at once and shifting eight times is feeding its bits one by one. */
  lemma {:induction false} CrcIsSerial(r: Register, data: seq<Byte>)
    ensures CrcFrom(r, data) == FeedAll(r, Stream(data))
  {
    hide Feed, ShiftTimes, BitsOf;
    if data != [] {
      var init, last := data[..|data| - 1], BitsOf(data[|data| - 1]);
      CrcIsSerial(r, init);
      FeedConcat(r, Stream(init), last);
      ShiftingIsFeeding(FeedAll(r, Stream(init)), last, 8);
      assert last[..8] == last && last[8..] == [];
    }
  }

  // ---------------------------------------------------------------- the residue

  lemma BitsOfByteOf(b: Bits8)
    ensures BitsOf(ByteOf(b)) == b
  {
    DigitsOfValue(b);
  }

  /** A register that starts with n zeros only loses them. */
  lemma {:induction false} ShiftOutZeros(r: Register, n: nat)
    requires n <= 8 && forall i :: 0 <= i < n ==> !r[i]
    ensures ShiftTimes(r, n) == r[n..] + seq(n, i => false)
  {
    if n > 0 {
      ShiftOutZeros(r, n - 1);
    }
  }

  /** Absorbing the register's own leading byte shifts that byte out. */
  lemma AbsorbLeadingByte(r: Register)
    ensures Absorb(r, ByteOf(r[0..8])) == r[8..] + seq(8, i => false)
  {
    hide ShiftTimes, ByteOf, BitsOf;
    BitsOfByteOf(r[0..8]);
    var added := AddByte(r, r[0..8]);
    ShiftOutZeros(added, 8);
    assert added[8..] == r[8..];
  }

  lemma {:induction false} CrcFromConcat(r: Register, a: seq<Byte>, b: seq<Byte>)
    ensures CrcFrom(r, a + b) == CrcFrom(CrcFrom(r, a), b)
  {
    hide Absorb;
    if b == [] {
      assert a + b == a;
    } else {
      CrcFromConcat(r, a, b[..|b| - 1]);
      assert (a + b)[..|a + b| - 1] == a + b[..|b| - 1];
    }
  }

  lemma CrcOfFour(r: Register, a: Byte, b: Byte, c: Byte, d: Byte)
    ensures CrcFrom(r, [a, b, c, d]) == Absorb(Absorb(Absorb(Absorb(r, a), b), c), d)
  {
    hide Absorb;
    assert [a, b, c, d][..3] == [a, b, c] && [a, b, c][..2] == [a, b] && [a, b][..1] == [a] && [a][..0] == [];
    assert CrcFrom(r, [a]) == Absorb(r, a);
    assert CrcFrom(r, [a, b]) == Absorb(CrcFrom(r, [a]), b);
    assert CrcFrom(r, [a, b, c]) == Absorb(CrcFrom(r, [a, b]), c);
  }

  lemma OwnBytesClear(r: Register)
    ensures CrcFrom(r, ToBytes(r)) == Zeros()
  {
    hide Absorb, ByteOf, CrcFrom;
    var z := seq(8, i => false);
    CrcOfFour(r, ByteOf(r[0..8]), ByteOf(r[8..16]), ByteOf(r[16..24]), ByteOf(r[24..32]));
    AbsorbLeadingByte(r);
    var r1: Register := r[8..] + z;
    assert r1[0..8] == r[8..16];
    AbsorbLeadingByte(r1);
    var r2: Register := r1[8..] + z;
    assert r2[0..8] == r[16..24];
    AbsorbLeadingByte(r2);
    var r3: Register := r2[8..] + z;
    assert r3[0..8] == r[24..32];
    AbsorbLeadingByte(r3);
    assert r3 == r[24..] + z + z + z;
    assert r3[8..] + z == z + z + z + z;
    assert z + z + z + z == Zeros();
  }

  /** Data followed by its own CRC leaves the register at zero: the receiver's check. */
  lemma CrcResidueIsZero(data: seq<Byte>)
    ensures Crc(data + ToBytes(Crc(data))) == Zeros()
  {
    hide CrcFrom, ToBytes;
    CrcFromConcat(Ones(), data, ToBytes(Crc(data)));
    OwnBytesClear(Crc(data));
  }

  /** As Annex A puts it: the serial register, set to ones and fed the data and its CRC, ends at zero. */
  lemma DecoderEndsAtZero(data: seq<Byte>)
    ensures FeedAll(Ones(), Stream(data + ToBytes(Crc(data)))) == Zeros()
  {
    hide CrcFrom, ToBytes, FeedAll, Stream;
    CrcResidueIsZero(data);
    CrcIsSerial(Ones(), data + ToBytes(Crc(data)));
  }
}
