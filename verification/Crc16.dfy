/**
 * The CRC-16 of Modbus (reflected, 0xA001): its byte and bit loops, the polynomial arithmetic they
 * carry out, and why the CRC detects every error burst of at most 16 bits.
 */
module Crc16 {
  import opened Types
  import opened ExclusiveOr
  import opened ShiftRegister

  const INITIAL: u16 := 0xFFFF
  const POLYNOMIAL: u16 := 0xA001

  lemma IsSixteenBits()
    ensures Pow2(16) == 0x1_0000 && IsGenerator(POLYNOMIAL, 16)
  {
    assert Pow2(4) == 16;
    assert Pow2(8) == 256;
    assert Pow2(12) == 4096;
  }

  function Value(data: seq<byte>): u16 {
    IsSixteenBits();
    UpdateFits(POLYNOMIAL, 16, INITIAL, data);
    Update(POLYNOMIAL, INITIAL, data)
  }

  method Calculate(data: array<byte>, length: nat) returns (crc: u16)
    requires length <= data.Length
    ensures crc == Value(data[..length])
  {
    hide Xor, Pow2;
    IsSixteenBits();
    hide IsGenerator;
    crc := INITIAL;
    var byteIndex := 0;
    while byteIndex < length
      invariant 0 <= byteIndex <= length
      invariant Update(POLYNOMIAL, crc, data[byteIndex..length]) == Value(data[..length])
    {
      assert data[byteIndex..length][1..] == data[byteIndex + 1..length];
      ByteStepFits(POLYNOMIAL, 16, crc, data[byteIndex]);
      ghost var before := crc;
      crc := Xor(crc, data[byteIndex]);
      var bitIndex := 0;
      while bitIndex < 8
        invariant 0 <= bitIndex <= 8
        invariant Shifts(POLYNOMIAL, crc, 8 - bitIndex) == ByteStep(POLYNOMIAL, before, data[byteIndex])
      {
        assert Shifts(POLYNOMIAL, crc, 8 - bitIndex) == Shifts(POLYNOMIAL, Shift(POLYNOMIAL, crc), 7 - bitIndex);
        ShiftFits(POLYNOMIAL, 16, crc);
        if crc % 2 != 0 {
          crc := Xor(crc / 2, POLYNOMIAL);
        } else {
          crc := crc / 2;
        }
        bitIndex := bitIndex + 1;
      }
      byteIndex := byteIndex + 1;
    }
  }

  // ---- What the value is ----

  /** x^16 + x^15 + x^2 + 1, from the highest power down. */
  function Polynomial(): (g: seq<bool>)
    ensures |g| == 17
  {
    [true, true, false, false, false, false, false, false, false, false, false, false, false, false, true, false, true]
  }

  lemma GeneratorPolynomial()
    ensures Generator(POLYNOMIAL, 16) == Polynomial()
  {
    hide BitsOf;
    NibbleOf(0xA001, 16);
    NibbleOf(0xA00, 12);
    NibbleOf(0xA0, 8);
    NibbleOf(0xA, 4);
    assert BitsOf(0, 0) == [];
    var none := [false, false, false, false];
    assert BitsOf(0xA001, 16) == [true, false, false, false] + (none + (none + ([false, true, false, true] + [])));
  }

  /**
   * A word is the CRC of the data if and only if the serial bits of data and word, the first sixteen
   * of them flipped, are a multiple of x^16 + x^15 + x^2 + 1.
   */
  lemma ValueCompletesMultiple(data: seq<byte>, crc: u16)
    ensures Value(data) == crc <==>
              MultipleOf(Flipped(FrameBits(data) + BitsOf(crc, 16), seq(16, (_: nat) => true)),
                         Polynomial())
  {
    hide BitsOf, FrameBits, Update, Flipped, MultipleOf, Generator, Polynomial, IsGenerator;
    IsSixteenBits();
    OnesAreSet(16);
    hide Pow2;
    GeneratorPolynomial();
    RegisterCompletesMultiple(POLYNOMIAL, 16, INITIAL, data, crc);
  }

  // ---- Frames ----

  /** The register over a whole frame, CRC included. */
  function Residue(frame: seq<byte>): nat { Update(POLYNOMIAL, INITIAL, frame) }

  /** A frame ends in its CRC, low byte first, exactly if its residue is zero. */
  lemma ResidueOfFrame(data: seq<byte>, low: byte, high: byte)
    ensures Residue(data + [low, high]) == 0 <==> Value(data) == low + 0x100 * high
  {
    hide BitsOf, FrameBits, Feed, Update;
    var w := low + 0x100 * high;
    IsSixteenBits();
    hide Pow2, IsGenerator;
    ZeroExactlyAfterRegister(POLYNOMIAL, 16, INITIAL, data, w);
    UpdateIsFeed(POLYNOMIAL, INITIAL, data + [low, high]);
    FrameEndsInWord(data, low, high);
  }

  lemma {:induction false} FrameEndsInWord(data: seq<byte>, low: byte, high: byte)
    ensures FrameBits(data + [low, high]) == FrameBits(data) + BitsOf(low + 0x100 * high, 16)
  {
    hide BitsOf;
    if data == [] {
      TwoBytesAreAWord(low, high);
      assert data + [low, high] == [low, high];
    } else {
      assert (data + [low, high])[1..] == data[1..] + [low, high];
      FrameEndsInWord(data[1..], low, high);
    }
  }

  lemma TwoBytesAreAWord(low: byte, high: byte)
    ensures FrameBits([low, high]) == BitsOf(low + 0x100 * high, 16)
  {
    assert Pow2(8) == 0x100;
    BitsSplit(low, high, 8);
    assert [low, high][1..] == [high] && [high][1..] == [];
    assert FrameBits([high]) == BitsOf(high, 8);
  }

  lemma Doubled(p: nat, n: nat)
    ensures 2 * p * n == 2 * (p * n)
  {
  }

  lemma {:induction false} BitsSplit(low: nat, high: nat, k: nat)
    requires low < Pow2(k)
    ensures BitsOf(low + Pow2(k) * high, k + 8) == BitsOf(low, k) + BitsOf(high, 8)
  {
    if k > 0 {
      var w := low + Pow2(k) * high;
      Doubled(Pow2(k - 1), high);
      assert w == low + 2 * (Pow2(k - 1) * high);
      assert w % 2 == low % 2 && w / 2 == low / 2 + Pow2(k - 1) * high;
      BitsSplit(low / 2, high, k - 1);
    }
  }

  /** Two frames of one length whose difference is a burst of at most 16 bits cannot both be valid. */
  lemma BurstChangesResidue(f: seq<byte>, g: seq<byte>, s: nat)
    requires |f| == |g| && IsBurst(XorBits(FrameBits(f), FrameBits(g)), s, 16)
    requires Residue(f) == 0
    ensures Residue(g) != 0
  {
    var a, b := FrameBits(f), FrameBits(g);
    UpdateIsFeed(POLYNOMIAL, INITIAL, f);
    UpdateIsFeed(POLYNOMIAL, INITIAL, g);
    FeedIsLinear(POLYNOMIAL, INITIAL, INITIAL, a, b);
    WithItself(INITIAL);
    IsSixteenBits();
    BurstShows(POLYNOMIAL, 16, XorBits(a, b), s);
    WithZero(0);
    hide Xor, Feed;
  }
}
