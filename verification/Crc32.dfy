/**
 * The CRC-32 used for images, records and package headers (reflected, 0xEDB88320): its byte and
 * bit loops and the polynomial arithmetic they carry out.
 */
module Crc32 {
  import opened Types
  import opened ExclusiveOr
  import opened ShiftRegister

  const POLYNOMIAL: u32 := 0xEDB8_8320
  const INITIAL: u32 := 0xFFFF_FFFF

  lemma IsThirtyTwoBits()
    ensures Pow2(32) == 0x1_0000_0000 && IsGenerator(POLYNOMIAL, 32)
  {
    assert Pow2(8) == 0x100;
    assert Pow2(16) == 0x1_0000;
    assert Pow2(24) == 0x100_0000;
  }

  /** The register after the bytes. */
  function Register(crc: u32, data: seq<byte>): u32 {
    IsThirtyTwoBits();
    UpdateFits(POLYNOMIAL, 32, crc, data);
    Update(POLYNOMIAL, crc, data)
  }

  /** The final complement, as the word that is stored and compared. */
  function Finish(crc: u32): u32 { 0xFFFF_FFFF - crc }

  function Value(data: seq<byte>): u32 {
    Finish(Register(INITIAL, data))
  }

  /** Feeding a stream in two pieces is feeding it at once. */
  lemma RegisterConcat(crc: u32, a: seq<byte>, b: seq<byte>)
    ensures Register(crc, a + b) == Register(Register(crc, a), b)
  {
    hide Update;
    UpdateConcat(POLYNOMIAL, crc, a, b);
  }

  lemma RegisterOfNothing(crc: u32)
    ensures Register(crc, []) == crc
  {
  }

  /** The byte and bit loops of every CRC-32 in the system. */
  method UpdateLoop(start: u32, data: seq<byte>) returns (crc: u32)
    ensures crc == Register(start, data)
  {
    hide Xor, Pow2;
    IsThirtyTwoBits();
    hide IsGenerator;
    crc := start;
    var byteIndex := 0;
    while byteIndex < |data|
      invariant 0 <= byteIndex <= |data|
      invariant Update(POLYNOMIAL, crc, data[byteIndex..]) == Register(start, data)
    {
      assert data[byteIndex..][1..] == data[byteIndex + 1..];
      ByteStepFits(POLYNOMIAL, 32, crc, data[byteIndex]);
      ghost var before := crc;
      crc := Xor(crc, data[byteIndex]);
      var bitIndex := 0;
      while bitIndex < 8
        invariant 0 <= bitIndex <= 8
        invariant Shifts(POLYNOMIAL, crc, 8 - bitIndex) == ByteStep(POLYNOMIAL, before, data[byteIndex])
      {
        assert Shifts(POLYNOMIAL, crc, 8 - bitIndex) == Shifts(POLYNOMIAL, Shift(POLYNOMIAL, crc), 7 - bitIndex);
        ShiftFits(POLYNOMIAL, 32, crc);
        if crc % 2 != 0 {
          crc := Xor(crc / 2, POLYNOMIAL);
        } else {
          crc := crc / 2;
        }
        bitIndex := bitIndex + 1;
      }
      byteIndex := byteIndex + 1;
    }
  }

  // ---- What the value is ----

  /**
   * The generator polynomial of IEEE 802.3, from the highest power down: x^32 + x^26 + x^23 + x^22 +
   * x^16 + x^12 + x^11 + x^10 + x^8 + x^7 + x^5 + x^4 + x^2 + x + 1.
   */
  function Polynomial(): (g: seq<bool>)
    ensures |g| == 33
  {
    [true, false, false, false, false, false, true, false, false, true, true, false, false, false, false, false, true,
     false, false, false, true, true, true, false, true, true, false, true, true, false, true, true, true]
  }

  lemma GeneratorPolynomial()
    ensures Generator(POLYNOMIAL, 32) == Polynomial()
  {
    hide BitsOf;
    LowerNibbles();
    UpperNibbles();
  }

  lemma LowerNibbles()
    ensures BitsOf(0xEDB8_8320, 32) == [false, false, false, false, false, true, false, false,
                                        true, true, false, false, false, false, false, true] + BitsOf(0xEDB8, 16)
  {
    hide BitsOf;
    NibbleOf(0xEDB8_8320, 32);
    NibbleOf(0xEDB_8832, 28);
    NibbleOf(0xED_B883, 24);
    NibbleOf(0xE_DB88, 20);
    assert BitsOf(0xEDB8_8320, 32) ==
           [false, false, false, false] + ([false, true, false, false] + ([true, true, false, false] +
           ([false, false, false, true] + BitsOf(0xEDB8, 16))));
  }

  lemma UpperNibbles()
    ensures BitsOf(0xEDB8, 16) == [false, false, false, true, true, true, false, true,
                                   true, false, true, true, false, true, true, true]
  {
    hide BitsOf;
    NibbleOf(0xEDB8, 16);
    NibbleOf(0xEDB, 12);
    NibbleOf(0xED, 8);
    NibbleOf(0xE, 4);
    assert BitsOf(0, 0) == [];
    assert BitsOf(0xEDB8, 16) ==
           [false, false, false, true] + ([true, true, false, true] + ([true, false, true, true] + ([false, true, true, true] + [])));
  }

  /**
   * A word is the CRC of the data if and only if the serial bits of the data and of the complemented
   * word, the first thirty-two of them flipped, are a multiple of the generator polynomial.
   */
  lemma ValueCompletesMultiple(data: seq<byte>, crc: u32)
    ensures Value(data) == crc <==>
              MultipleOf(Flipped(FrameBits(data) + BitsOf(0xFFFF_FFFF - crc, 32), seq(32, (_: nat) => true)),
                         Polynomial())
  {
    hide BitsOf, FrameBits, Update, Flipped, MultipleOf, Generator, Polynomial, IsGenerator;
    IsThirtyTwoBits();
    OnesAreSet(32);
    hide Pow2;
    GeneratorPolynomial();
    RegisterCompletesMultiple(POLYNOMIAL, 32, INITIAL, data, 0xFFFF_FFFF - crc);
  }

  // ---- Pieces ----

  function Concat(chunks: seq<seq<byte>>): seq<byte> {
    if chunks == [] then [] else chunks[0] + Concat(chunks[1..])
  }

  function RegisterOfChunks(crc: u32, chunks: seq<seq<byte>>): u32
    decreases |chunks|
  {
    if chunks == [] then crc else RegisterOfChunks(Register(crc, chunks[0]), chunks[1..])
  }

  /** Any chunking of an image gives the CRC of the single pass. */
  lemma {:induction false} ChunkingIsIrrelevant(crc: u32, chunks: seq<seq<byte>>)
    ensures RegisterOfChunks(crc, chunks) == Register(crc, Concat(chunks))
    decreases |chunks|
  {
    hide Register;
    if chunks == [] {
      RegisterOfNothing(crc);
    } else {
      ChunkingIsIrrelevant(Register(crc, chunks[0]), chunks[1..]);
      RegisterConcat(crc, chunks[0], Concat(chunks[1..]));
    }
  }
}
