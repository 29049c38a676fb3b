/** Modbus RTU frames: address, function, data and a CRC-16, low byte first. */
module ModbusRtu {
  import opened Types
  import opened ByteOrder
  import opened ShiftRegister
  import Crc16

  const MIN_ADU_SIZE: nat := 4
  const MAX_ADU_SIZE: nat := 256
  const MAX_DATA_SIZE: nat := 252
  const MIN_SLAVE_ADDRESS: nat := 1
  const MAX_SLAVE_ADDRESS: nat := 247
  const EXCEPTION_MASK: nat := 0x80

  datatype Status =
    | Ok | BufferTooSmall | LengthError | AddressError | FunctionError | CrcError | VersionError | SubfunctionError
    | StatusCodeError | FlagsError | PayloadTooLarge | PayloadLengthMismatch

  datatype Frame = Frame(address: byte, func: byte, data: seq<byte>)

  function CheckAddress(address: byte): Status {
    if address < MIN_SLAVE_ADDRESS || address > MAX_SLAVE_ADDRESS then AddressError else Ok
  }

  /** Why a frame cannot be encoded into this much room, in the order of the checks. */
  function EncodeCheck(frame: Frame, capacity: nat): Status {
    if CheckAddress(frame.address) != Ok then AddressError
    else if frame.func == 0 then FunctionError
    else if |frame.data| > MAX_DATA_SIZE then LengthError
    else if capacity < |frame.data| + MIN_ADU_SIZE then BufferTooSmall
    else Ok
  }

  function Body(frame: Frame): seq<byte> { [frame.address, frame.func] + frame.data }

  /** The bytes on the line. */
  function Adu(frame: Frame): (adu: seq<byte>)
    ensures |adu| == |frame.data| + MIN_ADU_SIZE
  {
    Body(frame) + Write16(Crc16.Value(Body(frame)))
  }

  function DecodeCheck(input: seq<byte>): Status {
    var n := |input|;
    if n < MIN_ADU_SIZE || n > MAX_ADU_SIZE then LengthError
    else if CheckAddress(input[0]) != Ok then AddressError
    else if input[1] == 0 then FunctionError
    else if Crc16.Value(input[..n - 2]) != Read16(input, n - 2) then CrcError
    else Ok
  }

  function FrameIn(input: seq<byte>): Frame
    requires |input| >= MIN_ADU_SIZE
  {
    Frame(input[0], input[1], input[2..|input| - 2])
  }

  // ---- The buffer routines ----

  method Encode(frame: Frame, output: array<byte>) returns (status: Status, length: nat)
    modifies output
    ensures status == EncodeCheck(frame, output.Length)
    ensures status == Ok ==> length == |Adu(frame)| <= output.Length && output[..length] == Adu(frame) &&
                             forall j | length <= j < output.Length :: output[j] == old(output[j])
    ensures status != Ok ==> output[..] == old(output[..])
  {
    length := 0;
    status := CheckAddress(frame.address);
    if status != Ok { return; }
    if frame.func == 0 { return FunctionError, length; }
    if |frame.data| > MAX_DATA_SIZE { return LengthError, length; }
    var aduLength := |frame.data| + MIN_ADU_SIZE;
    if output.Length < aduLength { return BufferTooSmall, length; }

    output[0] := frame.address;
    output[1] := frame.func;
    var index := 0;
    while index < |frame.data|
      invariant 0 <= index <= |frame.data|
      invariant output[..2 + index] == [frame.address, frame.func] + frame.data[..index]
      invariant forall j | aduLength <= j < output.Length :: output[j] == old(output[j])
    {
      output[2 + index] := frame.data[index];
      index := index + 1;
    }
    assert frame.data[..index] == frame.data;
    var crc := Crc16.Calculate(output, 2 + |frame.data|);
    output[2 + |frame.data|] := crc % 0x100;
    output[3 + |frame.data|] := crc / 0x100;
    assert output[..2 + |frame.data|] == Body(frame);
    length := aduLength;
  }

  method Decode(input: array<byte>, length: nat) returns (status: Status, frame: Frame)
    requires length <= input.Length
    ensures status == DecodeCheck(input[..length])
    ensures status == Ok ==> frame == FrameIn(input[..length])
  {
    frame := Frame(0, 0, []);
    if length < MIN_ADU_SIZE || length > MAX_ADU_SIZE { return LengthError, frame; }
    status := CheckAddress(input[0]);
    if status != Ok { return; }
    if input[1] == 0 { return FunctionError, frame; }
    var calculated := Crc16.Calculate(input, length - 2);
    var received: u16 := input[length - 2] as int + 0x100 * input[length - 1] as int;
    assert input[..length][..length - 2] == input[..length - 2];
    if calculated != received { return CrcError, frame; }
    var data: seq<byte> := [];
    var index := 0;
    while index < length - MIN_ADU_SIZE
      invariant 0 <= index <= length - MIN_ADU_SIZE
      invariant data == input[2..2 + index]
    {
      data := data + [input[2 + index]];
      index := index + 1;
    }
    frame := Frame(input[0], input[1], data);
  }

  // ---- Bijection ----

  lemma Read16End(data: seq<byte>)
    requires |data| >= 2
    ensures data == data[..|data| - 2] + Write16(Read16(data, |data| - 2))
  {
  }

  /** Decoding what was encoded gives the frame back. */
  lemma DecodeOfEncode(frame: Frame, capacity: nat)
    requires EncodeCheck(frame, capacity) == Ok
    ensures DecodeCheck(Adu(frame)) == Ok && FrameIn(Adu(frame)) == frame
  {
    var adu := Adu(frame);
    assert adu[..|adu| - 2] == Body(frame);
    Read16Write16(Body(frame), Crc16.Value(Body(frame)), []);
    assert adu == Body(frame) + Write16(Crc16.Value(Body(frame))) + [];
    assert adu[2..|adu| - 2] == frame.data;
  }

  /** Bytes that decode are exactly the bytes their frame encodes to. */
  lemma EncodeOfDecode(input: seq<byte>, capacity: nat)
    requires DecodeCheck(input) == Ok && capacity >= |input|
    ensures EncodeCheck(FrameIn(input), capacity) == Ok && Adu(FrameIn(input)) == input
  {
    assert Body(FrameIn(input)) == input[..|input| - 2];
    Read16End(input);
  }

  /** Exactly which bytes are a frame: 4 to 256 of them, from a slave address, with a function, closed by their CRC. */
  lemma DecodesExactly(input: seq<byte>)
    ensures DecodeCheck(input) == Ok <==>
              && 4 <= |input| <= 256 && 1 <= input[0] <= 247 && input[1] != 0
              && input[|input| - 2..] == [Crc16.Value(input[..|input| - 2]) % 0x100, Crc16.Value(input[..|input| - 2]) / 0x100]
  {
    hide Crc16.Value;
    if |input| >= 2 {
      var n := |input|;
      var crc := Crc16.Value(input[..n - 2]);
      assert input[n - 2..] == [input[n - 2], input[n - 1]];
      assert Read16(input, n - 2) == crc <==> input[n - 2] == crc % 0x100 && input[n - 1] == crc / 0x100;
    }
  }

  // ---- Error detection ----

  lemma ValidMeansNoResidue(input: seq<byte>)
    requires |input| >= MIN_ADU_SIZE
    ensures Crc16.Value(input[..|input| - 2]) == Read16(input, |input| - 2) <==> Crc16.Residue(input) == 0
  {
    var n := |input|;
    Crc16.ResidueOfFrame(input[..n - 2], input[n - 2], input[n - 1]);
    assert input == input[..n - 2] + [input[n - 2], input[n - 1]];
  }

  /**
   * A frame that differs from an encoded one by a burst of at most 16 bits in serial order never
   * decodes.
   */
  lemma BurstNeverDecodes(frame: Frame, capacity: nat, received: seq<byte>, s: nat)
    requires EncodeCheck(frame, capacity) == Ok && |received| == |Adu(frame)|
    requires IsBurst(XorBits(FrameBits(Adu(frame)), FrameBits(received)), s, 16)
    ensures DecodeCheck(received) != Ok
  {
    DecodeOfEncode(frame, capacity);
    ValidMeansNoResidue(Adu(frame));
    ValidMeansNoResidue(received);
    Crc16.BurstChangesResidue(Adu(frame), received, s);
  }

  // ---- Exceptions ----

  predicate IsRequestFunction(func: byte) { func != 0 && func / EXCEPTION_MASK % 2 == 0 }

  function ExceptionFrame(address: byte, requestFunction: byte, code: byte): Option<Frame> {
    if !IsRequestFunction(requestFunction) then None
    else Some(Frame(address, requestFunction + EXCEPTION_MASK, [code]))
  }

  function ExceptionCode(frame: Frame, requestFunction: byte): (Status, byte) {
    if !IsRequestFunction(requestFunction) || frame.func != requestFunction + EXCEPTION_MASK then (FunctionError, 0)
    else if |frame.data| != 1 then (LengthError, 0)
    else (Ok, frame.data[0])
  }

  /** An exception for a function is recognised as one, with its code, and only for that function. */
  lemma ExceptionRoundTrip(address: byte, requested: byte, code: byte, capacity: nat, expected: byte)
    requires ExceptionFrame(address, requested, code).Some?
    requires EncodeCheck(ExceptionFrame(address, requested, code).value, capacity) == Ok
    ensures var adu := Adu(ExceptionFrame(address, requested, code).value);
            && DecodeCheck(adu) == Ok
            && (expected == requested ==> ExceptionCode(FrameIn(adu), expected) == (Ok, code))
            && (expected != requested ==> ExceptionCode(FrameIn(adu), expected).0 == FunctionError)
  {
    DecodeOfEncode(ExceptionFrame(address, requested, code).value, capacity);
    hide Adu;
  }
}
