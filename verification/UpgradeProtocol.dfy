/** The upgrade messages inside a Modbus frame with a private function code. */
module UpgradeProtocol {
  import opened Types
  import opened ByteOrder
  import opened ModbusRtu
  import Messages

  const FUNCTION_CODE: byte := 0x41
  const PROTOCOL_VERSION: byte := 1
  const HEADER_SIZE: nat := 18
  const LAST_STATUS: u16 := 13

  type WirePayload = p: seq<byte> | |p| < 0x1_0000 witness []

  /** A message as the codec sees it; flags in a request, a status in a response. */
  datatype Message = Message(
    subfunction: byte, version: byte, flagsOrStatus: u16, session: u32, seqno: u32, offset: u32, payload: WirePayload)

  predicate SubfunctionIsValid(code: byte) {
    code in {0x01, 0x02, 0x03, 0x10, 0x11, 0x12, 0x13, 0x14, 0x15, 0x16, 0x20}
  }

  function ValidateMessage(m: Message, response: bool): Status {
    if m.version != PROTOCOL_VERSION then VersionError
    else if !SubfunctionIsValid(m.subfunction) then SubfunctionError
    else if |m.payload| > MAX_PAYLOAD then PayloadTooLarge
    else if response then if m.flagsOrStatus > LAST_STATUS then StatusCodeError else Ok
    else if m.flagsOrStatus != 0 then FlagsError
    else Ok
  }

  function Header(m: Message): (h: seq<byte>)
    ensures |h| == HEADER_SIZE
  {
    [m.subfunction, m.version] + Write16(m.flagsOrStatus) + Write32(m.session) + Write32(m.seqno) + Write32(m.offset)
    + Write16(|m.payload|)
  }

  function FrameOf(address: byte, m: Message): Frame {
    Frame(address, FUNCTION_CODE, Header(m) + m.payload)
  }

  function EncodeMessageCheck(address: byte, m: Message, response: bool, capacity: nat): Status {
    if ValidateMessage(m, response) != Ok then ValidateMessage(m, response)
    else EncodeCheck(FrameOf(address, m), capacity)
  }

  /** The message bytes on the line. */
  function Wire(address: byte, m: Message): seq<byte> { Adu(FrameOf(address, m)) }

  function MessageIn(data: seq<byte>): Message
    requires HEADER_SIZE <= |data| < HEADER_SIZE + 0x1_0000
  {
    Message(data[0], data[1], Read16(data, 2), Read32(data, 4), Read32(data, 8), Read32(data, 12), data[HEADER_SIZE..])
  }

  function DecodeMessageCheck(input: seq<byte>, response: bool): Status {
    if DecodeCheck(input) != Ok then DecodeCheck(input)
    else
      var frame := FrameIn(input);
      if frame.func != FUNCTION_CODE then FunctionError
      else if |frame.data| < HEADER_SIZE then LengthError
      else if Read16(frame.data, 16) > MAX_PAYLOAD then PayloadTooLarge
      else if |frame.data| != HEADER_SIZE + Read16(frame.data, 16) then PayloadLengthMismatch
      else ValidateMessage(MessageIn(frame.data), response)
  }

  // ---- The buffer routines ----

  method EncodeMessage(address: byte, m: Message, response: bool, output: array<byte>) returns (status: Status, length: nat)
    modifies output
    ensures status == EncodeMessageCheck(address, m, response, output.Length)
    ensures status == Ok ==> length == |Wire(address, m)| <= output.Length && output[..length] == Wire(address, m)
    ensures status != Ok ==> output[..] == old(output[..])
  {
    status := ValidateMessage(m, response);
    if status != Ok { return status, 0; }
    var data := new byte[MAX_DATA_SIZE];
    WriteHeader(m, data);
    var index := 0;
    while index < |m.payload|
      invariant 0 <= index <= |m.payload|
      invariant data[..HEADER_SIZE] == Header(m)
      invariant data[HEADER_SIZE..HEADER_SIZE + index] == m.payload[..index]
      invariant output[..] == old(output[..])
    {
      data[HEADER_SIZE + index] := m.payload[index];
      index := index + 1;
    }
    hide Header, Adu;
    var frame := Frame(address, FUNCTION_CODE, data[..HEADER_SIZE + |m.payload|]);
    assert frame.data == data[..HEADER_SIZE] + data[HEADER_SIZE..HEADER_SIZE + index];
    assert frame == FrameOf(address, m);
    status, length := Encode(frame, output);
  }

  method WriteHeader(m: Message, data: array<byte>)
    requires data.Length >= HEADER_SIZE && |m.payload| <= MAX_PAYLOAD
    modifies data
    ensures data[..HEADER_SIZE] == Header(m)
  {
    hide Write16, Write32;
    data[0] := m.subfunction;
    data[1] := m.version;
    WriteLe16(data, 2, m.flagsOrStatus);
    WriteLe32(data, 4, m.session);
    WriteLe32(data, 8, m.seqno);
    WriteLe32(data, 12, m.offset);
    WriteLe16(data, 16, |m.payload|);
    assert data[2..4] == Write16(m.flagsOrStatus) && data[4..8] == Write32(m.session) && data[8..12] == Write32(m.seqno);
    assert data[..HEADER_SIZE] == data[..2] + data[2..4] + data[4..8] + data[8..12] + data[12..16] + data[16..18];
  }

  method DecodeMessage(input: array<byte>, length: nat, response: bool) returns (status: Status, address: byte, m: Message)
    requires length <= input.Length
    ensures status == DecodeMessageCheck(input[..length], response)
    ensures status == Ok ==> address == FrameIn(input[..length]).address && m == MessageIn(FrameIn(input[..length]).data)
  {
    hide DecodeCheck, Read16, Read32;
    address, m := 0, Message(0, 0, 0, 0, 0, 0, []);
    var frame;
    status, frame := Decode(input, length);
    if status != Ok { return; }
    if frame.func != FUNCTION_CODE { return FunctionError, address, m; }
    if |frame.data| < HEADER_SIZE { return LengthError, address, m; }
    var payloadLength := Read16(frame.data, 16);
    if payloadLength > MAX_PAYLOAD { return PayloadTooLarge, address, m; }
    if |frame.data| != HEADER_SIZE + payloadLength { return PayloadLengthMismatch, address, m; }
    var payload: seq<byte> := [];
    var index := 0;
    while index < payloadLength
      invariant 0 <= index <= payloadLength
      invariant payload == frame.data[HEADER_SIZE..HEADER_SIZE + index]
    {
      payload := payload + [frame.data[HEADER_SIZE + index]];
      index := index + 1;
    }
    assert payload == frame.data[HEADER_SIZE..];
    m := Message(frame.data[0], frame.data[1], Read16(frame.data, 2), Read32(frame.data, 4), Read32(frame.data, 8),
                 Read32(frame.data, 12), payload);
    status := ValidateMessage(m, response);
    if status == Ok { address := frame.address; }
  }

  // ---- Bijection ----

  /** The header fields read back from any message data. */
  lemma HeaderReadsBack(m: Message)
    ensures var data := Header(m) + m.payload;
            && MessageIn(data) == m && Read16(data, 16) == |m.payload|
  {
    hide Write16, Write32, Read16, Read32;
    var data := Header(m) + m.payload;
    var p0 := [m.subfunction, m.version];
    var p1 := p0 + Write16(m.flagsOrStatus);
    var p2 := p1 + Write32(m.session);
    var p3 := p2 + Write32(m.seqno);
    var p4 := p3 + Write32(m.offset);
    Read16Write16(p0, m.flagsOrStatus, data[4..]);
    Read32Write32(p1, m.session, data[8..]);
    Read32Write32(p2, m.seqno, data[12..]);
    Read32Write32(p3, m.offset, data[16..]);
    Read16Write16(p4, |m.payload|, m.payload);
    assert data == p0 + Write16(m.flagsOrStatus) + data[4..];
    assert data == p1 + Write32(m.session) + data[8..];
    assert data == p2 + Write32(m.seqno) + data[12..];
    assert data == p3 + Write32(m.offset) + data[16..];
    assert data == p4 + Write16(|m.payload|) + m.payload;
  }

  /** Data whose length field is right is the header and payload of the message in it. */
  lemma HeaderWritesBack(data: seq<byte>)
    requires HEADER_SIZE <= |data| < HEADER_SIZE + 0x1_0000 && |data| == HEADER_SIZE + Read16(data, 16)
    ensures Header(MessageIn(data)) + MessageIn(data).payload == data
  {
    Write16Read16(data, 2);
    Write32Read32(data, 4);
    Write32Read32(data, 8);
    Write32Read32(data, 12);
    Write16Read16(data, 16);
    hide Write16, Write32, Read16, Read32;
    assert data == [data[0], data[1]] + data[2..4] + data[4..8] + data[8..12] + data[12..16] + data[16..18] + data[18..];
  }

  /** Decoding an encoded message gives back address and message, through both layers. */
  lemma DecodeOfEncodedMessage(address: byte, m: Message, response: bool, capacity: nat)
    requires EncodeMessageCheck(address, m, response, capacity) == Ok
    ensures DecodeMessageCheck(Wire(address, m), response) == Ok
    ensures FrameIn(Wire(address, m)).address == address && |FrameIn(Wire(address, m)).data| >= HEADER_SIZE
    ensures |FrameIn(Wire(address, m)).data| < HEADER_SIZE + 0x1_0000 && MessageIn(FrameIn(Wire(address, m)).data) == m
  {
    DecodeOfEncode(FrameOf(address, m), capacity);
    HeaderReadsBack(m);
    hide Adu, Header, DecodeCheck, EncodeCheck, MessageIn, Read16;
  }

  /** Bytes that decode are exactly the bytes that address and message encode to. */
  lemma EncodeOfDecodedMessage(input: seq<byte>, response: bool, capacity: nat)
    requires DecodeMessageCheck(input, response) == Ok && capacity >= |input|
    ensures |FrameIn(input).data| >= HEADER_SIZE && |FrameIn(input).data| < HEADER_SIZE + 0x1_0000
    ensures var m := MessageIn(FrameIn(input).data);
            && EncodeMessageCheck(FrameIn(input).address, m, response, capacity) == Ok
            && Wire(FrameIn(input).address, m) == input
  {
    var frame := FrameIn(input);
    EncodeOfDecode(input, capacity);
    HeaderWritesBack(frame.data);
    hide Adu, Header, DecodeCheck, EncodeCheck, MessageIn, Read16;
  }

  // ---- The layout on the line ----

  /** Where each field of a message lies in its frame, multi-byte fields least significant byte first. */
  lemma WireLayout(address: byte, m: Message)
    ensures var w, n := Wire(address, m), |m.payload|;
            && |w| == 22 + n
            && w[0] == address && w[1] == 0x41 && w[2] == m.subfunction && w[3] == m.version
            && w[4] == m.flagsOrStatus % 0x100 && w[5] == m.flagsOrStatus / 0x100
            && LittleEndian(w[6..10], m.session) && LittleEndian(w[10..14], m.seqno) && LittleEndian(w[14..18], m.offset)
            && w[18] == n % 0x100 && w[19] == n / 0x100
            && w[20..20 + n] == m.payload
            && w[20 + n] == Crc16.Value(w[..20 + n]) % 0x100 && w[21 + n] == Crc16.Value(w[..20 + n]) / 0x100
  {
    var w, n := Wire(address, m), |m.payload|;
    var h := Header(m);
    HeaderBytes(m);
    hide Header, ByteOf, Crc16.Value;
    var body := [address, 0x41] + (h + m.payload);
    assert w == body + Write16(Crc16.Value(body));
    assert w[..20 + n] == body;
    assert forall i | 0 <= i < HEADER_SIZE :: w[2 + i] == h[i];
    assert w[20..20 + n] == m.payload;
    hide Wire;
    assert w[4] == h[2] && w[5] == h[3] && w[18] == h[16] && w[19] == h[17];
    assert w[6..10] == h[4..8] && w[10..14] == h[8..12] && w[14..18] == h[12..16];
  }

  /** A word, least significant byte first. */
  predicate LittleEndian(bytes: seq<byte>, v: u32) {
    && |bytes| == 4
    && bytes[0] == v % 0x100 && bytes[1] == v / 0x100 % 0x100 && bytes[2] == v / 0x1_0000 % 0x100 && bytes[3] == v / 0x100_0000
  }

  lemma HeaderBytes(m: Message)
    ensures var h := Header(m);
            && h[0] == m.subfunction && h[1] == m.version
            && h[2] == m.flagsOrStatus % 0x100 && h[3] == m.flagsOrStatus / 0x100
            && LittleEndian(h[4..8], m.session) && LittleEndian(h[8..12], m.seqno) && LittleEndian(h[12..16], m.offset)
            && h[16] == |m.payload| % 0x100 && h[17] == |m.payload| / 0x100
  {
    var h := Header(m);
    hide Write32;
    assert h[4..8] == Write32(m.session) && h[8..12] == Write32(m.seqno) && h[12..16] == Write32(m.offset);
    WordIsLittleEndian(m.session);
    WordIsLittleEndian(m.seqno);
    WordIsLittleEndian(m.offset);
  }

  lemma WordIsLittleEndian(v: u32)
    ensures LittleEndian(Write32(v), v)
  {
  }

  /**
   * Exactly which frames carry a message: function 0x41, version 1, a known command, a payload of at
   * most 224 bytes that the length field counts, and no flags in a request or a known status in a response.
   */
  lemma CarriesMessageExactly(input: seq<byte>, response: bool)
    requires DecodeCheck(input) == Ok
    ensures DecodeMessageCheck(input, response) == Ok <==>
              && |input| >= 22 && input[1] == 0x41 && input[3] == 1
              && input[2] in {0x01, 0x02, 0x03, 0x10, 0x11, 0x12, 0x13, 0x14, 0x15, 0x16, 0x20}
              && |input| - 22 <= 224 && input[18] == (|input| - 22) % 0x100 && input[19] == (|input| - 22) / 0x100
              && (if response then input[5] == 0 && input[4] <= 13 else input[4] == 0 && input[5] == 0)
  {
    hide Crc16.Value;
    if |input| >= 22 {
      var data := FrameIn(input).data;
      assert forall i | 0 <= i < HEADER_SIZE :: data[i] == input[2 + i];
      assert |data| == |input| - 4;
      assert Read16(data, 16) == |input| - 22 <==> input[18] == (|input| - 22) % 0x100 && input[19] == (|input| - 22) / 0x100;
      assert Read16(data, 2) == input[4] as int + 0x100 * input[5] as int;
    }
  }

  // ---- The service requests ----

  function CodeOf(c: Messages.Command): byte {
    match c
    case Hello => 0x01
    case GetInfo => 0x02
    case EnterBoot => 0x03
    case Start => 0x10
    case Erase => 0x11
    case Data => 0x12
    case Query => 0x13
    case VerifyImage => 0x14
    case Activate => 0x15
    case Abort => 0x16
    case GetLog => 0x20
  }

  function CommandOf(code: byte): Option<Messages.Command> {
    match code
    case 0x01 => Some(Messages.Hello)
    case 0x02 => Some(Messages.GetInfo)
    case 0x03 => Some(Messages.EnterBoot)
    case 0x10 => Some(Messages.Start)
    case 0x11 => Some(Messages.Erase)
    case 0x12 => Some(Messages.Data)
    case 0x13 => Some(Messages.Query)
    case 0x14 => Some(Messages.VerifyImage)
    case 0x15 => Some(Messages.Activate)
    case 0x16 => Some(Messages.Abort)
    case 0x20 => Some(Messages.GetLog)
    case _ => None
  }

  function RequestMessage(req: Messages.Request): Message {
    Message(CodeOf(req.command), PROTOCOL_VERSION, 0, req.session, req.seqno, req.offset, req.payload)
  }

  /** The request a decoded message stands for. */
  function RequestIn(m: Message): Option<Messages.Request> {
    if ValidateMessage(m, false) != Ok then None
    else match CommandOf(m.subfunction)
      case None => None
      case Some(c) => Some(Messages.Request(c, m.session, m.seqno, m.offset, m.payload))
  }

  /** The private function code, the command's number, the protocol version and no flags. */
  lemma RequestHeader(address: byte, req: Messages.Request)
    ensures var w := Wire(address, RequestMessage(req));
            && |w| >= 22 && w[1] == 0x41 && w[3] == 1 && w[4] == 0 && w[5] == 0
            && match req.command
               case Hello => w[2] == 0x01
               case GetInfo => w[2] == 0x02
               case EnterBoot => w[2] == 0x03
               case Start => w[2] == 0x10
               case Erase => w[2] == 0x11
               case Data => w[2] == 0x12
               case Query => w[2] == 0x13
               case VerifyImage => w[2] == 0x14
               case Activate => w[2] == 0x15
               case Abort => w[2] == 0x16
               case GetLog => w[2] == 0x20
  {
    WireLayout(address, RequestMessage(req));
    hide Wire, Crc16.Value;
  }

  /** Every service request survives the line, to any slave address. */
  lemma RequestSurvivesTheLine(address: byte, req: Messages.Request)
    requires MIN_SLAVE_ADDRESS <= address <= MAX_SLAVE_ADDRESS
    ensures EncodeMessageCheck(address, RequestMessage(req), false, MAX_ADU_SIZE) == Ok
    ensures Carries(Wire(address, RequestMessage(req)), req)
  {
    var m := RequestMessage(req);
    assert ValidateMessage(m, false) == Ok && EncodeCheck(FrameOf(address, m), MAX_ADU_SIZE) == Ok && RequestIn(m) == Some(req);
    hide Adu, MessageIn, Header, DecodeCheck, DecodeMessageCheck, ValidateMessage, RequestIn, RequestMessage;
    DecodeOfEncodedMessage(address, m, false, MAX_ADU_SIZE);
  }

  /** These bytes decode, and the message in them stands for this request. */
  predicate Carries(input: seq<byte>, req: Messages.Request) {
    && DecodeMessageCheck(input, false) == Ok
    && HEADER_SIZE <= |FrameIn(input).data| < HEADER_SIZE + 0x1_0000
    && RequestIn(MessageIn(FrameIn(input).data)) == Some(req)
  }
}
