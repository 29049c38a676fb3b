/** Upgrade requests and responses as the services see them, and the START manifest layout. */
module Messages {
  import opened Types
  import opened ByteOrder

  datatype Command =
    | Hello | GetInfo | EnterBoot | Start | Erase | Data | Query | VerifyImage | Activate | Abort | GetLog

  datatype Reply =
    | OK | BadFrame | BadCrc | BadSession | BadSequence | BadOffset | BadImageSize | BadProduct
    | BadHardware | VersionRejected | FlashError | VerifyFailed | Busy | Timeout

  // The reply codes that are stored as record error codes.
  const FLASH_ERROR_CODE: u32 := 10
  const VERIFY_FAILED_CODE: u32 := 11
  const TIMEOUT_CODE: u32 := 13

  const PRODUCT_ID: u16 := 1
  const HARDWARE_ID: u16 := 1

  type Payload = p: seq<byte> | |p| <= MAX_PAYLOAD witness []

  datatype Request = Request(command: Command, session: u32, seqno: u32, offset: u32, payload: Payload)

  /** Payloads of the responses; of the capability bits only those the gateway asks for. */
  datatype Body =
    | NoBody
    | HelloBody(bootloader: bool, enterBoot: bool, maxPayload: u16)
    | InfoBody(product: u16, hardware: u16, version: u32, maxSize: u32, state: u16, crc32: bool)
    | ProgressBody(bootState: u16, received: u32, size: u32, error: u32)
    | AckBody(status: Reply, acceptedSeqno: u32, next: u32)

  datatype Response = Response(command: Command, reply: Reply, session: u32, seqno: u32, offset: u32, body: Body)

  predicate IsBare(req: Request) { req.payload == [] && req.offset == 0 }

  // ---- START manifest ----

  datatype Manifest = Manifest(version: u32, size: u32, crc32: u32, sha: Digest, product: u16, hardware: u16)

  const MANIFEST_SIZE: nat := 48

  function DecodeManifest(data: seq<byte>): Option<Manifest> {
    if |data| != MANIFEST_SIZE then None
    else
      Some(Manifest(Read32(data, 0), Read32(data, 4), Read32(data, 8),
                    [Read32(data, 12), Read32(data, 16), Read32(data, 20), Read32(data, 24),
                     Read32(data, 28), Read32(data, 32), Read32(data, 36), Read32(data, 40)],
                    Read16(data, 44), Read16(data, 46)))
  }

  /** The manifest as the nine little-endian words and two half-words of its wire layout. */
  function EncodeManifest(m: Manifest): (data: Payload)
    ensures |data| == MANIFEST_SIZE
  {
    Words([m.version, m.size, m.crc32] + m.sha) + Write16(m.product) + Write16(m.hardware)
  }

  lemma ReadField(body: seq<byte>, rest: seq<byte>, at: nat)
    requires at + 4 <= |body|
    ensures Read32(body + rest, at) == Read32(body, at)
  {
  }

  lemma ManifestWord(ws: seq<u32>, rest: seq<byte>, k: nat)
    requires k < |ws|
    ensures Read32(Words(ws) + rest, 4 * k) == ws[k]
  {
    ReadWord(ws, k);
    hide Words, Read32;
    ReadField(Words(ws), rest, 4 * k);
  }

  lemma ManifestRoundTrip(m: Manifest)
    ensures DecodeManifest(EncodeManifest(m)) == Some(m)
  {
    var ws := [m.version, m.size, m.crc32] + m.sha;
    var tail := Write16(m.product) + Write16(m.hardware);
    var data := EncodeManifest(m);
    hide Words, Read32, Read16, Write16;
    assert data == Words(ws) + tail;
    forall k: nat | k < 11
      ensures Read32(data, 4 * k) == ws[k]
    {
      ManifestWord(ws, tail, k);
    }
    assert Read32(data, 4 * 0) == ws[0] && Read32(data, 4 * 1) == ws[1] && Read32(data, 4 * 2) == ws[2];
    assert Read32(data, 4 * 3) == m.sha[0] && Read32(data, 4 * 4) == m.sha[1] && Read32(data, 4 * 5) == m.sha[2];
    assert Read32(data, 4 * 6) == m.sha[3] && Read32(data, 4 * 7) == m.sha[4] && Read32(data, 4 * 8) == m.sha[5];
    assert Read32(data, 4 * 9) == m.sha[6] && Read32(data, 4 * 10) == m.sha[7];
    Read16Write16(Words(ws), m.product, Write16(m.hardware));
    Read16Write16(Words(ws) + Write16(m.product), m.hardware, []);
    assert data == Words(ws) + Write16(m.product) + Write16(m.hardware) + [];
    assert Read16(data, 44) == m.product && Read16(data, 46) == m.hardware;
    assert DecodeManifest(data).value.sha == m.sha;
  }
}
