/** The 19-word flash image of a metadata record. */
module RecordWords {
  import opened Types
  import opened MetadataLog
  import ByteOrder
  import Crc32

  const MAGIC: u32 := 0x4254_4D44
  const COMMIT_MARKER: u32 := 0x434D_4954
  const FORMAT_VERSION: u32 := 1

  // ---- Record image ----

  type Words = w: seq<u32> | |w| == RECORD_WORDS witness seq(RECORD_WORDS, (_: nat) => 0)

  function Checksum(ws: seq<u32>): u32 {
    Crc32.Value(ByteOrder.Words(ws))
  }

  function Payload(r: Record): (ws: seq<u32>)
    ensures |ws| == 17
  {
    [MAGIC, FORMAT_VERSION + 0x1_0000 * r.state, r.seqno, r.session, r.version, r.size, r.received, r.crc32]
    + r.sha + [r.error]
  }

  function Image(r: Record): Words {
    hide Checksum;
    Payload(r) + [Checksum(Payload(r)), COMMIT_MARKER]
  }

  function Parse(w: Words): Record {
    Record(w[1] / 0x1_0000, w[2], w[3], w[4], w[5], w[6], w[7], w[8..16], w[16])
  }

  predicate ImageValid(w: Words) {
    && w[0] == MAGIC
    && w[1] % 0x1_0000 == FORMAT_VERSION
    && w[18] == COMMIT_MARKER
    && w[2] != 0 && w[2] != 0xFFFF_FFFF
    && PayloadValid(Parse(w))
    && w[17] == Checksum(w[..17])
  }

  /** Where the fields lie in the nineteen words that bootloader and application share; the commit marker is the last. */
  lemma RecordLayout(r: Record)
    ensures var w := Image(r);
            && w[0] == 0x4254_4D44 && w[1] == 1 + 0x1_0000 * r.state && w[2] == r.seqno && w[3] == r.session
            && w[4] == r.version && w[5] == r.size && w[6] == r.received && w[7] == r.crc32 && w[8..16] == r.sha
            && w[16] == r.error && w[17] == Crc32.Value(ByteOrder.Words(w[..17])) && w[18] == 0x434D_4954
  {
    hide Crc32.Value;
    assert Image(r)[..17] == Payload(r);
    assert Image(r)[8..16] == r.sha;
  }

  /** A record is read back exactly as it was written, and its image is valid exactly if it is. */
  lemma ImageRoundTrip(r: Record)
    ensures Parse(Image(r)) == r && (ImageValid(Image(r)) <==> RecordValid(r))
  {
    hide Checksum;
    var w := Image(r);
    assert w[..17] == Payload(r);
    assert w[8..16] == r.sha;
  }

  /** Every valid image is the image of the record read from it, so compaction rewrites the same words. */
  lemma ParseRoundTrip(w: Words)
    requires ImageValid(w)
    ensures RecordValid(Parse(w)) && Image(Parse(w)) == w
  {
    hide Checksum;
    var r := Parse(w);
    assert w[..17] == Payload(r);
  }

  function SlotOf(w: Words): Slot {
    if forall i | 0 <= i < RECORD_WORDS :: w[i] == ERASED_WORD then Erased
    else if ImageValid(w) then Committed(Parse(w))
    else Torn
  }

  /** The words of a slot after the first k words of an image were programmed over erased flash. */
  function Partial(w: Words, k: nat): Words
    requires k <= RECORD_WORDS
  {
    w[..k] + seq(RECORD_WORDS - k, (_: nat) => ERASED_WORD)
  }

  /** The commit marker is programmed last, so no proper prefix of an image is a record. */
  lemma PartialSlot(r: Record, k: nat)
    requires k <= RECORD_WORDS
    ensures SlotOf(Partial(Image(r), k)) == CutSlot(r, k)
  {
    hide Checksum;
    var p := Partial(Image(r), k);
    if k == RECORD_WORDS {
      assert p == Image(r);
      ImageRoundTrip(r);
    } else {
      assert p[18] == ERASED_WORD;
    }
    if k > 0 {
      assert p[0] == MAGIC;
    }
  }
}
