/** The gateway's CRC-32 of a package and the bootloader's CRC-32 of its flash agree on every image. */
module CrcAgreement {
  import opened Types
  import opened Messages
  import opened MetadataLog
  import opened Device
  import opened JournalRoom
  import opened TransferProgress
  import FirmwareStore
  import Crc32

  /** The gateway's pass over pieces of any sizes, and the bootloader's single pass. */
  lemma PiecesAgree(image: seq<byte>, pieces: seq<seq<byte>>)
    requires Crc32.Concat(pieces) == image
    ensures Crc32.Finish(Crc32.RegisterOfChunks(Crc32.INITIAL, pieces)) == Crc32.Value(image)
  {
    Crc32.ChunkingIsIrrelevant(Crc32.INITIAL, pieces);
  }

  /**
   * An image the cache validated and a transfer delivered passes VERIFY: with the journal's
   * writes working the device ends in PENDING_BOOT.
   */
  lemma ValidatedImageBecomesPending(cache: FirmwareStore.Partition, b: Boot, image: seq<byte>, req: Request, f: Faults, d: Record)
    requires var h := FirmwareStore.HeaderIn(cache);
             && FirmwareStore.ImageMatches(cache, h)
             && image == cache[FirmwareStore.IMAGE_OFFSET..FirmwareStore.IMAGE_OFFSET + FirmwareStore.ImageSize(h)]
             && b.ram.rec.crc32 == FirmwareStore.ImageCrc32(h)
    requires Spacious(b, d) && WritesWork(f) && IsBare(req) && req.session == b.ram.rec.session
    requires Completed(System(b.log, b.flash, Service(b.ram)), image)
    ensures var (b', reply) := HandleVerify(b, req, f);
            reply == OK && State(b') == PENDING_BOOT && Latest(b'.log) == Some(b'.ram.rec)
  {
    hide FirmwareStore.ImageSize, FirmwareStore.ImageCrc32, Crc32.Value, FreeCount, Latest, Budget;
    VerifyNeverRunsOut(b, req, f, d);
    hide Spacious, HandleVerify;
  }
}
