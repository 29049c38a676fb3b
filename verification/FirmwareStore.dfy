/** The gateway's firmware cache: a staged package becomes visible by its valid marker, written last. */
module FirmwareStore {
  import opened Types
  import opened ByteOrder
  import opened Nor
  import Crc32
  import Messages

  const PACKAGE_MAGIC: u32 := 0x3146_5747
  const PACKAGE_FORMAT: u16 := 1
  const HEADER_SIZE: nat := 128
  const IMAGE_OFFSET: nat := 0x1000
  const VALID_MARKER: u32 := 0xA5C3_F00D
  const HEADER_CRC_OFFSET: nat := 56
  const MARKER_OFFSET: nat := 60
  const MARKER_END: nat := 64
  const SECTOR_SIZE: nat := 4096
  const BUFFER_SIZE: nat := 1024

  datatype Status = Ok | NotFound | InvalidState | InvalidSize | InvalidResponse | NotSupported | InvalidCrc | FlashFailed | Failed

  /** The 128 header bytes, as they lie in flash or in RAM. */
  type Raw = s: seq<byte> | |s| == HEADER_SIZE witness seq(HEADER_SIZE, (_: nat) => 0)

  function Magic(h: Raw): u32 { Read32(h, 0) }
  function Format(h: Raw): u16 { Read16(h, 4) }
  function HeaderSize(h: Raw): u16 { Read16(h, 6) }
  function Version(h: Raw): u32 { Read32(h, 8) }
  function ImageSize(h: Raw): u32 { Read32(h, 12) }
  function ImageCrc32(h: Raw): u32 { Read32(h, 16) }
  function Product(h: Raw): u16 { Read16(h, 20) }
  function Hardware(h: Raw): u16 { Read16(h, 22) }
  function ImageSha(h: Raw): seq<byte> { h[24..56] }
  function HeaderCrc(h: Raw): u32 { Read32(h, HEADER_CRC_OFFSET) }
  function Marker(h: Raw): u32 { Read32(h, MARKER_OFFSET) }

  function MarkerBytes(): seq<byte> { Write32(VALID_MARKER) }

  /** The header with the valid marker in place of whatever the flash has there. */
  function WithMarker(data: seq<byte>): (r: seq<byte>)
    requires |data| >= MARKER_END
    ensures |r| == |data|
  {
    data[..MARKER_OFFSET] + MarkerBytes() + data[MARKER_END..]
  }

  type Partition = p: seq<byte> | |p| >= IMAGE_OFFSET + APP_MAX_SIZE
    witness seq(IMAGE_OFFSET + APP_MAX_SIZE, (_: nat) => 0)

  function HeaderIn(flash: Partition): Raw { flash[..HEADER_SIZE] }

  /** The marker in flash makes the package visible. */
  predicate Committed(flash: Partition) { Marker(HeaderIn(flash)) == VALID_MARKER }

  predicate MarkerErased(flash: Partition) { Marker(HeaderIn(flash)) == ERASED_WORD }

  /** The header checks, in the order and with the error codes of the store. */
  function CheckManifest(h: Raw, partitionSize: nat): Status {
    if Magic(h) != PACKAGE_MAGIC || Format(h) != PACKAGE_FORMAT || HeaderSize(h) != HEADER_SIZE || Marker(h) != VALID_MARKER
    then InvalidResponse
    else if Version(h) == 0 || ImageSize(h) == 0 || ImageSize(h) > APP_MAX_SIZE then InvalidSize
    else if Product(h) != Messages.PRODUCT_ID || Hardware(h) != Messages.HARDWARE_ID then NotSupported
    else if IMAGE_OFFSET + ImageSize(h) > partitionSize then InvalidSize
    else if Crc32.Value(h[..HEADER_CRC_OFFSET]) != HeaderCrc(h) then InvalidCrc
    else Ok
  }

  predicate ImageMatches(flash: Partition, h: Raw) {
    && ImageSize(h) <= APP_MAX_SIZE
    && Crc32.Value(flash[IMAGE_OFFSET..IMAGE_OFFSET + ImageSize(h)]) == ImageCrc32(h)
  }

  // ---- What erase and write leave behind ----

  function Sectors(size: nat): nat { (size + SECTOR_SIZE - 1) / SECTOR_SIZE }

  /** Bytes from `offset` on, programmed as far as the hardware came. */
  function Programmed(flash: Partition, offset: nat, data: seq<byte>, k: nat): (r: Partition)
    requires offset + |data| <= |flash| && k <= |data|
    ensures |r| == |flash|
  {
    seq(|flash|, (j: nat) requires j < |flash| => if offset <= j < offset + k then And(flash[j], data[j - offset]) as byte else flash[j])
  }

  function ErasedPrefix(flash: Partition, n: nat): (r: Partition)
    requires n <= |flash|
    ensures |r| == |flash|
  {
    seq(|flash|, (j: nat) requires j < |flash| => if j < n then ERASED_BYTE else flash[j])
  }

  // ---- The store ----

  class Store {
    const partition: array<byte>
    var found: bool
    var manifest: Raw
    var manifestValid: bool
    var downloadActive: bool
    var packageSize: nat

    ghost predicate Valid()
      reads this
    {
      && partition.Length >= IMAGE_OFFSET + APP_MAX_SIZE
      && (downloadActive ==> found && IMAGE_OFFSET <= packageSize <= partition.Length)
    }

    ghost function Flash(): Partition
      requires Valid()
      reads this, partition
    {
      partition[..]
    }

    constructor (partition: array<byte>)
      requires partition.Length >= IMAGE_OFFSET + APP_MAX_SIZE
      ensures Valid() && this.partition == partition && !found && !manifestValid && !downloadActive
    {
      this.partition := partition;
      found, manifestValid, downloadActive, packageSize := false, false, false, 0;
      manifest := seq(HEADER_SIZE, (_: nat) => 0);
    }

    // ---- The flash driver ----

    method ReadBytes(offset: nat, length: nat) returns (data: seq<byte>)
      requires Valid() && offset + length <= partition.Length
      ensures data == Flash()[offset..offset + length]
    {
      data := partition[offset..offset + length];
    }

    /** Programs byte after byte; a cut leaves a programmed prefix. */
    method WriteBytes(offset: nat, data: seq<byte>, ops: nat) returns (ok: bool)
      requires Valid() && offset + |data| <= partition.Length
      modifies partition
      ensures Flash() == Programmed(old(Flash()), offset, data, Min(ops, |data|))
      ensures ok <==> ops >= |data|
    {
      hide And;
      var index := 0;
      while index < |data| && index < ops
        invariant 0 <= index <= |data| && index <= ops
        invariant forall j | 0 <= j < partition.Length ::
                    partition[j] == if offset <= j < offset + index then And(old(partition[j]), data[j - offset]) else old(partition[j])
      {
        partition[offset + index] := And(partition[offset + index], data[index]);
        index := index + 1;
      }
      ok := index == |data|;
    }

    /** Erases sector after sector from the start of the partition. */
    method EraseSectors(sectors: nat, ops: nat) returns (ok: bool)
      requires Valid() && sectors * SECTOR_SIZE <= partition.Length
      modifies partition
      ensures Flash() == ErasedPrefix(old(Flash()), Min(ops, sectors) * SECTOR_SIZE)
      ensures ok <==> ops >= sectors
    {
      var sector := 0;
      while sector < sectors && sector < ops
        invariant 0 <= sector <= sectors && sector <= ops
        invariant forall j | 0 <= j < partition.Length ::
                    partition[j] == if j < sector * SECTOR_SIZE then ERASED_BYTE else old(partition[j])
      {
        forall j | sector * SECTOR_SIZE <= j < (sector + 1) * SECTOR_SIZE {
          partition[j] := ERASED_BYTE;
        }
        sector := sector + 1;
      }
      ok := sector == sectors;
    }

    // ---- Validation ----

    /** The image CRC, taken over the cache in 1024-byte pieces, is the CRC of the whole image. */
    method ValidateImage() returns (status: Status)
      requires Valid() && ImageSize(manifest) <= APP_MAX_SIZE
      ensures status == if ImageMatches(Flash(), manifest) then Ok else InvalidCrc
    {
      hide Crc32.Register, Crc32.Finish, Read32;
      ghost var image := Flash()[IMAGE_OFFSET..IMAGE_OFFSET + ImageSize(manifest)];
      var crc := Crc32.INITIAL;
      Crc32.RegisterOfNothing(crc);
      assert image[..0] == [];
      var offset := 0;
      while offset < ImageSize(manifest)
        invariant 0 <= offset <= ImageSize(manifest)
        invariant crc == Crc32.Register(Crc32.INITIAL, image[..offset])
      {
        var chunkSize := ImageSize(manifest) - offset;
        if chunkSize > BUFFER_SIZE { chunkSize := BUFFER_SIZE; }
        var buffer := ReadBytes(IMAGE_OFFSET + offset, chunkSize);
        crc := Crc32.UpdateLoop(crc, buffer);
        Crc32.RegisterConcat(Crc32.INITIAL, image[..offset], buffer);
        assert image[..offset] + buffer == image[..offset + chunkSize];
        offset := offset + chunkSize;
      }
      assert image[..offset] == image;
      status := if Crc32.Finish(crc) != ImageCrc32(manifest) then InvalidCrc else Ok;
    }

    method Validate() returns (status: Status)
      requires Valid()
      modifies this`manifest, this`manifestValid
      ensures Valid()
      ensures !found ==> manifest == old(manifest) && manifestValid == old(manifestValid)
      ensures found ==> manifest == HeaderIn(Flash()) && manifestValid == (status == Ok)
      ensures status == if !found then InvalidState
                        else if CheckManifest(HeaderIn(Flash()), partition.Length) != Ok
                        then CheckManifest(HeaderIn(Flash()), partition.Length)
                        else if ImageMatches(Flash(), HeaderIn(Flash())) then Ok else InvalidCrc
    {
      hide Crc32.Value, Read32, Read16;
      if !found { return InvalidState; }
      manifest := ReadBytes(0, HEADER_SIZE);
      status := CheckManifest(manifest, partition.Length);
      if status != Ok {
        manifestValid := false;
        return;
      }
      status := ValidateImage();
      manifestValid := status == Ok;
    }

    /**
     * After a restart: nothing staged, and the header counts only if it checks.  The partition
     * may be missing from the partition table, or have too small an entry there.
     */
    method Open(entry: Option<nat>) returns (status: Status)
      requires Valid()
      requires entry.Some? && entry.value >= IMAGE_OFFSET + APP_MAX_SIZE ==> entry.value == partition.Length
      modifies this
      ensures Valid() && !downloadActive && packageSize == 0
      ensures status == if entry.None? then NotFound
                        else if entry.value < IMAGE_OFFSET + APP_MAX_SIZE then InvalidSize else Ok
      ensures found <==> status == Ok
      ensures manifestValid <==> found && CheckManifest(HeaderIn(Flash()), partition.Length) == Ok
      ensures manifest == if found then HeaderIn(Flash()) else old(manifest)
    {
      hide Crc32.Value, Read32, Read16;
      manifestValid, downloadActive, packageSize := false, false, 0;
      found := entry.Some?;
      if !found { return NotFound; }
      if entry.value < IMAGE_OFFSET + APP_MAX_SIZE {
        found := false;
        return InvalidSize;
      }
      manifest := ReadBytes(0, HEADER_SIZE);
      var checked := CheckManifest(manifest, partition.Length);
      manifestValid := checked == Ok;
      return Ok;
    }

    // ---- Staging ----

    /** Erases the cache from its first sector on, so the old marker is the first thing to go. */
    method DownloadBegin(size: nat, ops: nat) returns (status: Status)
      requires Valid()
      modifies this, partition
      ensures Valid()
      ensures Flash() == old(Flash()) ||
              exists n | 0 < n <= partition.Length && n % SECTOR_SIZE == 0 :: Flash() == ErasedPrefix(old(Flash()), n)
      ensures status == Ok ==>
                && downloadActive && packageSize == size
                && exists n | size <= n <= partition.Length :: Flash() == ErasedPrefix(old(Flash()), n)
      ensures status == InvalidSize ==> downloadActive == old(downloadActive) && packageSize == old(packageSize)
      ensures status == FlashFailed ==> !downloadActive
      ensures status == Ok || status == InvalidSize || status == FlashFailed
      ensures found == old(found)
      ensures found && size >= IMAGE_OFFSET && Sectors(size) * SECTOR_SIZE <= partition.Length && ops >= Sectors(size) ==> status == Ok
    {
      if !found || size < IMAGE_OFFSET || size > partition.Length { return InvalidSize; }
      var eraseSize := (size + SECTOR_SIZE - 1) / SECTOR_SIZE * SECTOR_SIZE;
      if eraseSize > partition.Length { return InvalidSize; }
      manifestValid, downloadActive, packageSize := false, false, 0;
      var ok := EraseSectors(eraseSize / SECTOR_SIZE, ops);
      if !ok {
        if ops == 0 {
          assert Flash() == old(Flash());
        }
        return FlashFailed;
      }
      packageSize := size;
      downloadActive := true;
      return Ok;
    }

    /** Resumes only over an erased marker. */
    method DownloadResume(size: nat) returns (status: Status)
      requires Valid()
      modifies this
      ensures Valid() && found == old(found)
      ensures status == Ok <==> found && IMAGE_OFFSET <= size <= partition.Length && MarkerErased(Flash())
      ensures status == Ok ==> downloadActive && packageSize == size
      ensures status != Ok ==> downloadActive == old(downloadActive) && packageSize == old(packageSize)
    {
      hide Read32;
      if !found || size < IMAGE_OFFSET || size > partition.Length { return InvalidSize; }
      var header := ReadBytes(0, HEADER_SIZE);
      if Marker(header) != ERASED_WORD { return InvalidState; }
      manifestValid, packageSize, downloadActive := false, size, true;
      return Ok;
    }

    /** A range of the package being staged. */
    function CheckRange(offset: nat, length: nat): Status
      reads this
    {
      if !found || (length != 0 && offset >= packageSize) then InvalidState
      else if offset + length > packageSize then InvalidSize
      else Ok
    }

    /** Writes package bytes but never the marker's; a cut leaves each byte as it was or programmed. */
    method DownloadWrite(offset: nat, data: seq<byte>, ops: nat) returns (status: Status)
      requires Valid()
      modifies partition
      ensures forall j | 0 <= j < partition.Length && (j < offset || j >= offset + |data| || MARKER_OFFSET <= j < MARKER_END) ::
                partition[j] == old(partition[j])
      ensures forall j | 0 <= j < partition.Length && offset <= j < offset + |data| ::
                partition[j] == old(partition[j]) || partition[j] == And(old(partition[j]), data[j - offset])
      ensures status == Ok ==>
                && downloadActive && CheckRange(offset, |data|) == Ok
                && forall j | offset <= j < offset + |data| && !(MARKER_OFFSET <= j < MARKER_END) ::
                     partition[j] == And(old(partition[j]), data[j - offset])
      ensures !downloadActive ==> status == InvalidState
      ensures downloadActive && CheckRange(offset, |data|) != Ok ==> status == CheckRange(offset, |data|)
      ensures downloadActive && CheckRange(offset, |data|) == Ok ==> status == Ok || status == FlashFailed
      ensures status == InvalidState || status == InvalidSize ==> Flash() == old(Flash())
      ensures downloadActive && CheckRange(offset, |data|) == Ok && ops >= |data| ==> status == Ok
    {
      hide And;
      if !downloadActive { return InvalidState; }
      status := CheckRange(offset, |data|);
      if status != Ok { return; }
      if |data| == 0 { return Ok; }
      var end := offset + |data|;
      if offset < MARKER_END && end > MARKER_OFFSET {
        var left := ops;
        if offset < MARKER_OFFSET {
          var ok := WriteBytes(offset, data[..MARKER_OFFSET - offset], ops);
          if !ok { return FlashFailed; }
          left := ops - (MARKER_OFFSET - offset);
        }
        if end > MARKER_END {
          var ok := WriteBytes(MARKER_END, data[MARKER_END - offset..], left);
          if !ok { return FlashFailed; }
        }
        return Ok;
      }
      var ok := WriteBytes(offset, data, ops);
      return if ok then Ok else FlashFailed;
    }

    method DownloadRead(offset: nat, length: nat) returns (status: Status, data: seq<byte>)
      requires Valid()
      ensures status == if !downloadActive then InvalidState else CheckRange(offset, length)
      ensures status == Ok ==> offset + length <= partition.Length && data == Flash()[offset..offset + length]
    {
      if !downloadActive { return InvalidState, []; }
      status := CheckRange(offset, length);
      if status != Ok { return status, []; }
      data := ReadBytes(offset, length);
      return Ok, data;
    }

    /** What has to hold before the marker may be written. */
    ghost predicate Committable()
      requires Valid()
      reads this, partition
    {
      && downloadActive && MarkerErased(Flash())
      && CheckManifest(WithMarker(HeaderIn(Flash())), partition.Length) == Ok
      && packageSize == IMAGE_OFFSET + ImageSize(HeaderIn(Flash()))
      && ImageMatches(Flash(), HeaderIn(Flash()))
    }

    /** The marker is the only thing a commit writes, and it writes it only to a package that checks. */
    method DownloadCommit(ops: nat) returns (status: Status)
      requires Valid()
      modifies this, partition
      ensures Valid() && found == old(found)
      ensures Flash() == old(Flash()) ||
              (old(Committable()) && Flash() == Programmed(old(Flash()), MARKER_OFFSET, MarkerBytes(), Min(ops, 4)))
      ensures status == Ok ==> old(Committable()) && ops >= 4 &&
                               Flash() == Programmed(old(Flash()), MARKER_OFFSET, MarkerBytes(), 4)
      ensures old(Committable()) && ops >= 4 ==> status == Ok
    {
      hide Crc32.Value, Read32, Read16, Write32, CheckManifest;
      ghost var staged := Flash();
      if !downloadActive { return InvalidState; }
      if packageSize < HEADER_SIZE { return InvalidSize; }
      manifest := ReadBytes(0, HEADER_SIZE);
      if Marker(manifest) != ERASED_WORD { return InvalidState; }
      manifest := WithMarker(manifest);
      SameImageFields(HeaderIn(Flash()));
      status := CheckManifest(manifest, partition.Length);
      if status != Ok { return; }
      if packageSize != IMAGE_OFFSET + ImageSize(manifest) { return InvalidSize; }
      CheckedSizeFits(manifest, partition.Length);
      status := ValidateImage();
      if status != Ok { return; }
      var ok := WriteBytes(MARKER_OFFSET, MarkerBytes(), ops);
      if !ok { return FlashFailed; }
      CommittedChecks(staged, partition.Length);
      downloadActive, packageSize := false, 0;
      status := Validate();
    }

    method Read(imageOffset: nat, length: nat) returns (status: Status, data: seq<byte>)
      requires Valid() && (manifestValid ==> ImageSize(manifest) <= APP_MAX_SIZE)
      ensures status == Ok <==> manifestValid && imageOffset + length <= ImageSize(manifest)
      ensures status == Ok ==> data == Flash()[IMAGE_OFFSET + imageOffset..IMAGE_OFFSET + imageOffset + length]
    {
      if !manifestValid { return InvalidState, []; }
      if imageOffset + length > ImageSize(manifest) { return InvalidSize, []; }
      data := ReadBytes(IMAGE_OFFSET + imageOffset, length);
      return Ok, data;
    }
  }

  // ---- The header, byte by byte ----

  lemma Fields16(h: Raw, at: nat, v: u16)
    requires at + 2 <= HEADER_SIZE
    ensures Read16(h, at) == v <==> h[at..at + 2] == Write16(v)
  {
    Write16Read16(h, at);
    Read16Write16([], v, []);
    assert [] + Write16(v) + [] == Write16(v);
  }

  lemma Fields32(h: Raw, at: nat, v: u32)
    requires at + 4 <= HEADER_SIZE
    ensures Read32(h, at) == v <==> h[at..at + 4] == Write32(v)
  {
    Write32Read32(h, at);
    Read32Write32([], v, []);
    hide ByteOf;
    assert [] + Write32(v) + [] == Write32(v);
  }

  /** A header passes exactly if it has this layout: "GWF1", format 1, 128 bytes, product 1, hardware 1, the marker. */
  lemma HeaderLayout(h: Raw, partitionSize: nat)
    ensures CheckManifest(h, partitionSize) == Ok <==>
              && h[0..8] == [0x47, 0x57, 0x46, 0x31, 1, 0, 0x80, 0]
              && h[20..24] == [1, 0, 1, 0]
              && h[60..64] == [0x0D, 0xF0, 0xC3, 0xA5]
              && Read32(h, 8) != 0 && 0 < Read32(h, 12) <= 0xE_0000 && 0x1000 + Read32(h, 12) <= partitionSize
              && h[56..60] == Write32(Crc32.Value(h[..56]))
  {
    hide Read32, Read16, Write32, Write16, Crc32.Value;
    Fields32(h, 0, PACKAGE_MAGIC);
    Fields16(h, 4, PACKAGE_FORMAT);
    Fields16(h, 6, HEADER_SIZE);
    Fields16(h, 20, Messages.PRODUCT_ID);
    Fields16(h, 22, Messages.HARDWARE_ID);
    Fields32(h, 60, VALID_MARKER);
    Fields32(h, 56, Crc32.Value(h[..56]));
    FixedFields(h);
  }

  lemma FixedFields(h: Raw)
    ensures h[0..8] == [0x47, 0x57, 0x46, 0x31, 1, 0, 0x80, 0] <==>
              h[0..4] == Write32(PACKAGE_MAGIC) && h[4..6] == Write16(PACKAGE_FORMAT) && h[6..8] == Write16(HEADER_SIZE)
    ensures h[20..24] == [1, 0, 1, 0] <==>
              h[20..22] == Write16(Messages.PRODUCT_ID) && h[22..24] == Write16(Messages.HARDWARE_ID)
    ensures h[60..64] == [0x0D, 0xF0, 0xC3, 0xA5] <==> h[60..64] == Write32(VALID_MARKER)
  {
    assert Write32(PACKAGE_MAGIC) == [0x47, 0x57, 0x46, 0x31] && Write32(VALID_MARKER) == [0x0D, 0xF0, 0xC3, 0xA5];
    assert Write16(PACKAGE_FORMAT) == [1, 0] && Write16(HEADER_SIZE) == [0x80, 0] && Write16(1) == [1, 0];
    hide Write32, Write16;
    assert h[0..8] == h[0..4] + (h[4..6] + h[6..8]);
    assert [0x47, 0x57, 0x46, 0x31, 1, 0, 0x80, 0] == [0x47, 0x57, 0x46, 0x31] + ([1, 0] + [0x80, 0]);
    Pieces(h[0..4], h[4..6] + h[6..8], [0x47, 0x57, 0x46, 0x31], [1, 0] + [0x80, 0]);
    Pieces(h[4..6], h[6..8], [1, 0], [0x80, 0]);
    assert h[20..24] == h[20..22] + h[22..24];
    assert [1, 0, 1, 0] == [1, 0] + [1, 0];
    Pieces(h[20..22], h[22..24], [1, 0], [1, 0]);
  }

  lemma Pieces(a: seq<byte>, b: seq<byte>, c: seq<byte>, d: seq<byte>)
    requires |a| == |c|
    ensures a + b == c + d <==> a == c && b == d
  {
    if a + b == c + d {
      assert a == (a + b)[..|a|] && b == (a + b)[|a|..];
      assert c == (c + d)[..|c|] && d == (c + d)[|c|..];
    }
  }

  // ---- Marker bytes ----

  lemma SameImageFields(h: Raw)
    ensures ImageSize(WithMarker(h)) == ImageSize(h) && ImageCrc32(WithMarker(h)) == ImageCrc32(h)
  {
  }

  lemma CheckedSizeFits(h: Raw, partitionSize: nat)
    requires CheckManifest(h, partitionSize) == Ok
    ensures 0 < ImageSize(h) <= APP_MAX_SIZE && IMAGE_OFFSET + ImageSize(h) <= partitionSize && Marker(h) == VALID_MARKER
  {
    hide Crc32.Value, Read32, Read16;
  }

  lemma MarkerInBytes()
    ensures MarkerBytes() == [0x0D, 0xF0, 0xC3, 0xA5]
  {
  }

  lemma MarkerByByte(h: Raw)
    ensures Marker(h) == ERASED_WORD <==> forall j | MARKER_OFFSET <= j < MARKER_END :: h[j] == ERASED_BYTE
    ensures h[63] == ERASED_BYTE ==> Marker(h) != VALID_MARKER
    ensures h[60] == 0x0D && h[61] == 0xF0 && h[62] == 0xC3 && h[63] == 0xA5 ==> Marker(h) == VALID_MARKER
  {
  }

  /** Programming over the erased marker stores exactly the bytes that get programmed. */
  lemma MarkerPrefix(flash: Partition, k: nat)
    requires MarkerErased(flash) && k <= 4
    ensures var flash' := Programmed(flash, MARKER_OFFSET, MarkerBytes(), k);
            forall j | 0 <= j < |flash| ::
              flash'[j] == if MARKER_OFFSET <= j < MARKER_OFFSET + k then MarkerBytes()[j - MARKER_OFFSET] else flash[j]
  {
    MarkerByByte(HeaderIn(flash));
    MarkerInBytes();
    var flash' := Programmed(flash, MARKER_OFFSET, MarkerBytes(), k);
    forall j | MARKER_OFFSET <= j < MARKER_OFFSET + k
      ensures flash'[j] == MarkerBytes()[j - MARKER_OFFSET]
    {
      assert flash[j] == HeaderIn(flash)[j];
      AndErasedByte(MarkerBytes()[j - MARKER_OFFSET]);
    }
    hide And, Read32, Write32;
  }

  /** A marker cut short is not valid; a complete one is, and nothing else changed. */
  lemma MarkerProgrammed(flash: Partition, k: nat)
    requires MarkerErased(flash) && k <= 4
    ensures var flash' := Programmed(flash, MARKER_OFFSET, MarkerBytes(), k);
            && (Committed(flash') <==> k == 4)
            && (k == 4 ==> flash' == WithMarker(flash))
  {
    MarkerPrefix(flash, k);
    MarkerInBytes();
    var flash' := Programmed(flash, MARKER_OFFSET, MarkerBytes(), k);
    MarkerByByte(HeaderIn(flash'));
    MarkerByByte(HeaderIn(flash));
    hide Programmed, Read32, Write32, MarkerBytes;
    assert forall j | MARKER_OFFSET <= j < MARKER_END :: flash'[j] == HeaderIn(flash')[j] && flash[j] == HeaderIn(flash)[j];
    assert HeaderIn(flash')[60] == flash'[60] && HeaderIn(flash')[61] == flash'[61];
    assert HeaderIn(flash')[62] == flash'[62] && HeaderIn(flash')[63] == flash'[63];
  }

  /** After the marker is complete, the package checks as it did before. */
  lemma CommittedChecks(flash: Partition, size: nat)
    requires MarkerErased(flash) && CheckManifest(WithMarker(HeaderIn(flash)), size) == Ok && ImageMatches(flash, HeaderIn(flash))
    ensures var flash' := Programmed(flash, MARKER_OFFSET, MarkerBytes(), 4);
            && HeaderIn(flash') == WithMarker(HeaderIn(flash))
            && ImageMatches(flash', HeaderIn(flash'))
  {
    hide Read32, Read16, Write32, Crc32.Value, Programmed, CheckManifest;
    MarkerProgrammed(flash, 4);
    SameImageFields(HeaderIn(flash));
    MarkerOutsideImage(flash, ImageSize(HeaderIn(flash)));
    hide WithMarker, ImageSize, ImageCrc32;
  }

  lemma MarkerOutsideImage(flash: Partition, size: nat)
    requires size <= APP_MAX_SIZE
    ensures HeaderIn(WithMarker(flash)) == WithMarker(HeaderIn(flash))
    ensures WithMarker(flash)[IMAGE_OFFSET..IMAGE_OFFSET + size] == flash[IMAGE_OFFSET..IMAGE_OFFSET + size]
  {
    hide Write32;
  }

  /** Erasing at least the first sector takes the marker away. */
  lemma EraseTakesMarker(flash: Partition, n: nat)
    requires MARKER_END <= n <= |flash|
    ensures MarkerErased(ErasedPrefix(flash, n)) && !Committed(ErasedPrefix(flash, n))
  {
  }
}
