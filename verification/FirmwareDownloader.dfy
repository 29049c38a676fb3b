/** The gateway's download task: resume or restart, stage, verify what flash holds, commit. */
module FirmwareDownloader {
  import opened Types
  import opened ByteOrder
  import opened Nor
  import opened FirmwareStore
  import Crc32
  import Messages

  const CHUNK_SIZE: nat := 4096
  const DOWNLOAD_CHECKPOINT_SIZE: nat := 64 * 1024

  /** The release as the server describes it. */
  datatype Remote = Remote(
    firmwareId: string, etag: string, version: u32, imageSize: u32, imageCrc32: u32, packageSize: nat,
    imageSha: seq<byte>, packageSha: seq<byte>)

  /** The record in non-volatile storage; it may be older than the flash content. */
  datatype Checkpoint = Checkpoint(firmwareId: string, etag: string, packageSize: nat, received: nat, packageSha: seq<byte>)

  predicate Usable(c: Checkpoint) {
    IMAGE_OFFSET <= c.packageSize && c.received <= c.packageSize && c.etag != ""
  }

  predicate CheckpointMatches(c: Checkpoint, m: Remote) {
    c.firmwareId == m.firmwareId && c.packageSize == m.packageSize && c.packageSha == m.packageSha && c.etag == m.etag
  }

  function FreshRecord(m: Remote): Checkpoint {
    Checkpoint(m.firmwareId, m.etag, m.packageSize, 0, m.packageSha)
  }

  const HTTP_OK: nat := 200
  const HTTP_PARTIAL_CONTENT: nat := 206

  /** The three numbers of a Content-Range header. */
  datatype ContentRange = ContentRange(start: nat, end: nat, total: nat)

  /** What the server sends before the body, or that no connection came about. */
  datatype Http = NoConnection | Http(code: nat, etag: string, range: Option<ContentRange>, contentLength: int)

  /** The whole package from its first byte. */
  predicate AnswersWhole(h: Http, m: Remote) {
    h.Http? && h.etag == m.etag && h.code == HTTP_OK && h.contentLength == m.packageSize
  }

  /** The rest of the same package, from the requested byte to its end. */
  predicate AnswersRest(h: Http, m: Remote, from: nat) {
    && from < m.packageSize && h.Http? && h.etag == m.etag && h.code == HTTP_PARTIAL_CONTENT
    && h.range == Some(ContentRange(from, m.packageSize - 1, m.packageSize))
    && h.contentLength == m.packageSize - from
  }

  /** Nothing is in the way: no cut, no cancel, no failed save, a server that keeps talking. */
  ghost predicate Smooth(env: Environment, m: Remote) {
    && (forall n: nat :: env.ops(n) >= m.packageSize)
    && (forall n: nat :: env.saves(n))
    && (forall n: nat :: !env.cancels(n))
    && m.etag != ""
    && (forall n: nat :: AnswersWhole(env.opens(n, None), m))
    && (forall n: nat, from: nat | from < m.packageSize ::
          AnswersWhole(env.opens(n, Some(from)), m) || AnswersRest(env.opens(n, Some(from)), m, from))
    && (forall n: nat, at: nat | at < m.packageSize :: env.chunks(n, at) != [])
  }

  /** The server resumes whatever it is asked to resume. */
  ghost predicate Resumes(env: Environment, m: Remote) {
    forall n: nat, from: nat | from < m.packageSize :: AnswersRest(env.opens(n, Some(from)), m, from)
  }

  /** No other bytes have the package's digest. */
  ghost predicate OnlyDigest(sha: Hash, package: seq<byte>) {
    forall other: seq<byte> :: sha(other) == sha(package) ==> other == package
  }

  /** Everything the download task cannot control, in the order in which it meets it. */
  class Environment {
    var clock: nat
    const ops: nat -> nat
    const saves: nat -> bool
    const cancels: nat -> bool
    const opens: (nat, Option<nat>) -> Http
    const chunks: (nat, nat) -> seq<byte>

    constructor (ops: nat -> nat, saves: nat -> bool, cancels: nat -> bool, opens: (nat, Option<nat>) -> Http,
                 chunks: (nat, nat) -> seq<byte>)
      ensures this.ops == ops && this.saves == saves && this.cancels == cancels
      ensures this.opens == opens && this.chunks == chunks
    {
      this.ops, this.saves, this.cancels, this.opens, this.chunks := ops, saves, cancels, opens, chunks;
      clock := 0;
    }

    method Tick() returns (now: nat)
      modifies this
      ensures now == old(clock) && clock == now + 1
    {
      now := clock;
      clock := clock + 1;
    }
  }

  // ---- Safety of the cache ----

  type Hash = seq<byte> -> seq<byte>

  /** The whole stored package is the one the release describes. */
  ghost predicate Vouches(sha: Hash, flash: Partition, m: Remote) {
    && MARKER_END <= m.packageSize <= |flash|
    && sha(flash[..m.packageSize]) == m.packageSha
    && var h := HeaderIn(flash);
       && CheckManifest(h, |flash|) == Ok
       && m.packageSize == IMAGE_OFFSET + ImageSize(h) && ImageMatches(flash, h)
       && Version(h) == m.version && ImageSize(h) == m.imageSize && ImageCrc32(h) == m.imageCrc32 && ImageSha(h) == m.imageSha
  }

  /** A visible package is one that some release of the run describes. */
  ghost predicate CacheSafe(sha: Hash, flash: Partition, known: set<Remote>) {
    Committed(flash) ==> exists m :: m in known && Vouches(sha, flash, m)
  }

  /** The header agrees with the release, marker still erased. */
  predicate HeaderAgrees(h: Raw, m: Remote) {
    && Magic(h) == PACKAGE_MAGIC && Format(h) == PACKAGE_FORMAT && HeaderSize(h) == HEADER_SIZE
    && Version(h) == m.version && ImageSize(h) == m.imageSize && ImageCrc32(h) == m.imageCrc32
    && Product(h) == Messages.PRODUCT_ID && Hardware(h) == Messages.HARDWARE_ID
    && Marker(h) == ERASED_WORD && ImageSha(h) == m.imageSha
  }

  lemma MarkerKept(flash: Partition, flash': Partition)
    requires |flash'| == |flash| && forall j | MARKER_OFFSET <= j < MARKER_END :: flash'[j] == flash[j]
    ensures Marker(HeaderIn(flash')) == Marker(HeaderIn(flash))
  {
    assert forall j | MARKER_OFFSET <= j < MARKER_END :: HeaderIn(flash')[j] == flash'[j] && HeaderIn(flash)[j] == flash[j];
  }

  lemma SameHeaderFields(h: Raw)
    ensures var w := WithMarker(h);
            && Version(w) == Version(h) && ImageSize(w) == ImageSize(h) && ImageCrc32(w) == ImageCrc32(h)
            && ImageSha(w) == ImageSha(h)
  {
    hide Write32;
    assert WithMarker(h)[24..56] == h[24..56];
  }

  /** The marker completes exactly the package that was verified. */
  lemma CommitVouches(sha: Hash, flash: Partition, m: Remote, k: nat)
    requires MarkerErased(flash) && k <= 4
    requires MARKER_END <= m.packageSize <= |flash| && sha(WithMarker(flash[..m.packageSize])) == m.packageSha
    requires HeaderAgrees(HeaderIn(flash), m)
    requires CheckManifest(WithMarker(HeaderIn(flash)), |flash|) == Ok && ImageMatches(flash, HeaderIn(flash))
    requires m.packageSize == IMAGE_OFFSET + ImageSize(HeaderIn(flash))
    ensures var flash' := Programmed(flash, MARKER_OFFSET, MarkerBytes(), k);
            && (Committed(flash') <==> k == 4)
            && (k == 4 ==> Vouches(sha, flash', m))
  {
    MarkerProgrammed(flash, k);
    hide Programmed, Read32, Read16, Crc32.Value;
    if k == 4 {
      var size := ImageSize(HeaderIn(flash));
      MarkedPrefix(flash, m.packageSize);
      MarkedPrefix(flash, HEADER_SIZE);
      MarkedRest(flash, size);
      SameHeaderFields(HeaderIn(flash));
      hide WithMarker, CheckManifest;
    }
  }

  lemma MarkedPrefix(flash: Partition, n: nat)
    requires MARKER_END <= n <= |flash|
    ensures WithMarker(flash)[..n] == WithMarker(flash[..n])
  {
    hide Write32;
  }

  lemma MarkedRest(flash: Partition, size: nat)
    requires IMAGE_OFFSET + size <= |flash|
    ensures WithMarker(flash)[IMAGE_OFFSET..IMAGE_OFFSET + size] == flash[IMAGE_OFFSET..IMAGE_OFFSET + size]
  {
    hide Write32;
  }

  // ---- Resuming over bytes that are already there ----

  /**
   * Up to `received` the cache holds the package, from there on each byte can still be
   * programmed to the package's; the marker is left out of both.
   */
  predicate Staged(flash: Partition, package: seq<byte>, received: nat)
    requires |package| <= |flash|
  {
    && (forall j | 0 <= j < received && j < |package| && !(MARKER_OFFSET <= j < MARKER_END) :: flash[j] == package[j])
    && (forall j | 0 <= j < |package| && !(MARKER_OFFSET <= j < MARKER_END) :: And(flash[j], package[j]) == package[j])
  }

  /** A checkpoint that lags behind the flash describes it as well. */
  lemma StaleIsStaged(flash: Partition, package: seq<byte>, received: nat, earlier: nat)
    requires |package| <= |flash| && Staged(flash, package, received) && earlier <= received
    ensures Staged(flash, package, earlier)
  {
    hide And;
  }

  /** An erased cache is staged for every package. */
  lemma ErasedIsStaged(flash: Partition, package: seq<byte>)
    requires |package| <= |flash| && forall j | 0 <= j < |package| :: flash[j] == ERASED_BYTE
    ensures Staged(flash, package, 0)
  {
    forall j | 0 <= j < |package|
      ensures And(flash[j], package[j]) == package[j]
    {
      AndErasedByte(package[j]);
    }
    hide And;
  }

  /** Writing package bytes, again or for the first time, even in part, keeps the cache staged. */
  lemma WriteKeepsStaged(before: Partition, after: Partition, package: seq<byte>, received: nat, length: nat, done: bool)
    requires |after| == |before| >= |package| && Staged(before, package, received) && received + length <= |package|
    requires forall j | 0 <= j < |before| && (j < received || j >= received + length) :: after[j] == before[j]
    requires forall j | received <= j < received + length :: after[j] == before[j] || after[j] == And(before[j], package[j])
    requires done ==> forall j | received <= j < received + length && !(MARKER_OFFSET <= j < MARKER_END) ::
                        after[j] == And(before[j], package[j])
    ensures Staged(after, package, if done then received + length else received)
  {
    forall j | 0 <= j < |package|
      ensures And(package[j], package[j]) == package[j]
    {
      AndSelf(package[j]);
    }
    hide And;
  }

  /** An erase took the cache's first bytes. */
  ghost predicate Erased(before: Partition, after: Partition) {
    exists n | 0 < n <= |before| :: after == ErasedPrefix(before, n)
  }

  /** The marker is no part of what is staged. */
  lemma StagedOffMarker(before: Partition, after: Partition, package: seq<byte>, received: nat)
    requires |after| == |before| >= |package| && Staged(before, package, received)
    requires forall j | 0 <= j < |before| && !(MARKER_OFFSET <= j < MARKER_END) :: after[j] == before[j]
    ensures Staged(after, package, received)
  {
    hide And;
  }

  // ---- What a resumed download leaves behind ----

  /** From `from` to `to` the package's bytes were programmed over what was there; nothing else but the marker changed. */
  predicate Wrote(before: Partition, after: Partition, package: seq<byte>, from: nat, to: nat)
    requires |package| <= |before|
  {
    && |after| == |before| && from <= to <= |package|
    && forall j | 0 <= j < |package| && !(MARKER_OFFSET <= j < MARKER_END) ::
         after[j] == if from <= j < to then And(before[j], package[j]) else before[j]
  }

  lemma WriteWrote(before: Partition, after: Partition, package: seq<byte>, received: nat, length: nat)
    requires |after| == |before| >= |package| && received + length <= |package|
    requires forall j | 0 <= j < |before| && (j < received || j >= received + length) :: after[j] == before[j]
    requires forall j | received <= j < received + length && !(MARKER_OFFSET <= j < MARKER_END) ::
               after[j] == And(before[j], package[j])
    ensures Wrote(before, after, package, received, received + length)
  {
    hide And;
  }

  lemma WroteOn(before: Partition, middle: Partition, after: Partition, package: seq<byte>, from: nat, via: nat, to: nat)
    requires |package| <= |before| && Wrote(before, middle, package, from, via) && Wrote(middle, after, package, via, to)
    ensures Wrote(before, after, package, from, to)
  {
    hide And;
  }

  /** Resuming cannot repair a cache that the checkpoint does not describe. */
  lemma WrongStaysWrong(before: Partition, after: Partition, package: seq<byte>, from: nat)
    requires MARKER_END <= |package| <= |before|
    requires !Staged(before, package, from) && Wrote(before, after, package, from, |package|)
    ensures WithMarker(after[..|package|]) != package
  {
    var j :| 0 <= j < |package| && !(MARKER_OFFSET <= j < MARKER_END) &&
             ((j < from && before[j] != package[j]) || And(before[j], package[j]) != package[j]);
    AndSelf(package[j]);
    hide And, Write32;
    assert WithMarker(after[..|package|])[j] == after[j];
  }

  /** A usable checkpoint for this release says no more than the cache holds. */
  predicate Describes(c: Checkpoint, flash: Partition, m: Remote, package: seq<byte>) {
    Usable(c) && CheckpointMatches(c, m) && MarkerErased(flash) && |package| <= |flash| ==>
      Staged(flash, package, c.received)
  }

  /** A package that checks starts with its magic, which is not what erased flash reads as. */
  lemma PackageIsNotErased(package: seq<byte>, size: nat)
    requires |package| >= HEADER_SIZE && CheckManifest(package[..HEADER_SIZE], size) == Ok
    ensures package[0] == 0x47 != ERASED_BYTE
  {
    hide Crc32.Value;
    assert package[..HEADER_SIZE][0] == package[0];
  }

  /** An erase that no checkpoint follows outdates every earlier one with received bytes. */
  lemma EraseOutdatesCheckpoint(flash: Partition, n: nat, c: Checkpoint, m: Remote, package: seq<byte>)
    requires MARKER_END <= n <= |flash| && n % SECTOR_SIZE == 0
    requires Usable(c) && CheckpointMatches(c, m) && c.received > 0
    requires 0 < |package| <= |flash| && package[0] != ERASED_BYTE
    ensures MarkerErased(ErasedPrefix(flash, n)) && !Describes(c, ErasedPrefix(flash, n), m, package)
  {
    EraseTakesMarker(flash, n);
    hide And, Read32;
    assert ErasedPrefix(flash, n)[0] == ERASED_BYTE;
  }

  /** A release of two sectors and an erased cache with a checkpoint at the first 64 KiB boundary. */
  lemma ErasedCacheMisleads(release: string, tag: string, sha: seq<byte>)
    requires tag != ""
    ensures var m := Remote(release, tag, 1, 0x1_F000, 0, 0x2_0000, sha, sha);
            var c := FreshRecord(m).(received := DOWNLOAD_CHECKPOINT_SIZE);
            var erased: Partition := seq(IMAGE_OFFSET + APP_MAX_SIZE, (_: nat) => ERASED_BYTE);
            var package := seq(0x2_0000, (_: nat) => 0x47);
            Usable(c) && CheckpointMatches(c, m) && MarkerErased(erased) && !Describes(c, erased, m, package)
  {
    var m := Remote(release, tag, 1, 0x1_F000, 0, 0x2_0000, sha, sha);
    var erased: Partition := seq(IMAGE_OFFSET + APP_MAX_SIZE, (_: nat) => ERASED_BYTE);
    assert ErasedPrefix(erased, SECTOR_SIZE) == erased;
    EraseOutdatesCheckpoint(erased, SECTOR_SIZE, FreshRecord(m).(received := DOWNLOAD_CHECKPOINT_SIZE), m,
                            seq(0x2_0000, (_: nat) => 0x47));
  }

  // ---- The download task ----

  class Downloader {
    const store: Store
    const env: Environment
    const sha: Hash
    var nvs: Option<Checkpoint>
    var record: Checkpoint

    ghost predicate Valid()
      reads this, store
    {
      store.Valid()
    }

    constructor (store: Store, env: Environment, sha: Hash, nvs: Option<Checkpoint>)
      requires store.Valid()
      ensures Valid() && this.store == store && this.env == env && this.sha == sha && this.nvs == nvs
    {
      this.store, this.env, this.sha, this.nvs := store, env, sha, nvs;
      record := Checkpoint("", "", 0, 0, []);
    }

    method CancelRequested() returns (cancelled: bool)
      modifies env
      ensures (forall n: nat :: !env.cancels(n)) ==> !cancelled
    {
      var now := env.Tick();
      cancelled := env.cancels(now);
    }

    /** Saving to non-volatile storage happens or does not. */
    method SaveCheckpoint() returns (ok: bool)
      modifies this`nvs, env
      ensures nvs == if ok then Some(record) else old(nvs)
      ensures (forall n: nat :: env.saves(n)) ==> ok
    {
      var now := env.Tick();
      ok := env.saves(now);
      if ok { nvs := Some(record); }
    }

    method LoadCheckpoint() returns (loaded: Option<Checkpoint>)
      ensures loaded == if nvs.Some? && Usable(nvs.value) then nvs else None
    {
      loaded := if nvs.Some? && Usable(nvs.value) then nvs else None;
    }

    /** Staging is open for a package of this size, and the package is invisible. */
    ghost predicate Open(size: nat)
      requires Valid()
      reads this, store, store.partition
    {
      store.downloadActive && store.packageSize == size && MarkerErased(store.Flash())
    }

    ghost predicate Fits(m: Remote)
      reads this, store
    {
      store.found && IMAGE_OFFSET <= m.packageSize && Sectors(m.packageSize) * SECTOR_SIZE <= store.partition.Length
    }

    method Begin(m: Remote) returns (status: Status)
      requires Valid()
      modifies store, store.partition, env
      ensures Valid()
      ensures store.Flash() == old(store.Flash()) || !Committed(store.Flash())
      ensures store.Flash() == old(store.Flash()) || Erased(old(store.Flash()), store.Flash())
      ensures status == Ok ==> Erased(old(store.Flash()), store.Flash())
      ensures status == Ok ==> Open(m.packageSize) && IMAGE_OFFSET <= m.packageSize
      ensures status == Ok ==> m.packageSize <= store.partition.Length &&
                               forall j | 0 <= j < m.packageSize :: store.partition[j] == ERASED_BYTE
      ensures Smooth(env, m) && old(Fits(m)) ==> status == Ok
      ensures store.found == old(store.found)
    {
      hide Read32;
      var now := env.Tick();
      ghost var flash := store.Flash();
      status := store.DownloadBegin(m.packageSize, env.ops(now));
      if store.Flash() != flash {
        ghost var n :| 0 < n <= |flash| && n % SECTOR_SIZE == 0 && store.Flash() == ErasedPrefix(flash, n);
        EraseTakesMarker(flash, n);
      }
      if status == Ok {
        ghost var n :| m.packageSize <= n <= |flash| && store.Flash() == ErasedPrefix(flash, n);
        EraseTakesMarker(flash, n);
        assert forall j | 0 <= j < m.packageSize :: store.partition[j] == store.Flash()[j];
      }
    }

    method WriteChunk(m: Remote, received: nat, buffer: seq<byte>, ghost package: seq<byte>) returns (status: Status)
      requires Valid() && Open(m.packageSize) && received + |buffer| <= m.packageSize
      modifies store.partition, env
      ensures Valid() && Open(m.packageSize)
      ensures |package| == m.packageSize <= store.partition.Length && Staged(old(store.Flash()), package, received) &&
              Delivers(buffer, package, received) ==>
                Staged(store.Flash(), package, if status == Ok then received + |buffer| else received)
      ensures |package| == m.packageSize <= store.partition.Length && Delivers(buffer, package, received) && status == Ok ==>
                Wrote(old(store.Flash()), store.Flash(), package, received, received + |buffer|)
      ensures Smooth(env, m) ==> status == Ok
    {
      hide And, Read32, Staged, Wrote;
      ghost var before := store.Flash();
      var now := env.Tick();
      status := store.DownloadWrite(received, buffer, env.ops(now));
      MarkerKept(before, store.Flash());
      if |package| == m.packageSize && Delivers(buffer, package, received) {
        if Staged(before, package, received) {
          WriteKeepsStaged(before, store.Flash(), package, received, |buffer|, status == Ok);
        }
        if status == Ok {
          WriteWrote(before, store.Flash(), package, received, |buffer|);
        }
      }
    }

    /** One piece of the body, as long as the server likes but no longer than the buffer and the package. */
    method ReadPiece(m: Remote, received: nat, ghost package: seq<byte>) returns (status: Status, length: nat)
      requires Valid() && Open(m.packageSize) && received < m.packageSize
      modifies store.partition, env
      ensures Valid() && Open(m.packageSize)
      ensures status == Ok ==> 0 < length && received + length <= m.packageSize
      ensures Smooth(env, m) ==> status == Ok
      ensures Honest(package, m) && m.packageSize <= store.partition.Length && Staged(old(store.Flash()), package, received) ==>
                Staged(store.Flash(), package, if status == Ok then received + length else received)
      ensures Honest(package, m) && m.packageSize <= store.partition.Length && status == Ok ==>
                Wrote(old(store.Flash()), store.Flash(), package, received, received + length)
    {
      hide And, Read32, Staged, Wrote;
      length := 0;
      var cancelled := CancelRequested();
      if cancelled { return InvalidState, length; }
      var remaining := m.packageSize - received;
      var now := env.Tick();
      var body := env.chunks(now, received);
      assert Honest(package, m) ==> Delivers(body, package, received);
      if body == [] { return InvalidResponse, length; }
      var limit := if remaining > CHUNK_SIZE then CHUNK_SIZE else remaining;
      var buffer := if |body| > limit then body[..limit] else body;
      status := WriteChunk(m, received, buffer, package);
      length := |buffer|;
    }

    /** A checkpoint for every 64 KiB and for the complete package. */
    method SaveIfDue(complete: bool, stored: nat) returns (ok: bool, next: nat)
      modifies this`nvs, env
      ensures nvs == old(nvs) || nvs == Some(record)
      ensures ok && complete ==> nvs == Some(record)
      ensures (forall n: nat :: env.saves(n)) ==> ok
    {
      ok, next := true, stored;
      if complete || record.received / DOWNLOAD_CHECKPOINT_SIZE > stored / DOWNLOAD_CHECKPOINT_SIZE {
        ok := SaveCheckpoint();
        if ok { next := record.received; }
      }
    }

    /** The body, piece by piece, from `received` on. */
    method ReadBody(m: Remote, start: nat, ghost package: seq<byte>) returns (status: Status)
      requires Valid() && Open(m.packageSize) && start <= m.packageSize
      requires record.received == start
      modifies this, store.partition, env
      ensures Valid() && Open(m.packageSize)
      ensures status == Ok ==> record.received == m.packageSize
      ensures status == Ok && start < m.packageSize ==> nvs == Some(record)
      ensures Honest(package, m) && m.packageSize <= store.partition.Length && status == Ok ==>
                Wrote(old(store.Flash()), store.Flash(), package, start, m.packageSize)
      ensures Smooth(env, m) ==> status == Ok
      ensures Honest(package, m) && m.packageSize <= store.partition.Length && Staged(old(store.Flash()), package, start) ==>
                Staged(store.Flash(), package, record.received)
      ensures nvs == old(nvs) ||
              (nvs.Some? && start <= nvs.value.received <= record.received &&
               nvs.value == record.(received := nvs.value.received))
      ensures record == old(record).(received := record.received) && start <= record.received <= m.packageSize
    {
      ghost var before, honest := store.Flash(), Honest(package, m);
      assert honest ==> Wrote(before, before, package, start, start);
      assert Smooth(env, m) ==> forall n: nat :: env.saves(n);
      hide And, Read32, Staged, Wrote, Honest, Smooth;
      var received, storedCheckpoint := start, start;
      status := Ok;
      ghost var sound := honest && Staged(store.Flash(), package, start);
      while received < m.packageSize
        invariant status == Ok && start <= received <= m.packageSize && record == old(record).(received := received)
        invariant Valid() && Open(m.packageSize)
        invariant sound ==> Staged(store.Flash(), package, received)
        invariant honest == Honest(package, m)
        invariant honest ==> |package| == m.packageSize && Wrote(before, store.Flash(), package, start, received)
        invariant start < received == m.packageSize ==> nvs == Some(record)
        invariant nvs == old(nvs) ||
                  (nvs.Some? && start <= nvs.value.received <= received &&
                   nvs.value == record.(received := nvs.value.received))
      {
        ghost var middle := store.Flash();
        var length;
        status, length := ReadPiece(m, received, package);
        if status != Ok { return; }
        if honest {
          WroteOn(before, middle, store.Flash(), package, start, received, received + length);
        }
        received := received + length;
        record := record.(received := received);
        var saved;
        saved, storedCheckpoint := SaveIfDue(received == m.packageSize, storedCheckpoint);
        if !saved { return Failed; }
      }
    }

    /** The checkpoint in storage and the one in memory describe the cache, the former perhaps an earlier state of it. */
    ghost predicate Tracks(package: seq<byte>)
      requires Valid()
      reads this, store, store.partition
    {
      && nvs.Some? && nvs.value == record.(received := nvs.value.received) && nvs.value.received <= record.received
      && |package| <= store.partition.Length && Staged(store.Flash(), package, record.received)
    }

    /**
     * Requests the rest of the package, or all of it again when the server starts over.  Staging is
     * never visible; a cache that was staged for an honest server's package is complete in the end,
     * and whatever stops the download before that, the checkpoint goes on describing the cache,
     * unless an erase had begun and no checkpoint was saved after it.
     */
    method DownloadBinary(m: Remote, resume: bool, ghost package: seq<byte>) returns (status: Status)
      requires Valid() && Open(m.packageSize) && IMAGE_OFFSET <= m.packageSize && record.received <= m.packageSize
      requires resume || record.received == 0
      modifies this, store, store.partition, env
      ensures Valid() && !Committed(store.Flash()) && store.found == old(store.found)
      ensures status == Ok ==> Open(m.packageSize) && record.received == m.packageSize
      ensures Honest(package, m) && m.packageSize <= store.partition.Length && old(Tracks(package)) ==>
                if status == Ok then Tracks(package)
                else
                  || Tracks(package)
                  || (resume && nvs == old(nvs) && Erased(old(store.Flash()), store.Flash()) &&
                      (record == old(record) || (record == FreshRecord(m) && Staged(store.Flash(), package, 0))))
      ensures Honest(package, m) && m.packageSize <= store.partition.Length && Resumes(env, m) && status == Ok ==>
                Wrote(old(store.Flash()), store.Flash(), package, old(record.received), m.packageSize)
      ensures Resumes(env, m) ==> record == old(record).(received := record.received)
      ensures status == Ok && old(record.received) < m.packageSize ==> nvs == Some(record)
      ensures old(record.received) == m.packageSize ==>
                status == Ok && nvs == old(nvs) && record == old(record) && store.Flash() == old(store.Flash())
      ensures Smooth(env, m) && old(Fits(m)) ==> status == Ok
      decreases resume, 1
    {
      assert |package| <= store.partition.Length && record.received <= |package| ==>
               Wrote(store.Flash(), store.Flash(), package, record.received, record.received);
      hide And, Read32, Staged, Erased, Wrote;
      MarkerErasedIsInvisible(store.Flash());
      var received := record.received;
      if received == m.packageSize { return Ok; }
      var now := env.Tick();
      var range := if resume && received > 0 then Some(received) else None;
      var answer := env.opens(now, range);
      if answer.NoConnection? { return Failed; }
      if answer.etag == "" || answer.etag != m.etag { return InvalidResponse; }
      if range.Some? && answer.code == HTTP_OK {
        status := StartOver(m, package);
        return;
      }
      if range.Some? {
        if answer.range.None? || answer.code != HTTP_PARTIAL_CONTENT || answer.range.value.start != received ||
           answer.range.value.total != m.packageSize || answer.range.value.end != m.packageSize - 1 ||
           answer.contentLength != m.packageSize - received {
          return InvalidResponse;
        }
      } else if answer.code != HTTP_OK || answer.contentLength != m.packageSize {
        return InvalidResponse;
      }
      status := ReadBody(m, received, package);
      MarkerErasedIsInvisible(store.Flash());
    }

    /** The server does not resume: erase, save a fresh checkpoint and take the package from its first byte. */
    method StartOver(m: Remote, ghost package: seq<byte>) returns (status: Status)
      requires Valid() && Open(m.packageSize) && IMAGE_OFFSET <= m.packageSize && record.received < m.packageSize
      modifies this, store, store.partition, env
      ensures Valid() && !Committed(store.Flash()) && store.found == old(store.found)
      ensures status == Ok ==> Open(m.packageSize) && record.received == m.packageSize && nvs == Some(record)
      ensures Honest(package, m) && m.packageSize <= store.partition.Length && old(Tracks(package)) ==>
                if status == Ok then Tracks(package)
                else
                  || Tracks(package)
                  || (nvs == old(nvs) && Erased(old(store.Flash()), store.Flash()) &&
                      (record == old(record) || (record == FreshRecord(m) && Staged(store.Flash(), package, 0))))
      ensures Smooth(env, m) && old(Fits(m)) ==> status == Ok
      decreases true, 0
    {
      hide And, Read32, Staged, Erased;
      MarkerErasedIsInvisible(store.Flash());
      status := Begin(m);
      if status != Ok { return; }
      if Honest(package, m) {
        ErasedIsStaged(store.Flash(), package);
      }
      record := FreshRecord(m);
      MarkerErasedIsInvisible(store.Flash());
      var saved := SaveCheckpoint();
      if !saved { return Failed; }
      status := DownloadBinary(m, false, package);
    }

    /** Hashes what flash holds, with the marker put in only for the hash, and compares the header. */
    method VerifyPackage(m: Remote) returns (status: Status)
      requires Valid() && Open(m.packageSize) && IMAGE_OFFSET <= m.packageSize <= store.partition.Length
      modifies env
      ensures Valid() && Open(m.packageSize)
      ensures status == Ok ==>
                && sha(WithMarker(store.Flash()[..m.packageSize])) == m.packageSha
                && HeaderAgrees(HeaderIn(store.Flash()), m)
      ensures Smooth(env, m) && sha(WithMarker(store.Flash()[..m.packageSize])) == m.packageSha &&
              HeaderAgrees(HeaderIn(store.Flash()), m) ==>
                status == Ok
    {
      hide Read32, Read16, Write32;
      ghost var staged := store.Flash()[..m.packageSize];
      var hashed: seq<byte> := [];
      var offset := 0;
      while offset < m.packageSize
        invariant 0 <= offset <= m.packageSize && Valid() && Open(m.packageSize)
        invariant hashed == WithMarker(staged)[..offset]
      {
        var cancelled := CancelRequested();
        if cancelled { return InvalidState; }
        var length := if m.packageSize - offset > CHUNK_SIZE then CHUNK_SIZE else m.packageSize - offset;
        var buffer;
        status, buffer := store.DownloadRead(offset, length);
        if status != Ok { return; }
        assert buffer == staged[offset..offset + length];
        buffer := RestoreMarker(offset, buffer);
        RestoredPiece(staged, offset, length, buffer);
        hashed := hashed + buffer;
        offset := offset + length;
      }
      TakeAll(WithMarker(staged), offset);
      if sha(hashed) != m.packageSha { return InvalidCrc; }
      var header;
      status, header := store.DownloadRead(0, HEADER_SIZE);
      if status != Ok { return; }
      if !HeaderAgrees(header, m) { return InvalidResponse; }
    }

    /** The package is a good one for this release. */
    ghost predicate Genuine(package: seq<byte>, m: Remote)
      requires Valid()
      reads this, store
    {
      && IMAGE_OFFSET + APP_MAX_SIZE <= store.partition.Length
      && |package| == m.packageSize && IMAGE_OFFSET <= m.packageSize <= store.partition.Length
      && sha(package) == m.packageSha
      && package[MARKER_OFFSET..MARKER_END] == MarkerBytes()
      && CheckManifest(package[..HEADER_SIZE], store.partition.Length) == Ok
      && GenuineHeader(package[..HEADER_SIZE], m)
      && m.packageSize == IMAGE_OFFSET + m.imageSize
      && Crc32.Value(package[IMAGE_OFFSET..]) == m.imageCrc32
    }

    /** The checkpoint the download task would resume from describes the cache. */
    ghost predicate ResumesWell(m: Remote, package: seq<byte>)
      requires Valid()
      reads this, store, store.partition
    {
      nvs.Some? ==> Describes(nvs.value, store.Flash(), m, package)
    }

    lemma TracksResumesWell(m: Remote, package: seq<byte>)
      requires Valid() && Tracks(package)
      ensures ResumesWell(m, package)
    {
      StaleIsStaged(store.Flash(), package, record.received, nvs.value.received);
      hide Staged;
    }

    ghost predicate WouldResume(m: Remote)
      requires Valid()
      reads this, store, store.partition
    {
      && nvs.Some? && Usable(nvs.value) && CheckpointMatches(nvs.value, m)
      && store.found && m.packageSize <= store.partition.Length && MarkerErased(store.Flash())
    }

    /** A checkpoint for all of a package that the cache does not hold. */
    ghost predicate Stuck(m: Remote)
      requires Valid()
      reads this, store, store.partition
    {
      && WouldResume(m) && nvs.value.received == m.packageSize
      && sha(WithMarker(store.Flash()[..m.packageSize])) != m.packageSha
    }

    /** Resume from a matching checkpoint over an erased marker, or begin anew. */
    method Prepare(m: Remote, ghost package: seq<byte>) returns (status: Status, resume: bool)
      requires Valid()
      modifies this, store, store.partition, env
      ensures Valid() && store.found == old(store.found)
      ensures store.Flash() == old(store.Flash()) || !Committed(store.Flash())
      ensures status == Ok ==> Open(m.packageSize) && IMAGE_OFFSET <= m.packageSize <= store.partition.Length
                               && record.received <= m.packageSize
      ensures status == Ok && |package| == m.packageSize && old(ResumesWell(m, package)) ==> Tracks(package)
      ensures if resume then nvs == old(nvs) && store.Flash() == old(store.Flash()) && nvs == Some(record)
              else status == Ok ==> record.received == 0
      ensures status != Ok ==> nvs == old(nvs) && (store.Flash() == old(store.Flash()) || Erased(old(store.Flash()), store.Flash()))
      ensures old(WouldResume(m)) ==> status == Ok && resume
      ensures Smooth(env, m) && old(Fits(m)) ==> status == Ok
    {
      hide And, Read32, Read16, Staged, Erased;
      resume := false;
      var loaded := LoadCheckpoint();
      if loaded.Some? {
        record := loaded.value;
        if CheckpointMatches(record, m) {
          status := store.DownloadResume(m.packageSize);
          resume := status == Ok;
        }
      }
      if !resume {
        status := Begin(m);
        if status != Ok { return; }
        MarkerErasedIsInvisible(store.Flash());
        if |package| == m.packageSize {
          ErasedIsStaged(store.Flash(), package);
        }
        record := FreshRecord(m);
        var saved := SaveCheckpoint();
        if !saved { return Failed, resume; }
      }
      return Ok, resume;
    }

    /** Verification and commit; a good package that is completely staged gets through. */
    method Finish(m: Remote, ghost known: set<Remote>, ghost package: seq<byte>) returns (status: Status)
      requires Valid() && Open(m.packageSize) && IMAGE_OFFSET <= m.packageSize <= store.partition.Length
      modifies this, store, store.partition, env
      ensures Valid() && store.found == old(store.found)
      ensures CacheSafe(sha, store.Flash(), known + {m})
      ensures status == Ok ==> Committed(store.Flash()) && Vouches(sha, store.Flash(), m)
      ensures Smooth(env, m) && old(Genuine(package, m)) && old(Staged(store.Flash(), package, m.packageSize)) ==> status == Ok
      ensures record == old(record) && (nvs == old(nvs) || nvs.None? || nvs == Some(record))
      ensures forall j | 0 <= j < store.partition.Length && !(MARKER_OFFSET <= j < MARKER_END) ::
                store.partition[j] == old(store.partition[j])
      ensures sha(WithMarker(old(store.Flash())[..m.packageSize])) != m.packageSha ==>
                status != Ok && store.Flash() == old(store.Flash()) && (nvs == old(nvs) || nvs == Some(record))
    {
      hide And, Read32, Read16, Staged, Vouches, CheckManifest, WithMarker, HeaderAgrees;
      MarkerErasedIsInvisible(store.Flash());
      if Genuine(package, m) && Staged(store.Flash(), package, m.packageSize) {
        GenuineIsCommittable(store.Flash(), package, m, store.partition.Length);
      }
      status := VerifyPackage(m);
      if status != Ok {
        SaveOnCancel();
        return;
      }
      var cancelled := CancelRequested();
      if cancelled { return InvalidState; }
      status := Commit(m, known);
      if status != Ok { return; }
      var now := env.Tick();
      if env.saves(now) { nvs := None; }
    }

    /**
     * The download task.  Whatever cuts it short, the cache shows only packages whose hash and CRC were
     * checked as they lie in flash; with a good server and nothing in the way it completes, also
     * from a checkpoint that lags behind the flash.  The checkpoint it leaves describes the cache
     * if the one it found did, unless an erase had begun and no checkpoint was saved after it.
     * With a good server that resumes, and nothing in the way, it completes if and only if the
     * checkpoint describes the cache; otherwise it ends in a complete checkpoint over a cache that
     * does not hold the package.  That is a dead end: a run from there fails and changes nothing,
     * and so does every later run for this release.
     */
    method Run(m: Remote, ghost known: set<Remote>, ghost package: seq<byte>) returns (status: Status)
      requires Valid() && CacheSafe(sha, store.Flash(), known)
      modifies this, store, store.partition, env
      ensures Valid()
      ensures CacheSafe(sha, store.Flash(), known + {m})
      ensures status == Ok ==> Committed(store.Flash()) && Vouches(sha, store.Flash(), m)
      ensures Smooth(env, m) && old(Fits(m)) && Honest(package, m) && old(Genuine(package, m)) && old(ResumesWell(m, package)) ==>
                status == Ok
      ensures Honest(package, m) && m.packageSize <= store.partition.Length && old(ResumesWell(m, package)) ==>
                ResumesWell(m, package) || (nvs == old(nvs) && Erased(old(store.Flash()), store.Flash()))
      ensures Smooth(env, m) && Resumes(env, m) && old(Fits(m)) && Honest(package, m) && old(Genuine(package, m)) &&
              OnlyDigest(sha, package) ==>
                && (status == Ok <==> old(ResumesWell(m, package)))
                && (status != Ok ==> Stuck(m))
      ensures old(Stuck(m)) ==> status != Ok && Stuck(m) && nvs == old(nvs) && store.Flash() == old(store.Flash())
    {
      hide And, Read32, Read16, Staged, Vouches, CheckManifest, WithMarker, HeaderAgrees, MarkerErased, Committed, Erased, Wrote;
      var cancelled := CancelRequested();
      if cancelled { return InvalidState; }
      var resume;
      status, resume := Prepare(m, package);
      if status != Ok { return; }
      ghost var found, from := store.Flash(), record.received;
      status := DownloadBinary(m, resume, package);
      if status != Ok {
        SaveOnCancel();
      } else {
        ghost var before, tracked := store.Flash(), Tracks(package);
        if Resumes(env, m) && Honest(package, m) && m.packageSize <= store.partition.Length && !Staged(found, package, from) {
          WrongStaysWrong(found, before, package, from);
        }
        status := Finish(m, known, package);
        if tracked {
          StagedOffMarker(before, store.Flash(), package, record.received);
        }
      }
      if nvs.Some? && |package| <= store.partition.Length && Tracks(package) {
        TracksResumesWell(m, package);
      }
    }

    method SaveOnCancel()
      requires Valid()
      modifies this`nvs, env
      ensures Valid() && (nvs == old(nvs) || nvs == Some(record))
    {
      var cancelled := CancelRequested();
      if cancelled {
        var ignored := SaveCheckpoint();
      }
    }

    method Commit(m: Remote, ghost known: set<Remote>) returns (status: Status)
      requires Valid() && Open(m.packageSize) && IMAGE_OFFSET <= m.packageSize <= store.partition.Length
      requires sha(WithMarker(store.Flash()[..m.packageSize])) == m.packageSha && HeaderAgrees(HeaderIn(store.Flash()), m)
      modifies store, store.partition, env
      ensures Valid() && store.found == old(store.found)
      ensures CacheSafe(sha, store.Flash(), known + {m})
      ensures status == Ok ==> Committed(store.Flash()) && Vouches(sha, store.Flash(), m)
      ensures Smooth(env, m) && old(store.Committable()) ==> status == Ok
      ensures forall j | 0 <= j < store.partition.Length && !(MARKER_OFFSET <= j < MARKER_END) ::
                store.partition[j] == old(store.partition[j])
    {
      hide And, Read32, Read16, Vouches, CheckManifest, Write32;
      ghost var flash := store.Flash();
      MarkerErasedIsInvisible(flash);
      var now := env.Tick();
      ghost var committable := store.Committable();
      status := store.DownloadCommit(env.ops(now));
      if committable {
        CommitVouches(sha, flash, m, Min(env.ops(now), 4));
      }
      assert m in known + {m};
    }

    /** The server's bytes are the package's. */
    ghost predicate Honest(package: seq<byte>, m: Remote)
    {
      && |package| == m.packageSize
      && forall n: nat, at: nat | at <= |package| :: Delivers(env.chunks(n, at), package, at)
    }
  }

  predicate Delivers(chunk: seq<byte>, package: seq<byte>, at: nat)
    requires at <= |package|
  {
    forall i | 0 <= i < |chunk| && at + i < |package| :: chunk[i] == package[at + i]
  }

  lemma MarkerErasedIsInvisible(flash: Partition)
    ensures MarkerErased(flash) ==> !Committed(flash)
  {
    hide Read32;
  }

  /** Puts the marker into the part of a buffer that covers it. */
  method RestoreMarker(offset: nat, buffer: seq<byte>) returns (restored: seq<byte>)
    ensures |restored| == |buffer|
    ensures forall i | 0 <= i < |buffer| ::
              restored[i] == if MARKER_OFFSET <= offset + i < MARKER_END then MarkerBytes()[offset + i - MARKER_OFFSET] else buffer[i]
  {
    hide Write32;
    var end := offset + |buffer|;
    if |buffer| == 0 || offset >= MARKER_END || end <= MARKER_OFFSET { return buffer; }
    var copyStart := if offset > MARKER_OFFSET then offset else MARKER_OFFSET;
    var copyEnd := if end < MARKER_END then end else MARKER_END;
    restored := buffer[..copyStart - offset] + MarkerBytes()[copyStart - MARKER_OFFSET..copyEnd - MARKER_OFFSET]
                + buffer[copyEnd - offset..];
  }

  lemma RestoredPiece(staged: seq<byte>, offset: nat, length: nat, buffer: seq<byte>)
    requires |staged| >= MARKER_END && offset + length <= |staged| && |buffer| == length
    requires forall i | 0 <= i < length ::
               buffer[i] == if MARKER_OFFSET <= offset + i < MARKER_END then MarkerBytes()[offset + i - MARKER_OFFSET]
                            else staged[offset + i]
    ensures WithMarker(staged)[..offset] + buffer == WithMarker(staged)[..offset + length]
  {
    hide Write32;
    assert buffer == WithMarker(staged)[offset..offset + length];
  }

  predicate GenuineHeader(h: Raw, m: Remote) {
    Version(h) == m.version && ImageSize(h) == m.imageSize && ImageCrc32(h) == m.imageCrc32 && ImageSha(h) == m.imageSha
  }

  /** A completely staged cache is the package but for the marker. */
  lemma FullyStagedIsPackage(flash: Partition, package: seq<byte>)
    requires MARKER_END <= |package| <= |flash| && Staged(flash, package, |package|)
    requires package[MARKER_OFFSET..MARKER_END] == MarkerBytes()
    ensures WithMarker(flash[..|package|]) == package
  {
    hide And, Write32;
    forall j | MARKER_OFFSET <= j < MARKER_END
      ensures package[j] == MarkerBytes()[j - MARKER_OFFSET]
    {
      assert package[j] == package[MARKER_OFFSET..MARKER_END][j - MARKER_OFFSET];
    }
  }

  /** A completely staged good package passes the verification and may be committed. */
  lemma GenuineIsCommittable(flash: Partition, package: seq<byte>, m: Remote, size: nat)
    requires MarkerErased(flash) && |flash| == size && |package| == m.packageSize && IMAGE_OFFSET <= m.packageSize <= size
    requires Staged(flash, package, m.packageSize) && package[MARKER_OFFSET..MARKER_END] == MarkerBytes()
    requires CheckManifest(package[..HEADER_SIZE], size) == Ok && GenuineHeader(package[..HEADER_SIZE], m)
    requires m.packageSize == IMAGE_OFFSET + m.imageSize && Crc32.Value(package[IMAGE_OFFSET..]) == m.imageCrc32
    ensures WithMarker(flash[..m.packageSize]) == package
    ensures HeaderAgrees(HeaderIn(flash), m)
    ensures CheckManifest(WithMarker(HeaderIn(flash)), size) == Ok
    ensures m.packageSize == IMAGE_OFFSET + ImageSize(HeaderIn(flash)) && ImageMatches(flash, HeaderIn(flash))
  {
    hide And, Staged, Crc32.Value, WithMarker, Read32, Read16, CheckManifest, HeaderAgrees;
    CheckedSizeFits(package[..HEADER_SIZE], size);
    FullyStagedIsPackage(flash, package);
    StagedParts(flash, package, m.imageSize);
    CheckedHeaderAgrees(HeaderIn(flash), m, size);
    SameHeaderFields(HeaderIn(flash));
  }

  /** A header that checks once its marker is put in, and is the release's, is the one verification expects. */
  lemma CheckedHeaderAgrees(h: Raw, m: Remote, size: nat)
    requires Marker(h) == ERASED_WORD && CheckManifest(WithMarker(h), size) == Ok && GenuineHeader(WithMarker(h), m)
    ensures HeaderAgrees(h, m)
  {
    hide Crc32.Value, WithMarker, Read32, Read16;
    SameHeaderFields(h);
    SameFixedFields(h);
  }

  lemma StagedParts(flash: Partition, package: seq<byte>, size: nat)
    requires IMAGE_OFFSET + size == |package| <= |flash| && WithMarker(flash[..|package|]) == package
    ensures package[..HEADER_SIZE] == WithMarker(HeaderIn(flash))
    ensures package[IMAGE_OFFSET..] == flash[IMAGE_OFFSET..IMAGE_OFFSET + size]
  {
    hide Write32;
  }

  lemma SameFixedFields(h: Raw)
    ensures var w := WithMarker(h);
            && Magic(w) == Magic(h) && Format(w) == Format(h) && HeaderSize(w) == HeaderSize(h)
            && Product(w) == Product(h) && Hardware(w) == Hardware(h)
  {
  }
}
