/** Which START opens an update, what START answers inside one, and what ABORT leaves behind. */
module Admission {
  import opened Types
  import opened Messages
  import opened MetadataLog
  import opened Device
  import opened JournalRoom
  import opened BootDecision

  /** An image of this product and hardware that fits. */
  predicate FitsDevice(m: Manifest) {
    m.product == 1 && m.hardware == 1 && 0 < m.size <= 0xE_0000 && m.version != 0
  }

  /** A START for such an image, in a numbered session. */
  predicate Admissible(req: Request) {
    && req.session != 0 && req.offset == 0
    && DecodeManifest(req.payload).Some? && FitsDevice(DecodeManifest(req.payload).value)
  }

  lemma EncodedIsAdmissible(m: Manifest, session: u32, seqno: u32)
    requires FitsDevice(m) && session != 0
    ensures Admissible(Request(Start, session, seqno, 0, EncodeManifest(m)))
  {
    ManifestRoundTrip(m);
    hide DecodeManifest, EncodeManifest;
  }

  /** The journal takes the START: it has room for the update or can be compacted, and its writes work. */
  predicate JournalTakes(log: Log, size: u32, f: Faults) {
    && (Latest(log).Some? || forall i | 0 <= i < |log| :: log[i].Erased?)
    && (Latest(log).Some? ==> Latest(log).value.seqno < 0xFFFF_FFFE)
    && WriteWorks(f.second.write)
    && (|| FreeCount(log) >= (size + 4095) / 4096 + 8
        || (Latest(log).Some? && SafeToCompact(Latest(log).value.state) &&
            EraseWorks(f.first.erase) && WriteWorks(f.first.rewrite)))
  }

  lemma CompactionWorksExactly(log: Log, plan: Plan)
    requires WellFormed(log) && Latest(log).Some?
    ensures Compact(log, Latest(log).value, plan).1 == Ok <==>
              SafeToCompact(Latest(log).value.state) && EraseWorks(plan.erase) && WriteWorks(plan.rewrite)
    ensures Compact(log, Latest(log).value, plan).1 != Empty
  {
    LatestIsValid(log);
    hide Latest, WellFormed;
  }

  /** The room check passes exactly if the slots are free or compaction works, and loses no number. */
  lemma RoomFoundExactly(log: Log, required: nat, plan: Plan)
    requires WellFormed(log) && 0 < required < CAPACITY
    requires Latest(log).Some? || !HasUsed(log)
    ensures var (log', status) := CompactIfNeeded(log, required, plan);
            && (status == Ok || status == Empty <==>
                  || FreeCount(log) >= required
                  || (Latest(log).Some? && SafeToCompact(Latest(log).value.state) &&
                      EraseWorks(plan.erase) && WriteWorks(plan.rewrite)))
            && (status == Ok || status == Empty ==>
                  WellFormed(log') && Latest(log') == Latest(log) && FreeCount(log') >= required && HasUsed(log') == HasUsed(log))
  {
    hide Latest, FreeCount, Compact, EraseWorks, WriteWorks;
    NothingUsed(log);
    assert |log| == CAPACITY;
    hide HasUsed;
    if Latest(log).Some? {
      CompactOutcome(log, plan);
      CompactionWorksExactly(log, plan);
      UsedByRecord(log);
      UsedByRecord(CompactIfNeeded(log, required, plan).0);
    }
    hide WellFormed;
  }

  lemma NothingUsed(log: Log)
    ensures !HasUsed(log) ==> FreeCount(log) == |log|
  {
    if !HasUsed(log) {
      FreeOfErased(log);
    }
  }

  lemma UsedByRecord(log: Log)
    ensures Latest(log).Some? ==> HasUsed(log)
  {
    LatestIsGreatest(log);
  }

  lemma RequestRecordWritten(log: Log, desired: Record, plan: Plan)
    requires WellFormed(log) && FreeCount(log) > 0 && PayloadValid(desired)
    requires Latest(log).Some? || !HasUsed(log)
    ensures Append(log, desired, plan).status == Ok <==>
              WriteWorks(plan.write) && (Latest(log).Some? ==> Latest(log).value.seqno < 0xFFFF_FFFE)
  {
    FreeMeansErased(log);
    hide Latest, FreeCount, HasUsed;
  }

  /**
   * Outside a session START is answered OK if and only if it is admissible and the journal takes it;
   * the journal is readable then or empty.
   */
  lemma StartAcceptedExactly(b: Boot, req: Request, f: Faults)
    requires IsBoot(b) && !InSession(State(b)) && (Latest(b.log).Some? || !HasUsed(b.log))
    ensures HandleStart(b, req, f).reply == OK <==>
              Admissible(req) && JournalTakes(b.log, DecodeManifest(req.payload).value.size, f)
  {
    hide DecodeManifest;
    if Admissible(req) {
      var m := DecodeManifest(req.payload).value;
      RoomFoundExactly(b.log, RequiredRecords(m.size), f.first);
      var (log1, status) := CompactIfNeeded(b.log, RequiredRecords(m.size), f.first);
      hide CompactIfNeeded, Append, Latest, FreeCount;
      if status == Ok || status == Empty {
        RequestRecordWritten(log1, StartRecord(req.session, m), f.second);
      }
    }
    hide WellFormed;
  }

  /** A START answered OK was admissible, in every state of the device. */
  lemma AcceptedIsAdmissible(s: System, req: Request, f: Faults)
    requires IsSystem(s) && req.command == Start
    ensures var response := Step(s, Receive(req, true, f)).1;
            response.Some? && response.value.reply == OK ==> Admissible(req)
  {
    hide DecodeManifest, CompactIfNeeded, Append, ManifestMatches, WellFormed, RunDeferred, AppEnterBoot;
  }

  /** A refusal that names a field of the START is right about it. */
  lemma RefusalsAreRight(b: Boot, req: Request, f: Faults)
    requires IsBoot(b)
    ensures var reply := HandleStart(b, req, f).reply;
            var m := DecodeManifest(req.payload);
            && (reply == BadFrame ==> req.session == 0 || req.offset != 0 || |req.payload| != 48)
            && (reply == BadImageSize ==> m.Some? && (m.value.size == 0 || m.value.size > 0xE_0000))
            && (reply == BadProduct ==> m.Some? && m.value.product != 1)
            && (reply == BadHardware ==> m.Some? && m.value.hardware != 1)
            && (reply == VersionRejected ==> m.Some? && m.value.version == 0)
  {
    hide CompactIfNeeded, Append, ManifestMatches, WellFormed;
  }

  /**
   * Inside a session START changes nothing.  It is answered OK, with the received offset, exactly
   * for the session's own number and manifest while the device receives or waits for ACTIVATE; for
   * them it is BUSY while the device erases or verifies, and BUSY for any other admissible START.
   */
  lemma StartInSession(b: Boot, req: Request, f: Faults)
    requires IsBoot(b) && b.ram.has && InSession(State(b)) && Admissible(req)
    ensures var h := HandleStart(b, req, f);
            var r := b.ram.rec;
            var m := DecodeManifest(req.payload).value;
            && h.b == b && h.offset == r.received
            && h.reply == if req.session == r.session && m == Manifest(r.version, r.size, r.crc32, r.sha, 1, 1) &&
                             (r.state == RECEIVING || r.state == PENDING_BOOT)
                          then OK else Busy
  {
    hide DecodeManifest, CompactIfNeeded, Append;
  }

  /** An ABORT answered OK makes the update FAILED, and no power-on starts its image until another update. */
  lemma AbortStopsTheImage(b: Boot, req: Request, f: Faults, transportUp: bool, image: Image, g: Faults, h: Faults)
    requires IsBoot(b) && HandleAbort(b, req, f).1 == OK
    ensures var b' := HandleAbort(b, req, f).0;
            && Latest(b'.log) == Some(b.ram.rec.(state := FAILED, error := 0, seqno := b'.ram.rec.seqno))
            && b'.flash == b.flash
            && !Started(System(b'.log, b'.flash, Off), transportUp, image, g, h).mode.App?
  {
    var b' := HandleAbort(b, req, f).0;
    AppendOutcome(b.log, b.ram.rec.(state := FAILED, error := 0), f.first);
    StartsExactly(System(b'.log, b'.flash, Off), transportUp, image, g, h);
    hide Append, Latest, WellFormed, Started, Startable, AppendPossible;
  }
}
