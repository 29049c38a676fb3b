/** A START that found room in the journal leaves enough for the whole update. */
module JournalRoom {
  import opened Types
  import opened Messages
  import opened MetadataLog
  import opened Device
  import opened BootSafety
  import opened DataPrefix
  import Flash = FlashImage

  function Checkpoints(size: u32): nat { (size + CHECKPOINT_SIZE - 1) / CHECKPOINT_SIZE }

  /** An update between its START and its verdict. */
  predicate Active(r: Record) {
    r.size > 0 && (r.state == UPDATE_REQUESTED || r.state == ERASING || r.state == RECEIVING || r.state == VERIFYING)
  }

  /** How many records the update can still append after this one. */
  function Budget(r: Record): nat
    requires r.received <= r.size
  {
    if !Active(r) then 0
    else if r.state == UPDATE_REQUESTED then Checkpoints(r.size) + 4
    else if r.state == ERASING then Checkpoints(r.size) + 3
    else if r.state == VERIFYING then 1
    else if r.received == r.size then 2
    else Checkpoints(r.size) - r.received / CHECKPOINT_SIZE + 2
  }

  /** From record d, at most Budget appends lead to record d', for the same image as long as it is active. */
  ghost predicate Within(d: Record, d': Record) {
    && d.received <= d.size && d'.received <= d'.size
    && d'.seqno + Budget(d') <= d.seqno + Budget(d)
    && (Active(d') ==> d'.size == d.size)
  }

  ghost predicate LatestWithin(d: Record, log: Log) {
    Latest(log).Some? && Within(d, Latest(log).value)
  }

  // ---- One append ----

  /** Success of the room check means the room is there; compaction happens only when it is not. */
  lemma CompactFindsRoom(log: Log, required: nat, plan: Plan)
    requires WellFormed(log)
    ensures var (log', status) := CompactIfNeeded(log, required, plan);
            && (status == Ok || status == Empty ==> FreeCount(log') >= required)
            && (FreeCount(log) >= required ==> log' == log)
  {
    hide Compact, Latest, FreeCount, HasUsed;
    if Latest(log).Some? {
      CompactOutcome(log, plan);
      CompactionNeverEmpty(log, plan);
    }
    hide WellFormed;
  }

  lemma CompactionNeverEmpty(log: Log, plan: Plan)
    requires WellFormed(log) && Latest(log).Some?
    ensures Compact(log, Latest(log).value, plan).1 != Empty
  {
    hide Latest, WellFormed;
  }

  /** An append to a journal with room spends one slot if it succeeds and at most one if not. */
  lemma AppendSpendsOneSlot(log: Log, desired: Record, plan: Plan)
    requires WellFormed(log) && FreeCount(log) > 0
    ensures var r := Append(log, desired, plan);
            && FreeCount(log) - 1 <= FreeCount(r.log) <= FreeCount(log)
            && (r.status == Ok ==> FreeCount(r.log) == FreeCount(log) - 1)
  {
    FreeMeansErased(log);
    LatestIsValid(log);
    if PayloadValid(desired) && (Latest(log).Some? ==> Latest(log).value.seqno < 0xFFFF_FFFE) {
      WriteOutcome(log, FirstErased(log).value, desired.(seqno := NextSeqno(log)), plan.write);
    }
  }

  /** With room in the journal only the write itself can fail. */
  lemma AppendWithRoom(log: Log, desired: Record, plan: Plan)
    requires WellFormed(log) && FreeCount(log) > 0 && Latest(log).Some?
    requires PayloadValid(desired) && Latest(log).value.seqno < 0xFFFF_FFFE
    ensures Append(log, desired, plan).status == Ok <==>
              plan.write.unlocks && plan.write.ops >= RECORD_WORDS && plan.write.locks
  {
    FreeMeansErased(log);
    hide Latest, FreeCount, HasUsed;
  }

  /** A durable transition that costs at least one append of the budget. */
  lemma AppendStateWithin(b: Boot, state: u16, error: u32, plan: Plan, d: Record)
    requires IsBoot(b) && b.ram.has && plan.write.locks
    requires Latest(b.log) == Some(d) && d.received <= d.size && Active(d)
    requires b.ram.rec.received <= b.ram.rec.size == d.size
    requires Budget(b.ram.rec.(state := state)) < Budget(d)
    ensures LatestWithin(d, AppendState(b, state, error, plan).0.log)
  {
    AppendOutcome(b.log, b.ram.rec.(state := state, error := error), plan);
    hide Append, Latest, WellFormed;
  }

  // ---- Handlers ----

  /** RAM and journal of an update in progress. */
  ghost predicate Updating(b: Boot, d: Record) {
    IsBoot(b) && Synced(b.log, b.ram) && Latest(b.log) == Some(d) && Active(d)
  }

  predicate StartOk(b: Boot, req: Request, f: Faults)
    requires IsBoot(b)
  {
    req.command == Start && !InSession(State(b)) && HandleStart(b, req, f).reply == OK
  }

  /** An accepted START leaves room for its budget and three slots more. */
  lemma StartFindsRoom(b: Boot, req: Request, f: Faults)
    requires IsBoot(b) && StartOk(b, req, f)
    ensures var log' := HandleStart(b, req, f).b.log;
            && Latest(log').Some? && Latest(log').value.state == UPDATE_REQUESTED && Active(Latest(log').value)
            && Latest(log').value.received == 0
            && FreeCount(log') >= Checkpoints(Latest(log').value.size) + 7
  {
    hide DecodeManifest, ManifestMatches;
    var m := DecodeManifest(req.payload).value;
    var log1 := CompactIfNeeded(b.log, RequiredRecords(m.size), f.first).0;
    CompactFindsRoom(b.log, RequiredRecords(m.size), f.first);
    hide CompactIfNeeded, Latest, FreeCount, WellFormed;
    AppendOutcome(log1, StartRecord(req.session, m), f.second);
    AppendSpendsOneSlot(log1, StartRecord(req.session, m), f.second);
    hide Append;
  }

  lemma StartWithin(b: Boot, req: Request, f: Faults, d: Record)
    requires Updating(b, d) && Relocks(f) && !StartOk(b, req, f)
    requires req.command == Start
    ensures Latest(HandleStart(b, req, f).b.log) == Some(d)
  {
    hide DecodeManifest, ManifestMatches;
    if StartRefusal(req) == OK && !InSession(State(b)) {
      var m := DecodeManifest(req.payload).value;
      var log1 := CompactIfNeeded(b.log, RequiredRecords(m.size), f.first).0;
      CompactSteady(b.log, RequiredRecords(m.size), f.first);
      AppendSteady(log1, StartRecord(req.session, m), f.second);
      hide CompactIfNeeded, Append, Latest, WellFormed, RequiredRecords;
    }
  }

  /** Crossing a checkpoint, or finishing the image, uses up at least one append. */
  lemma CheckpointCosts(d: Record, r: Record, next: u32)
    requires Behind(d, r) && Shaped(r) && r.state == RECEIVING && r.size > 0
    requires r.received < next <= r.size && IsCheckpoint(r.received, next, r.size)
    ensures Budget(r.(received := next)) < Budget(d)
  {
    assert next / CHECKPOINT_SIZE > r.received / CHECKPOINT_SIZE || next == r.size;
    assert d.received / CHECKPOINT_SIZE < Checkpoints(d.size);
  }

  lemma DataWithin(b: Boot, req: Request, f: Faults, d: Record)
    requires Updating(b, d) && Relocks(f)
    ensures LatestWithin(d, HandleData(b, req, f).0.log)
  {
    hide StoreChunk, CompareChunk, AppendState, Latest, WellFormed;
    if State(b) == RECEIVING && req.offset == b.ram.rec.received {
      var check := ValidateChunk(req.offset, |req.payload|, b.ram.rec.size);
      if check.ChunkOk? {
        NextIsShaped(b.ram.rec, |req.payload|);
        var next := b.ram.rec.received + |req.payload|;
        var (flash', status) := StoreChunk(b.flash, b.ram.rec.received, req.payload, check.final, f.flash);
        if status == Flash.Ok && IsCheckpoint(b.ram.rec.received, next, b.ram.rec.size) {
          CheckpointCosts(d, b.ram.rec, next);
          AppendStateWithin(b.(flash := flash', ram := b.ram.(rec := b.ram.rec.(received := next))), RECEIVING, 0, f.second, d);
        }
        hide IsCheckpoint;
      }
    }
    hide Budget, ValidateChunk;
  }

  lemma VerifyWithin(b: Boot, req: Request, f: Faults, d: Record)
    requires Updating(b, d) && Relocks(f)
    ensures LatestWithin(d, HandleVerify(b, req, f).0.log)
  {
    hide AppendState, Latest, WellFormed, ImageCrc;
    if State(b) == RECEIVING && b.ram.rec.received == b.ram.rec.size {
      AppendStateWithin(b, VERIFYING, 0, f.first, d);
      AppendStateSynced(b, VERIFYING, 0, f.first);
      var (b1, reply) := AppendState(b, VERIFYING, 0, f.first);
      if reply == OK {
        VerdictWithin(b1, f, Latest(b1.log).value);
      }
    } else if State(b) == VERIFYING {
      VerdictWithin(b, f, d);
    }
  }

  lemma VerdictWithin(b: Boot, f: Faults, d: Record)
    requires Updating(b, d) && Relocks(f) && State(b) == VERIFYING
    ensures LatestWithin(d, AppendState(b, PENDING_BOOT, 0, f.second).0.log)
    ensures LatestWithin(d, AppendState(b, FAILED, VERIFY_FAILED_CODE, f.second).0.log)
  {
    AppendStateWithin(b, PENDING_BOOT, 0, f.second, d);
    AppendStateWithin(b, FAILED, VERIFY_FAILED_CODE, f.second, d);
    hide AppendState;
  }

  lemma DispatchWithin(b: Boot, req: Request, f: Faults, d: Record)
    requires Updating(b, d) && Relocks(f) && !StartOk(b, req, f)
    ensures LatestWithin(d, Dispatch(b, req, f).0.log)
  {
    hide Latest, WellFormed;
    match req.command {
      case Start => StartWithin(b, req, f, d); hide HandleStart;
      case Erase =>
        if State(b) == UPDATE_REQUESTED {
          AppendStateWithin(b, ERASING, 0, f.first, d);
        }
        hide AppendState;
      case Data => DataWithin(b, req, f, d); hide HandleData;
      case VerifyImage => VerifyWithin(b, req, f, d); hide HandleVerify;
      case Abort => AppendStateWithin(b, FAILED, 0, f.first, d); hide AppendState;
      case _ =>
    }
  }

  lemma DeferredWithin(b: Boot, f: Faults, d: Record)
    requires Updating(b, d) && Relocks(f)
    requires b.ram.deferred == EraseApp ==> State(b) == ERASING
    ensures LatestWithin(d, RunDeferred(b, f).0.log)
  {
    hide Latest, WellFormed, AppendState, Flash.Erase;
    if b.ram.deferred == EraseApp {
      var erased := b.(ram := b.ram.(deferred := NoAction), flash := Flash.Erase(b.flash, b.ram.rec.size, f.flash).0);
      assert b.ram.rec.(received := 0) == b.ram.rec;
      AppendStateWithin(erased, RECEIVING, 0, f.second, d);
      AppendStateWithin(erased, FAILED, FLASH_ERROR_CODE, f.second, d);
    }
  }

  lemma AppendStateKeepsRecord(b: Boot, state: u16, error: u32, plan: Plan)
    requires IsBoot(b) && b.ram.has
    ensures var b' := AppendState(b, state, error, plan).0;
            b'.ram.rec.size == b.ram.rec.size && b'.ram.rec.crc32 == b.ram.rec.crc32 && b'.ram.has
  {
    hide Append, WellFormed;
  }

  /** Only an accepted START changes the image size. */
  lemma StartKeepsSize(b: Boot, req: Request, f: Faults)
    requires IsBoot(b) && !(HandleStart(b, req, f).reply == OK && !InSession(State(b)))
    ensures HandleStart(b, req, f).b.ram.rec.size == b.ram.rec.size
  {
    hide DecodeManifest, CompactIfNeeded, Append, ManifestMatches, StartRefusal, WellFormed;
  }

  lemma DataKeepsSize(b: Boot, req: Request, f: Faults)
    requires IsBoot(b)
    ensures HandleData(b, req, f).0.ram.rec.size == b.ram.rec.size
  {
    hide Append, WellFormed, StoreChunk, CompareChunk, ValidateChunk, IsCheckpoint;
  }

  lemma VerifyKeepsSize(b: Boot, req: Request, f: Faults)
    requires IsBoot(b) && b.ram.has
    ensures HandleVerify(b, req, f).0.ram.rec.size == b.ram.rec.size
  {
    hide AppendState, ImageCrc, WellFormed;
    AppendStateKeepsRecord(b, VERIFYING, 0, f.first);
    var b1 := if State(b) == RECEIVING then AppendState(b, VERIFYING, 0, f.first).0 else b;
    AppendStateKeepsRecord(b1, PENDING_BOOT, 0, f.second);
    AppendStateKeepsRecord(b1, FAILED, VERIFY_FAILED_CODE, f.second);
  }

  lemma DispatchKeepsSize(b: Boot, req: Request, f: Faults)
    requires IsBoot(b) && !StartOk(b, req, f) && b.ram.has
    ensures Dispatch(b, req, f).0.ram.rec.size == b.ram.rec.size
  {
    hide AppendState, HandleStart, HandleData, HandleVerify, WellFormed;
    match req.command {
      case Start => StartKeepsSize(b, req, f);
      case Erase => AppendStateKeepsRecord(b, ERASING, 0, f.first);
      case Data => DataKeepsSize(b, req, f);
      case VerifyImage => VerifyKeepsSize(b, req, f);
      case Abort => AppendStateKeepsRecord(b, FAILED, 0, f.first);
      case _ =>
    }
  }

  // ---- Runs ----

  predicate StartAccepted(s: System, e: Event)
    requires IsSystem(s)
  {
    Handles(s, e) && StartOk(BootOf(s), e.req, e.faults)
  }

  /** The journal right after the accepted START of the update in progress. */
  datatype Origin = Origin(seqno: u32, free: nat, size: u32)

  function OriginAfter(origin: Option<Origin>, s: System, e: Event): Option<Origin>
    requires IsSystem(s)
  {
    var log' := Step(s, e).0.log;
    if Latest(log').None? then None
    else if StartAccepted(s, e) then Some(Origin(Latest(log').value.seqno, FreeCount(log'), Latest(log').value.size))
    else if Active(Latest(log').value) then origin
    else None
  }

  function RoomRun(s: System, origin: Option<Origin>, events: seq<Event>): (System, Option<Origin>)
    requires IsSystem(s)
    decreases |events|
  {
    if events == [] then (s, origin)
    else RoomRun(Step(s, events[0]).0, OriginAfter(origin, s, events[0]), events[1..])
  }

  ghost predicate HasRoom(log: Log, origin: Option<Origin>) {
    origin.Some? ==>
      && Latest(log).Some?
      && var d := Latest(log).value;
         && Active(d) && d.received <= d.size == origin.value.size
         && d.seqno + Budget(d) <= origin.value.seqno + Checkpoints(d.size) + 4
         && origin.value.free >= Checkpoints(d.size) + 7
  }

  ghost predicate Roomy(s: System, origin: Option<Origin>) {
    (exists acc: seq<byte> :: Prefixed(s, acc)) && HasRoom(s.log, origin)
  }

  lemma ReceiveWithin(s: System, acc: seq<byte>, e: Event, d: Record)
    requires Prefixed(s, acc) && Handles(s, e) && Relocks(e.faults) && !StartAccepted(s, e)
    requires Latest(s.log) == Some(d) && Active(d)
    ensures LatestWithin(d, Step(s, e).0.log)
  {
    hide Latest, WellFormed, Holds, HandleStart, RunDeferred, Synced, Budget;
    var b := BootOf(s).(ram := s.mode.ram.(activity := true));
    FlagsKeepSync(BootOf(s), acc, true, NoAction);
    ActivityIsIrrelevantToStart(BootOf(s), e.req, e.faults);
    assert Tracked(b, acc);
    DispatchSynced(b, acc, e.req, e.faults);
    DispatchWithin(b, e.req, e.faults, d);
    var b1 := Dispatch(b, e.req, e.faults).0;
    hide Dispatch;
    if e.sent {
      if b1.ram.deferred == EraseApp {
        ErasingIsActive(b, b1, d, e.req, e.faults);
        DeferredWithin(b1, e.faults, Latest(b1.log).value);
      } else {
        IdleKeepsLog(b1, e.faults);
      }
    }
  }

  lemma IdleKeepsLog(b: Boot, f: Faults)
    requires IsBoot(b) && b.ram.deferred != EraseApp
    ensures RunDeferred(b, f).0.log == b.log
  {
  }

  lemma ErasingIsActive(b: Boot, b1: Boot, d: Record, req: Request, f: Faults)
    requires Updating(b, d) && !StartOk(b, req, f) && b1 == Dispatch(b, req, f).0
    requires Synced(b1.log, b1.ram) && b1.ram.has && b1.ram.rec.state == ERASING
    ensures Latest(b1.log).Some? && Updating(b1, Latest(b1.log).value)
  {
    DispatchKeepsSize(b, req, f);
    hide Dispatch, Latest, WellFormed, StartOk;
  }

  lemma ActivityIsIrrelevantToStart(b: Boot, req: Request, f: Faults)
    requires IsBoot(b)
    ensures StartOk(b.(ram := b.ram.(activity := true)), req, f) == StartOk(b, req, f)
  {
    hide Append, DecodeManifest, CompactIfNeeded;
  }

  /** Outside the handlers an update in progress leaves the journal to itself, or ends in ENTER_BOOT. */
  lemma OtherStepWithin(s: System, acc: seq<byte>, e: Event, d: Record)
    requires Prefixed(s, acc) && !Handles(s, e) && EventRelocks(e)
    requires Latest(s.log) == Some(d) && Active(d)
    ensures LatestWithin(d, Step(s, e).0.log)
  {
    hide Append, AppendState, HasUsed, AppInit, IsAppValid, Holds, AppEnterBoot;
    if s.mode.App? && e.Receive? {
      EnterBootWithin(s.log, e.req, e.faults, d);
    }
    hide Latest, WellFormed;
  }

  lemma EnterBootWithin(log: Log, req: Request, f: Faults, d: Record)
    requires WellFormed(log) && Latest(log) == Some(d) && Active(d) && d.received <= d.size && Relocks(f)
    ensures LatestWithin(d, AppEnterBoot(log, req, f).0)
  {
    var log1 := CompactIfNeeded(log, APP_MAX_REQUIRED_RECORDS, f.first).0;
    CompactSteady(log, APP_MAX_REQUIRED_RECORDS, f.first);
    AppendOutcome(log1, InitRecord(UPDATE_REQUESTED).(session := req.session), f.second);
    hide CompactIfNeeded, Append, Latest, WellFormed, HasUsed;
  }

  /** A step of an update in progress spends at most its budget, whatever the event. */
  lemma StepWithin(s: System, acc: seq<byte>, e: Event, d: Record)
    requires Prefixed(s, acc) && EventRelocks(e) && !StartAccepted(s, e)
    requires Latest(s.log) == Some(d) && Active(d)
    ensures LatestWithin(d, Step(s, e).0.log)
  {
    if Handles(s, e) {
      ReceiveWithin(s, acc, e, d);
    } else {
      OtherStepWithin(s, acc, e, d);
    }
  }

  lemma AcceptedStartFindsRoom(s: System, acc: seq<byte>, e: Event)
    requires Prefixed(s, acc) && StartAccepted(s, e) && Relocks(e.faults)
    ensures HasRoom(Step(s, e).0.log, OriginAfter(None, s, e))
  {
    hide Latest, WellFormed, Holds, HandleStart;
    var b := BootOf(s).(ram := s.mode.ram.(activity := true));
    ActivityIsIrrelevantToStart(BootOf(s), e.req, e.faults);
    StartFindsRoom(b, e.req, e.faults);
    var b1 := Dispatch(b, e.req, e.faults).0;
    assert b1 == HandleStart(b, e.req, e.faults).b;
    FlagsKeepSync(BootOf(s), acc, true, NoAction);
    StartSynced(b, acc, e.req, e.faults);
    if e.sent {
      IdleKeepsLog(b1, e.faults);
    }
    hide Synced, RunDeferred, Dispatch, FreeCount, StartOk;
  }

  lemma StepRoomy(s: System, origin: Option<Origin>, e: Event)
    requires Roomy(s, origin) && EventRelocks(e)
    ensures Roomy(Step(s, e).0, OriginAfter(origin, s, e))
  {
    var acc :| Prefixed(s, acc);
    StepPrefixed(s, acc, e);
    if StartAccepted(s, e) {
      AcceptedStartFindsRoom(s, acc, e);
    } else if origin.Some? {
      StepWithin(s, acc, e, Latest(s.log).value);
    }
    hide Prefixed, Step, Latest, AcceptedAfter, StartAccepted, FreeCount;
  }

  lemma {:induction false} RunRoomy(s: System, origin: Option<Origin>, events: seq<Event>)
    requires Roomy(s, origin)
    requires forall i | 0 <= i < |events| :: EventRelocks(events[i])
    ensures var (s', origin') := RoomRun(s, origin, events); Roomy(s', origin')
    decreases |events|
  {
    if events != [] {
      StepRoomy(s, origin, events[0]);
      RunRoomy(Step(s, events[0]).0, OriginAfter(origin, s, events[0]), events[1..]);
    }
  }

  // ---- Interrupted appends ----

  /** These faults stop an append inside its record: the slot is spent and holds no record. */
  predicate CutsAppend(plan: Plan) { plan.write.unlocks && 0 < plan.write.ops < RECORD_WORDS }

  /** The event cuts an append, if it comes to make one; no event cuts two. */
  predicate CutsEvent(e: Event) {
    (e.PowerOn? || e.WindowEnds? || e.Receive? || e.ConfirmDelay?) &&
    (CutsAppend(e.faults.first) || CutsAppend(e.faults.second))
  }

  function Loss(cut: bool): nat { if cut then 1 else 0 }

  /** Interrupted appends since the latest accepted START; an event that leaves the journal alone interrupts none. */
  function CutsAfter(cuts: nat, s: System, e: Event): nat
    requires IsSystem(s)
  {
    if StartAccepted(s, e) then 0 else cuts + Loss(CutsEvent(e) && Step(s, e).0.log != s.log)
  }

  function CutsRun(s: System, cuts: nat, events: seq<Event>): nat
    requires IsSystem(s)
    decreases |events|
  {
    if events == [] then cuts else CutsRun(Step(s, events[0]).0, CutsAfter(cuts, s, events[0]), events[1..])
  }

  /**
   * Free slots and sequence number together: a record trades one for the other, and all that a
   * journal loses otherwise are the slots of interrupted appends.
   */
  ghost predicate Stocked(log: Log, log': Log, lost: nat) {
    && Latest(log).Some? && Latest(log').Some?
    && FreeCount(log') + Latest(log').value.seqno + lost >= FreeCount(log) + Latest(log).value.seqno
  }

  /** The latest record cannot be compacted away. */
  ghost predicate Fixed(log: Log) {
    WellFormed(log) && Latest(log).Some? && !SafeToCompact(Latest(log).value.state)
  }

  lemma WriteStock(log: Log, slot: nat, rec: Record, plan: Plan)
    requires WellFormed(log) && Latest(log).Some? && slot < CAPACITY && log[slot].Erased?
    requires RecordValid(rec) && rec.seqno == Latest(log).value.seqno + 1
    ensures var (log', status) := WriteSlot(log, slot, rec, plan.write);
            && Stocked(log, log', Loss(CutsAppend(plan)))
            && (status == Ok ==> !CutsAppend(plan))
  {
    hide Latest, FreeCount;
    var cut := CutSlot(rec, plan.write.ops);
    assert log[slot := Erased] == log;
    if cut.Torn? {
      LatestAfterTorn(log, slot);
      FreeAfterUse(log, slot, cut);
    } else if cut.Committed? {
      LatestAfterCommit(log, slot, rec);
      FreeAfterUse(log, slot, cut);
    }
  }

  /** An append from a state that is never compacted loses at most the slot of its own cut. */
  lemma AppendStock(log: Log, desired: Record, plan: Plan)
    requires Fixed(log)
    ensures var r := Append(log, desired, plan);
            && Stocked(log, r.log, Loss(CutsAppend(plan)))
            && (r.status == Ok ==> !CutsAppend(plan) && Latest(r.log) == Some(r.written) && r.written.state == desired.state)
  {
    LatestIsValid(log);
    CompactOutcome(log, plan);
    AppendOutcome(log, desired, plan);
    var latest, first := Latest(log).value, FirstErased(log);
    if PayloadValid(desired) && latest.seqno < 0xFFFF_FFFE && first.Some? {
      WriteStock(log, first.value, desired.(seqno := latest.seqno + 1), plan);
    }
    hide Latest, FreeCount, FirstErased, HasUsed, Compact, WriteSlot, WellFormed, CutsAppend;
  }

  lemma StateStock(b: Boot, state: u16, error: u32, plan: Plan)
    requires IsBoot(b) && Fixed(b.log)
    ensures var (b', reply) := AppendState(b, state, error, plan);
            && Stocked(b.log, b'.log, Loss(CutsAppend(plan)))
            && (reply == OK ==> !CutsAppend(plan) && Latest(b'.log).value.state == state)
  {
    hide Append, Latest, FreeCount, WellFormed, CutsAppend;
    AppendStock(b.log, (if b.ram.has then b.ram.rec else InitRecord(state)).(state := state, error := error), plan);
  }

  lemma NeededKeepsFixed(log: Log, required: nat, plan: Plan)
    requires Fixed(log)
    ensures CompactIfNeeded(log, required, plan).0 == log
  {
    LatestIsValid(log);
    hide Latest, FreeCount, WellFormed;
  }

  lemma StartStock(b: Boot, req: Request, f: Faults)
    requires IsBoot(b) && Fixed(b.log)
    ensures Stocked(b.log, HandleStart(b, req, f).b.log, Loss(CutsAppend(f.second)))
  {
    hide CompactIfNeeded, Append, Latest, FreeCount, WellFormed, CutsAppend, DecodeManifest, ManifestMatches;
    if StartRefusal(req) == OK {
      var m := DecodeManifest(req.payload).value;
      NeededKeepsFixed(b.log, RequiredRecords(m.size), f.first);
      AppendStock(b.log, StartRecord(req.session, m), f.second);
    }
  }

  lemma DataStock(b: Boot, req: Request, f: Faults)
    requires IsBoot(b) && Fixed(b.log)
    ensures Stocked(b.log, HandleData(b, req, f).0.log, Loss(CutsAppend(f.second)))
  {
    hide AppendState, Latest, FreeCount, WellFormed, CutsAppend, StoreChunk, CompareChunk, IsCheckpoint;
    if b.ram.has && ValidateChunk(req.offset, |req.payload|, b.ram.rec.size).ChunkOk? && req.offset == b.ram.rec.received {
      var final := ValidateChunk(req.offset, |req.payload|, b.ram.rec.size).final;
      var flash' := StoreChunk(b.flash, b.ram.rec.received, req.payload, final, f.flash).0;
      var next := b.ram.rec.received + |req.payload|;
      StateStock(b.(flash := flash', ram := b.ram.(rec := b.ram.rec.(received := next))), RECEIVING, 0, f.second);
    }
    hide ValidateChunk;
  }

  lemma VerifyStock(b: Boot, req: Request, f: Faults)
    requires IsBoot(b) && Fixed(b.log)
    ensures Stocked(b.log, HandleVerify(b, req, f).0.log, Loss(CutsAppend(f.first) || CutsAppend(f.second)))
  {
    hide AppendState, Latest, FreeCount, WellFormed, CutsAppend, ImageCrc;
    StateStock(b, VERIFYING, 0, f.first);
    var (b1, reply) := if State(b) == RECEIVING then AppendState(b, VERIFYING, 0, f.first) else (b, OK);
    if reply == OK {
      StateStock(b1, PENDING_BOOT, 0, f.second);
      StateStock(b1, FAILED, VERIFY_FAILED_CODE, f.second);
    }
  }

  lemma EraseStock(b: Boot, req: Request, f: Faults)
    requires IsBoot(b) && Fixed(b.log) && b.ram.deferred == NoAction
    ensures var b' := HandleErase(b, req, f).0;
            Stocked(b.log, b'.log, Loss(b'.ram.deferred != EraseApp && CutsAppend(f.first)))
  {
    hide AppendState, Latest, FreeCount, WellFormed, CutsAppend;
    StateStock(b, ERASING, 0, f.first);
    AppendStateKeepsFlags(b, ERASING, 0, f.first);
  }

  lemma DispatchStock(b: Boot, req: Request, f: Faults)
    requires IsBoot(b) && Fixed(b.log) && b.ram.deferred == NoAction
    ensures var b' := Dispatch(b, req, f).0;
            Stocked(b.log, b'.log, Loss(b'.ram.deferred != EraseApp && (CutsAppend(f.first) || CutsAppend(f.second))))
  {
    hide AppendState, HandleStart, HandleErase, HandleData, HandleVerify, Latest, FreeCount, WellFormed, CutsAppend;
    match req.command {
      case Start => StartStock(b, req, f); StartKeepsFlags(b, req, f);
      case Erase => EraseStock(b, req, f);
      case Data => DataStock(b, req, f); DataKeepsFlags(b, req, f);
      case VerifyImage => VerifyStock(b, req, f); VerifyKeepsFlags(b, req, f);
      case Abort => StateStock(b, FAILED, 0, f.first); AppendStateKeepsFlags(b, FAILED, 0, f.first);
      case _ =>
    }
  }

  lemma DeferredStock(b: Boot, f: Faults)
    requires IsBoot(b) && Fixed(b.log) && b.ram.deferred == EraseApp
    ensures Stocked(b.log, RunDeferred(b, f).0.log, Loss(CutsAppend(f.second)))
  {
    hide AppendState, Latest, FreeCount, WellFormed, CutsAppend, Flash.Erase;
    var flash' := Flash.Erase(b.flash, b.ram.rec.size, f.flash).0;
    var erased := b.(ram := b.ram.(deferred := NoAction), flash := flash');
    StateStock(erased.(ram := erased.ram.(rec := erased.ram.rec.(received := 0))), RECEIVING, 0, f.second);
    StateStock(erased, FAILED, FLASH_ERROR_CODE, f.second);
  }

  lemma EnterBootStock(log: Log, req: Request, f: Faults)
    requires Fixed(log)
    ensures Stocked(log, AppEnterBoot(log, req, f).0, Loss(CutsAppend(f.second)))
  {
    hide CompactIfNeeded, Append, Latest, FreeCount, WellFormed, CutsAppend;
    NeededKeepsFixed(log, APP_MAX_REQUIRED_RECORDS, f.first);
    AppendStock(log, InitRecord(UPDATE_REQUESTED).(session := req.session), f.second);
  }

  lemma ReceiveStock(s: System, acc: seq<byte>, e: Event, d: Record)
    requires Prefixed(s, acc) && Handles(s, e) && Relocks(e.faults) && !StartAccepted(s, e)
    requires Latest(s.log) == Some(d) && Active(d)
    ensures Stocked(s.log, Step(s, e).0.log, Loss(CutsEvent(e)))
  {
    hide Latest, WellFormed, Holds, HandleStart, RunDeferred, Synced, Budget, FreeCount, CutsAppend;
    var b := BootOf(s).(ram := s.mode.ram.(activity := true));
    FlagsKeepSync(BootOf(s), acc, true, NoAction);
    ActivityIsIrrelevantToStart(BootOf(s), e.req, e.faults);
    assert Tracked(b, acc);
    DispatchSynced(b, acc, e.req, e.faults);
    DispatchStock(b, e.req, e.faults);
    var b1 := Dispatch(b, e.req, e.faults).0;
    hide Dispatch;
    if e.sent {
      if b1.ram.deferred == EraseApp {
        ErasingIsActive(b, b1, d, e.req, e.faults);
        DeferredStock(b1, e.faults);
      } else {
        IdleKeepsLog(b1, e.faults);
      }
    }
  }

  lemma OtherStepStock(s: System, acc: seq<byte>, e: Event, d: Record)
    requires Prefixed(s, acc) && !Handles(s, e) && Latest(s.log) == Some(d) && Active(d)
    ensures Stocked(s.log, Step(s, e).0.log, Loss(CutsEvent(e)))
  {
    hide Append, AppendState, HasUsed, AppInit, IsAppValid, Holds, AppEnterBoot, CutsAppend, FreeCount;
    if s.mode.App? && e.Receive? {
      EnterBootStock(s.log, e.req, e.faults);
    }
    hide Latest, WellFormed;
  }

  /** Every slot that an update spent without a record of its own is one of an interrupted append. */
  ghost predicate Counted(log: Log, origin: Option<Origin>, cuts: nat) {
    origin.Some? ==>
      && Latest(log).Some?
      && FreeCount(log) + Latest(log).value.seqno + cuts >= origin.value.free + origin.value.seqno
  }

  lemma StepCounted(s: System, origin: Option<Origin>, cuts: nat, e: Event)
    requires Roomy(s, origin) && EventRelocks(e) && Counted(s.log, origin, cuts)
    ensures Counted(Step(s, e).0.log, OriginAfter(origin, s, e), CutsAfter(cuts, s, e))
  {
    var acc :| Prefixed(s, acc);
    hide Prefixed, Step, Latest, StartAccepted, FreeCount, CutsEvent;
    if origin.Some? && !StartAccepted(s, e) {
      StepStock(s, acc, e, Latest(s.log).value);
    }
  }

  lemma StepStock(s: System, acc: seq<byte>, e: Event, d: Record)
    requires Prefixed(s, acc) && EventRelocks(e) && !StartAccepted(s, e) && Latest(s.log) == Some(d) && Active(d)
    ensures Stocked(s.log, Step(s, e).0.log, Loss(CutsEvent(e)))
  {
    if Handles(s, e) {
      ReceiveStock(s, acc, e, d);
    } else {
      OtherStepStock(s, acc, e, d);
    }
  }

  lemma {:induction false} RunCounted(s: System, origin: Option<Origin>, cuts: nat, events: seq<Event>)
    requires Roomy(s, origin) && Counted(s.log, origin, cuts)
    requires forall i | 0 <= i < |events| :: EventRelocks(events[i])
    ensures var (s', origin') := RoomRun(s, origin, events);
            Counted(s'.log, origin', CutsRun(s, cuts, events))
    decreases |events|
  {
    hide Step, Roomy, Counted, EventRelocks, OriginAfter, CutsAfter;
    if events != [] {
      var e := events[0];
      assert IsSystem(s) by { RoomyIsSystem(s, origin); }
      StepRoomy(s, origin, e);
      StepCounted(s, origin, cuts, e);
      RunCounted(Step(s, e).0, OriginAfter(origin, s, e), CutsAfter(cuts, s, e), events[1..]);
    }
  }

  lemma RoomyIsSystem(s: System, origin: Option<Origin>)
    requires Roomy(s, origin)
    ensures IsSystem(s)
  {
  }

  /**
   * From an accepted START to its verdict, over resets, retransmissions and any client chunk
   * sizes, the valid appends made and still to make are at most one per checkpoint plus four,
   * no slot is lost but to an interrupted append, and with at most three of those the journal
   * has a slot for every append to come.
   */
  lemma JournalRoom(s: System, events: seq<Event>)
    requires IsSystem(s) && s.mode.Off? && (Latest(s.log).Some? ==> Shaped(Latest(s.log).value))
    requires forall i | 0 <= i < |events| :: EventRelocks(events[i])
    ensures var (s', origin) := RoomRun(s, None, events);
            var cuts := CutsRun(s, 0, events);
            origin.Some? ==>
              && Latest(s'.log).Some?
              && var d := Latest(s'.log).value;
                 && Active(d) && d.received <= d.size == origin.value.size
                 && d.seqno - origin.value.seqno + Budget(d) <= Checkpoints(origin.value.size) + 4
                 && origin.value.free - FreeCount(s'.log) <= d.seqno - origin.value.seqno + cuts
                 && (cuts <= 3 ==> FreeCount(s'.log) >= Budget(d) > 0)
  {
    DurableFits(s);
    assert Prefixed(s, s.flash[..Durable(s.log)]);
    RunRoomy(s, None, events);
    RunCounted(s, None, 0, events);
    hide Step, Prefixed, Latest, FreeCount, RoomRun, CutsRun;
  }

  /** The record that ends the update, PENDING_BOOT or FAILED, is within the same count. */
  lemma VerdictIsWithinTheCount(s: System, origin: Option<Origin>, e: Event)
    requires Roomy(s, origin) && origin.Some? && EventRelocks(e) && !StartAccepted(s, e)
    ensures var log' := Step(s, e).0.log;
            Latest(log').Some? &&
            Latest(log').value.seqno - origin.value.seqno <= Checkpoints(origin.value.size) + 4
  {
    var acc :| Prefixed(s, acc);
    StepWithin(s, acc, e, Latest(s.log).value);
    hide Prefixed, Step, Latest, StartAccepted;
  }

  // ---- What room is for ----

  /** The writes of the journal that an event makes all work. */
  predicate WritesWork(f: Faults) {
    f.first.write == HEALTHY && f.second.write == HEALTHY
  }

  /** Room for the budget, and sequence numbers for it. */
  ghost predicate Spacious(b: Boot, d: Record) {
    && Updating(b, d)
    && FreeCount(b.log) >= Budget(d)
    && d.seqno + Budget(d) < 0xFFFF_FFFF
  }

  lemma AppendStateWorks(b: Boot, state: u16, error: u32, plan: Plan, d: Record)
    requires Spacious(b, d) && plan.write == HEALTHY && state <= FAILED
    requires Shaped(b.ram.rec.(state := state)) && Budget(b.ram.rec.(state := state)) < Budget(d)
    ensures var (b', reply) := AppendState(b, state, error, plan);
            && reply == OK && Latest(b'.log) == Some(b'.ram.rec) && b'.ram.has && State(b') == state
            && (Active(b'.ram.rec) ==> Spacious(b', b'.ram.rec))
  {
    hide Append, FreeCount;
    var desired := b.ram.rec.(state := state, error := error);
    AppendWithRoom(b.log, desired, plan);
    AppendOutcome(b.log, desired, plan);
    AppendSpendsOneSlot(b.log, desired, plan);
    hide Latest, WellFormed;
  }

  /**
   * With room for its budget an update never fails for want of a journal slot: ERASE starts the
   * erase, a stored chunk is acknowledged, and a complete image reaches the verdict of its CRC.
   */
  lemma EraseNeverRunsOut(b: Boot, req: Request, f: Faults, d: Record)
    requires Spacious(b, d) && WritesWork(f)
    ensures HandleErase(b, req, f).1 != FlashError
  {
    hide AppendState, Latest, WellFormed, FreeCount;
    if State(b) == UPDATE_REQUESTED {
      AppendStateWorks(b, ERASING, 0, f.first, d);
    }
  }

  lemma DataNeverRunsOut(b: Boot, req: Request, f: Faults, d: Record)
    requires Spacious(b, d) && WritesWork(f)
    requires State(b) == RECEIVING && req.session == b.ram.rec.session && req.offset == b.ram.rec.received
    requires ValidateChunk(req.offset, |req.payload|, b.ram.rec.size).ChunkOk?
    requires var final := ValidateChunk(req.offset, |req.payload|, b.ram.rec.size).final;
             StoreChunk(b.flash, req.offset, req.payload, final, f.flash).1 == Flash.Ok
    ensures HandleData(b, req, f).1 == OK
    ensures HandleData(b, req, f).0.ram.rec.received == req.offset + |req.payload|
  {
    hide StoreChunk, AppendState, Latest, WellFormed, FreeCount;
    NextIsShaped(b.ram.rec, |req.payload|);
    var next := b.ram.rec.received + |req.payload|;
    var final := ValidateChunk(req.offset, |req.payload|, b.ram.rec.size).final;
    var flash' := StoreChunk(b.flash, req.offset, req.payload, final, f.flash).0;
    if IsCheckpoint(b.ram.rec.received, next, b.ram.rec.size) {
      CheckpointCosts(d, b.ram.rec, next);
      CheckpointWorks(b.(flash := flash'), next, f.second, d);
    }
    hide Budget, ValidateChunk, IsCheckpoint;
  }

  lemma CheckpointWorks(b: Boot, next: u32, plan: Plan, d: Record)
    requires Spacious(b, d) && plan.write == HEALTHY && State(b) == RECEIVING
    requires Shaped(b.ram.rec.(received := next)) && Budget(b.ram.rec.(received := next)) < Budget(d)
    ensures var (b', reply) := AppendState(b.(ram := b.ram.(rec := b.ram.rec.(received := next))), RECEIVING, 0, plan);
            reply == OK && b'.ram.rec.received == next
  {
    hide Append, FreeCount, Budget;
    AppendWithRoom(b.log, b.ram.rec.(received := next, error := 0), plan);
    hide Latest, WellFormed;
  }

  lemma VerifyNeverRunsOut(b: Boot, req: Request, f: Faults, d: Record)
    requires Spacious(b, d) && WritesWork(f) && IsBare(req) && req.session == b.ram.rec.session
    requires (State(b) == RECEIVING || State(b) == VERIFYING) && b.ram.rec.received == b.ram.rec.size
    ensures var (b', reply) := HandleVerify(b, req, f);
            var matches := ImageCrc(b.flash, b.ram.rec.size) == b.ram.rec.crc32;
            && reply == (if matches then OK else VerifyFailed)
            && State(b') == (if matches then PENDING_BOOT else FAILED)
            && Latest(b'.log) == Some(b'.ram.rec)
  {
    hide AppendState, Latest, WellFormed, FreeCount, ImageCrc;
    AppendStateKeepsRecord(b, VERIFYING, 0, f.first);
    if State(b) == RECEIVING {
      AppendStateWorks(b, VERIFYING, 0, f.first, d);
    }
    var b1 := if State(b) == RECEIVING then AppendState(b, VERIFYING, 0, f.first).0 else b;
    VerdictWorks(b1, f, if State(b) == RECEIVING then b1.ram.rec else d);
    hide Budget;
  }

  lemma VerdictWorks(b: Boot, f: Faults, d: Record)
    requires Spacious(b, d) && WritesWork(f) && State(b) == VERIFYING
    ensures var (b', reply) := AppendState(b, PENDING_BOOT, 0, f.second);
            reply == OK && State(b') == PENDING_BOOT && Latest(b'.log) == Some(b'.ram.rec)
    ensures var (b', reply) := AppendState(b, FAILED, VERIFY_FAILED_CODE, f.second);
            reply == OK && State(b') == FAILED && Latest(b'.log) == Some(b'.ram.rec)
  {
    AppendStateWorks(b, PENDING_BOOT, 0, f.second, d);
    AppendStateWorks(b, FAILED, VERIFY_FAILED_CODE, f.second, d);
    hide AppendState;
  }

  // ---- The reservation of ENTER_BOOT ----

  const RESERVED_IMAGE_SIZE: nat := 223 * CHECKPOINT_SIZE

  /** A successful ENTER_BOOT leaves 231 free slots behind its record. */
  lemma EnterBootReserves(log: Log, req: Request, f: Faults)
    requires WellFormed(log) && AppEnterBoot(log, req, f).1 == OK
    ensures var log' := AppEnterBoot(log, req, f).0;
            && FreeCount(log') >= APP_MAX_REQUIRED_RECORDS - 1
            && Latest(log').Some? && Latest(log').value.state == UPDATE_REQUESTED
            && (FreeCount(log) >= APP_MAX_REQUIRED_RECORDS ==> FreeCount(log') == FreeCount(log) - 1)
  {
    hide CompactIfNeeded, Append, Latest, FreeCount, HasUsed;
    var (log1, status) := CompactIfNeeded(log, APP_MAX_REQUIRED_RECORDS, f.first);
    var desired := InitRecord(UPDATE_REQUESTED).(session := req.session);
    assert status == Ok || status == Empty;
    assert Append(log1, desired, f.second).status == Ok;
    assert AppEnterBoot(log, req, f).0 == Append(log1, desired, f.second).log;
    hide AppEnterBoot, WellFormed;
    CompactFindsRoom(log, APP_MAX_REQUIRED_RECORDS, f.first);
    AppendOutcome(log1, desired, f.second);
    AppendSpendsOneSlot(log1, desired, f.second);
  }

  /** After UPDATE_REQUESTED nothing can be compacted: START succeeds exactly if the free slots suffice. */
  lemma StartAfterRequestNeedsRoom(b: Boot, req: Request, f: Faults)
    requires IsBoot(b) && b.ram.has && Latest(b.log) == Some(b.ram.rec) && State(b) == UPDATE_REQUESTED
    requires Latest(b.log).value.seqno < 0xFFFF_FFFE && WritesWork(f)
    requires StartRefusal(req) == OK
    ensures HandleStart(b, req, f).reply == OK <==>
              FreeCount(b.log) >= RequiredRecords(DecodeManifest(req.payload).value.size)
  {
    hide DecodeManifest;
    var m := DecodeManifest(req.payload).value;
    if FreeCount(b.log) >= RequiredRecords(m.size) {
      AppendWithRoom(b.log, StartRecord(req.session, m), f.second);
    }
    hide Append, Latest, FreeCount, WellFormed;
  }

  /**
   * From any journal: after a successful ENTER_BOOT, START has room for every image of at most
   * 223 checkpoints, and if exactly the reserved slots were free, for no larger one.
   */
  lemma Reservation(log: Log, flash: seq<byte>, enter: Request, f: Faults, start: Request, g: Faults)
    requires WellFormed(log) && Flash.IsFlash(flash) && AppEnterBoot(log, enter, f).1 == OK
    requires StartRefusal(start) == OK && WritesWork(g)
    requires Latest(AppEnterBoot(log, enter, f).0).Some? ==> Latest(AppEnterBoot(log, enter, f).0).value.seqno < 0xFFFF_FFFE
    ensures var log' := AppEnterBoot(log, enter, f).0;
            var size := DecodeManifest(start.payload).value.size;
            var reply := HandleStart(Boot(log', flash, InitRam(log')), start, g).reply;
            && (size <= RESERVED_IMAGE_SIZE ==> reply == OK)
            && (FreeCount(log) == APP_MAX_REQUIRED_RECORDS ==> (reply == OK <==> size <= RESERVED_IMAGE_SIZE))
  {
    var log' := AppEnterBoot(log, enter, f).0;
    EnterBootReserves(log, enter, f);
    var b := Boot(log', flash, InitRam(log'));
    LatestIsValid(log');
    assert b.ram.has && Latest(b.log) == Some(b.ram.rec);
    hide AppEnterBoot, Latest, FreeCount, HandleStart, DecodeManifest, InitRam, WellFormed;
    StartAfterRequestNeedsRoom(b, start, g);
  }
}
