/** An image that never confirms itself is started at most three times. */
module TrialBoots {
  import opened Types
  import opened Messages
  import opened MetadataLog
  import opened Device
  import opened BootSafety

  predicate LatestPending(log: Log) {
    Latest(log).Some? && Latest(log).value.state == PENDING_BOOT
  }

  predicate Jumps(s: System, e: Event)
    requires IsSystem(s)
  {
    !s.mode.App? && Step(s, e).0.mode.App?
  }

  /** Jumps since the journal last held a record of another state: CONFIRMED, FAILED, an update. */
  function CountAfter(count: nat, s: System, e: Event): nat
    requires IsSystem(s)
  {
    var log' := Step(s, e).0.log;
    if Latest(log').Some? && Latest(log').value.state != PENDING_BOOT then 0
    else if Jumps(s, e) then count + 1
    else count
  }

  function CountRun(s: System, count: nat, events: seq<Event>): (System, nat)
    requires IsSystem(s)
    decreases |events|
  {
    if events == [] then (s, count)
    else CountRun(Step(s, events[0]).0, CountAfter(count, s, events[0]), events[1..])
  }

  /** A compaction under these faults is not cut between its erase and the end of its rewrite. */
  predicate CompactsWhole(p: Plan) {
    !p.erase.unlocks || p.erase.ops == 0 || (p.erase.locks && p.rewrite.unlocks && p.rewrite.ops >= RECORD_WORDS)
  }

  predicate StepCompactsWhole(e: Event) {
    (e.PowerOn? || e.WindowEnds? || e.Receive? || e.ConfirmDelay?) ==>
      CompactsWhole(e.faults.first) && CompactsWhole(e.faults.second)
  }

  /** No step of the run loses the journal's record. */
  ghost predicate KeepsRecord(s: System, events: seq<Event>)
    requires IsSystem(s)
    decreases |events|
  {
    events != [] ==>
      && (Latest(s.log).Some? ==> Latest(Step(s, events[0]).0.log).Some?)
      && KeepsRecord(Step(s, events[0]).0, events[1..])
  }

  /** Every jump was paid for by a durable increment of the attempt counter. */
  ghost predicate Paid(log: Log, count: nat) {
    && Latest(log).Some?
    && (if LatestPending(log) then count <= Latest(log).value.error && count <= PENDING_BOOT_MAX_ATTEMPTS else count == 0)
  }

  ghost predicate Tracks(b: Boot, count: nat) {
    && BootSafe(b, false) && b.ram.deferred == NoAction && Paid(b.log, count)
    && (LatestPending(b.log) ==> b.ram.has && (b.ram.rec.state == VERIFYING ==> count == 0))
  }

  ghost predicate Bounded(s: System, count: nat) {
    && IsSystem(s) && Paid(s.log, count)
    && (s.mode.Window? || s.mode.Service? || s.mode.Silent? ==> Tracks(BootOf(s), count))
    && (s.mode.Window? ==> !s.mode.ram.decided && !LatestPending(s.log) && s.mode.ram == InitRam(s.log))
  }

  /** What an append leaves as the latest record when no record is lost. */
  lemma AppendLatest(log: Log, desired: Record, plan: Plan)
    requires WellFormed(log)
    ensures var r := Append(log, desired, plan);
            && (r.status == Ok ==> Latest(r.log) == Some(r.written) && r.written == desired.(seqno := r.written.seqno))
            && (Latest(r.log).Some? ==> Latest(r.log) == Latest(log) ||
                                        Latest(r.log) == Some(desired.(seqno := r.written.seqno)))
            && (Latest(log).None? ==> Latest(r.log).None? || Latest(r.log) == Some(desired.(seqno := r.written.seqno)))
  {
    AppendOutcome(log, desired, plan);
  }

  lemma CompactLatest(log: Log, required: nat, plan: Plan)
    requires WellFormed(log)
    ensures var log' := CompactIfNeeded(log, required, plan).0;
            Latest(log') == Latest(log) || Latest(log') == None
  {
    if Latest(log).Some? {
      CompactOutcome(log, plan);
    }
  }

  lemma StartLatest(b: Boot, req: Request, f: Faults)
    requires IsBoot(b)
    ensures var h := HandleStart(b, req, f);
            && (LatestPending(h.b.log) ==> Latest(h.b.log) == Latest(b.log))
            && (b.ram.has ==> h.b.ram.has)
            && (h.b.ram == b.ram || (h.b.ram.has && State(h.b) == UPDATE_REQUESTED && !LatestPending(h.b.log)))
  {
    hide DecodeManifest, ManifestMatches;
    if StartRefusal(req) == OK && !InSession(State(b)) {
      var m := DecodeManifest(req.payload).value;
      var (log1, status) := CompactIfNeeded(b.log, RequiredRecords(m.size), f.first);
      CompactLatest(b.log, RequiredRecords(m.size), f.first);
      AppendLatest(log1, StartRecord(req.session, m), f.second);
      hide CompactIfNeeded, Append, Latest, WellFormed;
    }
  }

  /**
   * A handled request makes the journal pending only with a fresh attempt counter, and
   * otherwise leaves a pending record as it was.
   */
  lemma DispatchPending(b: Boot, req: Request, f: Faults)
    requires BootSafe(b, false) && b.ram.deferred == NoAction
    requires LatestPending(b.log) ==> b.ram.has
    ensures var b' := Dispatch(b, req, f).0;
            && (LatestPending(b'.log) ==> Latest(b'.log) == Latest(b.log) || Latest(b'.log).value.error == 0)
            && (LatestPending(b'.log) && Latest(b'.log) != Latest(b.log) ==>
                  b.ram.has && (State(b) == VERIFYING || !LatestPending(b.log)))
            && (LatestPending(b'.log) ==> b'.ram.has)
            && (b'.ram.has && b'.ram.rec.state == VERIFYING && LatestPending(b'.log) ==>
                  (b.ram.has && b.ram.rec.state == VERIFYING) || !LatestPending(b.log))
  {
    hide AppendState, HandleStart, HandleData, HandleVerify, Latest, WellFormed, Forbids, RangeErased;
    hide Flash.IsFlash, ImageCrc, VerifyPasses;
    match req.command {
      case Start => StartLatest(b, req, f);
      case Erase => AppendStateLatest(b, ERASING, 0, f.first);
      case Data => DataLatest(b, req, f);
      case VerifyImage => VerifyLatest(b, req, f);
      case Abort => AppendStateLatest(b, FAILED, 0, f.first);
      case _ =>
    }
  }

  lemma AppendStateLatest(b: Boot, state: u16, error: u32, plan: Plan)
    requires IsBoot(b)
    ensures var (b', reply) := AppendState(b, state, error, plan);
            && (reply == OK ==> Latest(b'.log) == Some(b'.ram.rec) && b'.ram.has &&
                                b'.ram.rec.state == state && b'.ram.rec.error == error)
            && (reply != OK ==> b'.ram == b.ram)
            && (Latest(b'.log).Some? ==>
                  Latest(b'.log) == Latest(b.log) ||
                  (Latest(b'.log).value.state == state && Latest(b'.log).value.error == error))
  {
    if !b.ram.corrupt {
      var current := if b.ram.has then b.ram.rec else InitRecord(state);
      AppendLatest(b.log, current.(state := state, error := error), plan);
    }
  }

  lemma AcceptLatest(b: Boot, data: Payload, final: bool, f: Faults)
    requires IsBoot(b) && b.ram.has && State(b) == RECEIVING
    requires b.ram.rec.received + |data| <= APP_MAX_SIZE
    ensures var b' := AcceptChunk(b, data, final, f).0;
            && (LatestPending(b'.log) ==> Latest(b'.log) == Latest(b.log))
            && b'.ram.has && State(b') == RECEIVING
  {
    hide AppendState, StoreChunk, IsCheckpoint, Append, PayloadValid, RecordValid;
    var (flash', status) := StoreChunk(b.flash, b.ram.rec.received, data, final, f.flash);
    var moved := b.(flash := flash', ram := b.ram.(rec := b.ram.rec.(received := b.ram.rec.received + |data|)));
    AppendStateLatest(moved, RECEIVING, 0, f.second);
    hide WellFormed, Latest;
  }

  lemma DataLatest(b: Boot, req: Request, f: Faults)
    requires IsBoot(b)
    ensures var b' := HandleData(b, req, f).0;
            && (LatestPending(b'.log) ==> Latest(b'.log) == Latest(b.log))
            && (b'.ram.has <==> b.ram.has) && State(b') == State(b)
  {
    hide AcceptChunk, CompareChunk, LatestPending, WellFormed;
    if b.ram.has && State(b) == RECEIVING && ValidateChunk(req.offset, |req.payload|, b.ram.rec.size).ChunkOk? &&
       req.offset == b.ram.rec.received {
      AcceptLatest(b, req.payload, ValidateChunk(req.offset, |req.payload|, b.ram.rec.size).final, f);
    }
  }

  lemma VerifyLatest(b: Boot, req: Request, f: Faults)
    requires BootSafe(b, false)
    ensures var b' := HandleVerify(b, req, f).0;
            && (LatestPending(b'.log) ==>
                  Latest(b'.log) == Latest(b.log) ||
                  (Latest(b'.log).value.error == 0 && b.ram.has && (State(b) == VERIFYING || !LatestPending(b.log))))
            && (b.ram.has ==> b'.ram.has)
            && (LatestPending(b'.log) && !LatestPending(b.log) ==> b.ram.has)
            && (b'.ram.has && b'.ram.rec.state == VERIFYING && LatestPending(b'.log) ==>
                  (b.ram.has && b.ram.rec.state == VERIFYING) || !LatestPending(b.log))
  {
    hide ImageCrc, Append, PayloadValid, RecordValid, HasUsed;
    if b.ram.has && (State(b) == RECEIVING || State(b) == VERIFYING) {
      AppendStateLatest(b, VERIFYING, 0, f.first);
      var (b1, reply) := if State(b) == RECEIVING then AppendState(b, VERIFYING, 0, f.first) else (b, OK);
      AppendStateLatest(b1, PENDING_BOOT, 0, f.second);
      AppendStateLatest(b1, FAILED, VERIFY_FAILED_CODE, f.second);
      hide AppendState;
    }
  }

  lemma DeferredLatest(b: Boot, f: Faults)
    requires IsBoot(b)
    requires b.ram.deferred == EraseApp ==> b.ram.has && State(b) == ERASING && Forbids(b.log)
    ensures var b' := RunDeferred(b, f).0;
            && (LatestPending(b'.log) ==> Latest(b'.log) == Latest(b.log))
            && (b'.ram.has <==> b.ram.has)
            && (b'.ram.rec.state == VERIFYING ==> b.ram.rec.state == VERIFYING)
  {
    if b.ram.deferred == EraseApp {
      var (flash', status) := Flash.Erase(b.flash, b.ram.rec.size, f.flash);
      var erased := b.(ram := b.ram.(deferred := NoAction), flash := flash');
      AppendStateLatest(erased.(ram := erased.ram.(rec := erased.ram.rec.(received := 0))), RECEIVING, 0, f.second);
      AppendStateLatest(erased, FAILED, FLASH_ERROR_CODE, f.second);
      hide AppendState, Flash.Erase, Latest;
    }
  }

  lemma ReceiveBounded(s: System, count: nat, e: Event)
    requires Bounded(s, count) && Handles(s, e)
    requires Latest(Step(s, e).0.log).Some?
    ensures Bounded(Step(s, e).0, CountAfter(count, s, e))
  {
    hide RangeErased, WellFormed, ImageCrc, Dispatch, RunDeferred, Latest, Flash.IsFlash;
    var b := BootOf(s).(ram := s.mode.ram.(activity := true));
    assert Tracks(b, count);
    DispatchSafe(b, false, e.req, e.faults);
    DispatchPending(b, e.req, e.faults);
    var b1 := Dispatch(b, e.req, e.faults).0;
    DeferredSafe(b1, false, e.faults);
    if e.sent {
      DeferredLatest(b1, e.faults);
    }
    hide Forbids, VerifyPasses;
  }

  /** The decision jumps into a pending image only after it made the next attempt durable. */
  lemma DecideBounded(s: System, b: Boot, count: nat, transportUp: bool, image: Image, plan: Plan)
    requires Tracks(b, count) && b.ram == InitRam(b.log)
    requires var s' := Decide(b, transportUp, image, plan); Latest(s'.log).Some?
    ensures var s' := Decide(b, transportUp, image, plan);
            Bounded(s', if !LatestPending(s'.log) then 0 else if s'.mode.App? then count + 1 else count)
  {
    hide IsAppValid, AppInit, Append, HasUsed, AppendState, Forbids, Latest, Flash.IsFlash;
    var d := b.(ram := b.ram.(decided := true));
    if State(b) == PENDING_BOOT {
      AppendStateLatest(d, FAILED, TIMEOUT_CODE, plan);
      AppendStateSafe(d, false, FAILED, TIMEOUT_CODE, plan);
      if b.ram.rec.error < PENDING_BOOT_MAX_ATTEMPTS {
        AppendStateLatest(d, PENDING_BOOT, b.ram.rec.error + 1, plan);
        AppendStateSafe(d, false, PENDING_BOOT, b.ram.rec.error + 1, plan);
      }
    }
    hide WellFormed;
  }

  lemma PowerOnBounded(s: System, count: nat, transportUp: bool, image: Image, f: Faults)
    requires Bounded(s, count) && s.mode.Off?
    requires Latest(Start0(s, transportUp, image, f).log).Some?
    ensures var s' := Start0(s, transportUp, image, f);
            Bounded(s', if !LatestPending(s'.log) then 0 else if s'.mode.App? then count + 1 else count)
  {
    var b := Boot(s.log, s.flash, InitRam(s.log));
    assert Tracks(b, count);
    if MetadataAllowsBoot(s.log) && IsAppValid(s.flash) && (transportUp ==> IsPending(b.ram)) {
      DecideBounded(s, b, count, transportUp, image, f.first);
    }
    hide Decide, IsAppValid, Latest;
  }

  lemma EnterBootLatest(log: Log, req: Request, f: Faults)
    requires WellFormed(log)
    ensures var log' := AppEnterBoot(log, req, f).0;
            LatestPending(log') ==> Latest(log') == Latest(log)
  {
    var log1 := CompactIfNeeded(log, APP_MAX_REQUIRED_RECORDS, f.first).0;
    CompactLatest(log, APP_MAX_REQUIRED_RECORDS, f.first);
    AppendLatest(log1, InitRecord(UPDATE_REQUESTED).(session := req.session), f.second);
    hide CompactIfNeeded, Append, Latest, WellFormed;
  }

  lemma AppBounded(s: System, count: nat, e: Event)
    requires Bounded(s, count) && s.mode.App?
    requires Latest(Step(s, e).0.log).Some?
    ensures Bounded(Step(s, e).0, CountAfter(count, s, e))
  {
    match e {
      case Receive(req, sent, f) =>
        EnterBootLatest(s.log, req, f);
        hide AppEnterBoot;
      case ConfirmDelay(f) =>
        AppendLatest(s.log, Latest(s.log).value.(state := CONFIRMED, error := 0), f.first);
      case _ =>
    }
    hide Append, Latest;
  }

  lemma StepBounded(s: System, count: nat, e: Event)
    requires Bounded(s, count)
    requires Latest(Step(s, e).0.log).Some?
    ensures Bounded(Step(s, e).0, CountAfter(count, s, e))
  {
    if Handles(s, e) {
      ReceiveBounded(s, count, e);
    } else if s.mode.App? {
      AppBounded(s, count, e);
    } else {
      match e {
        case PowerOn(transportUp, image, f) =>
          if s.mode.Off? {
            PowerOnBounded(s, count, transportUp, image, f);
          }
        case WindowEnds(image, f) =>
          if s.mode.Window? && !s.mode.ram.activity {
            DecideBounded(s, BootOf(s), count, true, image, f.first);
          }
        case _ =>
      }
      hide Start0, Decide, Latest;
    }
  }

  lemma {:induction false} RunBounded(s: System, count: nat, events: seq<Event>)
    requires Bounded(s, count) && KeepsRecord(s, events)
    ensures var (s', count') := CountRun(s, count, events); Bounded(s', count')
    decreases |events|
  {
    if events != [] {
      StepBounded(s, count, events[0]);
      RunBounded(Step(s, events[0]).0, CountAfter(count, s, events[0]), events[1..]);
    }
  }

  // ---- A compaction that is not cut loses no record ----

  /** Compaction keeps the record exactly if the state is never compacted or the faults let it finish. */
  lemma CompactKeeps(log: Log, plan: Plan)
    requires WellFormed(log) && Latest(log).Some?
    ensures var log' := Compact(log, Latest(log).value, plan).0;
            if CompactsWhole(plan) || !SafeToCompact(Latest(log).value.state) then Latest(log') == Latest(log)
            else Latest(log') == None
  {
    LatestIsValid(log);
    CompactOutcome(log, plan);
    LatestOfErased();
    LatestAfterTorn(ErasedLog(), 0);
    LatestAfterCommit(ErasedLog(), 0, Latest(log).value);
    assert ErasedLog()[0 := Erased] == ErasedLog();
    hide Latest, WellFormed;
  }

  lemma NeededKeeps(log: Log, required: nat, plan: Plan)
    requires WellFormed(log) && Latest(log).Some? && CompactsWhole(plan)
    ensures Latest(CompactIfNeeded(log, required, plan).0) == Latest(log)
  {
    CompactKeeps(log, plan);
    hide Latest, Compact, FreeCount, HasUsed;
  }

  lemma AppendKeeps(log: Log, desired: Record, plan: Plan)
    requires WellFormed(log) && Latest(log).Some? && CompactsWhole(plan)
    ensures Latest(Append(log, desired, plan).log).Some?
  {
    LatestIsValid(log);
    var latest := Latest(log).value;
    CompactKeeps(log, plan);
    var (compacted, status) := Compact(log, latest, plan);
    hide Latest, Compact, HasUsed, PayloadValid, CompactsWhole;
    if PayloadValid(desired) && latest.seqno < 0xFFFF_FFFE {
      var prepared := desired.(seqno := latest.seqno + 1);
      var first := FirstErased(log);
      if first.Some? {
        WriteOutcome(log, first.value, prepared, plan.write);
      } else if status == Ok {
        WriteOutcome(compacted, 1, prepared, plan.write);
      }
    }
    hide WriteSlot, WellFormed;
  }

  lemma StateKeeps(b: Boot, state: u16, error: u32, plan: Plan)
    requires IsBoot(b) && Latest(b.log).Some? && CompactsWhole(plan)
    ensures Latest(AppendState(b, state, error, plan).0.log).Some?
  {
    AppendKeeps(b.log, (if b.ram.has then b.ram.rec else InitRecord(state)).(state := state, error := error), plan);
    hide Append, Latest, WellFormed;
  }

  lemma DispatchKeeps(b: Boot, req: Request, f: Faults)
    requires IsBoot(b) && Latest(b.log).Some? && CompactsWhole(f.first) && CompactsWhole(f.second)
    ensures Latest(Dispatch(b, req, f).0.log).Some?
  {
    hide AppendState, Append, CompactIfNeeded, Latest, WellFormed, CompactsWhole, StoreChunk, CompareChunk, ImageCrc, DecodeManifest;
    match req.command {
      case Start => StartKeepsRecord(b, req, f); hide HandleStart;
      case Erase => StateKeeps(b, ERASING, 0, f.first);
      case Data => DataKeepsRecord(b, req, f); hide HandleData;
      case VerifyImage => VerifyKeepsRecord(b, req, f); hide HandleVerify;
      case Abort => StateKeeps(b, FAILED, 0, f.first);
      case _ =>
    }
  }

  lemma StartKeepsRecord(b: Boot, req: Request, f: Faults)
    requires IsBoot(b) && Latest(b.log).Some? && CompactsWhole(f.first) && CompactsWhole(f.second)
    ensures Latest(HandleStart(b, req, f).b.log).Some?
  {
    assert |b.log| == CAPACITY;
    hide CompactIfNeeded, Append, Latest, WellFormed, CompactsWhole, DecodeManifest, ManifestMatches;
    if StartRefusal(req) == OK {
      var m := DecodeManifest(req.payload).value;
      NeededKeeps(b.log, RequiredRecords(m.size), f.first);
      AppendKeeps(CompactIfNeeded(b.log, RequiredRecords(m.size), f.first).0, StartRecord(req.session, m), f.second);
    }
  }

  lemma DataKeepsRecord(b: Boot, req: Request, f: Faults)
    requires IsBoot(b) && Latest(b.log).Some? && CompactsWhole(f.second)
    ensures Latest(HandleData(b, req, f).0.log).Some?
  {
    hide AppendState, Latest, WellFormed, CompactsWhole, StoreChunk, CompareChunk, IsCheckpoint;
    if b.ram.has && ValidateChunk(req.offset, |req.payload|, b.ram.rec.size).ChunkOk? && req.offset == b.ram.rec.received {
      var final := ValidateChunk(req.offset, |req.payload|, b.ram.rec.size).final;
      var flash' := StoreChunk(b.flash, b.ram.rec.received, req.payload, final, f.flash).0;
      var next := b.ram.rec.received + |req.payload|;
      StateKeeps(b.(flash := flash', ram := b.ram.(rec := b.ram.rec.(received := next))), RECEIVING, 0, f.second);
    }
    hide ValidateChunk;
  }

  lemma VerifyKeepsRecord(b: Boot, req: Request, f: Faults)
    requires IsBoot(b) && Latest(b.log).Some? && CompactsWhole(f.first) && CompactsWhole(f.second)
    ensures Latest(HandleVerify(b, req, f).0.log).Some?
  {
    hide AppendState, Latest, WellFormed, CompactsWhole, ImageCrc;
    StateKeeps(b, VERIFYING, 0, f.first);
    var b1 := if State(b) == RECEIVING then AppendState(b, VERIFYING, 0, f.first).0 else b;
    StateKeeps(b1, PENDING_BOOT, 0, f.second);
    StateKeeps(b1, FAILED, VERIFY_FAILED_CODE, f.second);
  }

  lemma DeferredKeeps(b: Boot, f: Faults)
    requires IsBoot(b) && Latest(b.log).Some? && CompactsWhole(f.second)
    ensures Latest(RunDeferred(b, f).0.log).Some?
  {
    hide AppendState, Latest, WellFormed, CompactsWhole, Flash.Erase;
    if b.ram.deferred == EraseApp {
      var flash' := Flash.Erase(b.flash, b.ram.rec.size, f.flash).0;
      var erased := b.(ram := b.ram.(deferred := NoAction), flash := flash');
      StateKeeps(erased.(ram := erased.ram.(rec := erased.ram.rec.(received := 0))), RECEIVING, 0, f.second);
      StateKeeps(erased, FAILED, FLASH_ERROR_CODE, f.second);
    }
  }

  lemma DecideKeeps(b: Boot, transportUp: bool, image: Image, plan: Plan)
    requires IsBoot(b) && Latest(b.log).Some? && CompactsWhole(plan)
    ensures Latest(Decide(b, transportUp, image, plan).log).Some?
  {
    hide AppendState, Latest, WellFormed, CompactsWhole, IsAppValid, AppInit;
    var d := b.(ram := b.ram.(decided := true));
    StateKeeps(d, FAILED, TIMEOUT_CODE, plan);
    if b.ram.rec.error < PENDING_BOOT_MAX_ATTEMPTS {
      StateKeeps(d, PENDING_BOOT, b.ram.rec.error + 1, plan);
    }
  }

  lemma EnterBootKeeps(log: Log, req: Request, f: Faults)
    requires WellFormed(log) && Latest(log).Some? && CompactsWhole(f.first) && CompactsWhole(f.second)
    ensures Latest(AppEnterBoot(log, req, f).0).Some?
  {
    assert |log| == CAPACITY;
    hide CompactIfNeeded, Append, Latest, WellFormed, CompactsWhole;
    NeededKeeps(log, APP_MAX_REQUIRED_RECORDS, f.first);
    var log1 := CompactIfNeeded(log, APP_MAX_REQUIRED_RECORDS, f.first).0;
    AppendKeeps(log1, InitRecord(UPDATE_REQUESTED).(session := req.session), f.second);
  }

  lemma AppKeeps(s: System, e: Event)
    requires IsSystem(s) && s.mode.App? && Latest(s.log).Some? && StepCompactsWhole(e)
    ensures Latest(Step(s, e).0.log).Some?
  {
    hide AppEnterBoot, Append, Latest, WellFormed, CompactsWhole;
    match e {
      case Receive(req, sent, f) =>
        EnterBootKeeps(s.log, req, f);
      case ConfirmDelay(f) =>
        AppendKeeps(s.log, Latest(s.log).value.(state := CONFIRMED, error := 0), f.first);
      case _ =>
    }
  }

  lemma StepKeeps(s: System, e: Event)
    requires IsSystem(s) && Latest(s.log).Some? && StepCompactsWhole(e)
    ensures Latest(Step(s, e).0.log).Some?
  {
    hide Dispatch, RunDeferred, Decide, Latest, WellFormed, CompactsWhole, IsAppValid, MetadataAllowsBoot;
    if s.mode.App? {
      AppKeeps(s, e);
    } else if Handles(s, e) {
      var b := BootOf(s).(ram := s.mode.ram.(activity := true));
      DispatchKeeps(b, e.req, e.faults);
      DeferredKeeps(Dispatch(b, e.req, e.faults).0, e.faults);
    } else {
      match e {
        case PowerOn(transportUp, image, f) =>
          DecideKeeps(Boot(s.log, s.flash, InitRam(s.log)), transportUp, image, f.first);
        case WindowEnds(image, f) =>
          if s.mode.Window? { DecideKeeps(BootOf(s), true, image, f.first); }
        case _ =>
      }
    }
  }

  /** If no compaction is cut, the record survives every step. */
  lemma {:induction false} WholeKeepsRecord(s: System, events: seq<Event>)
    requires IsSystem(s) && Latest(s.log).Some? && forall e | e in events :: StepCompactsWhole(e)
    ensures KeepsRecord(s, events)
    decreases |events|
  {
    hide Latest, WellFormed, Step, StepCompactsWhole;
    if events != [] {
      StepKeeps(s, events[0]);
      WholeKeepsRecord(Step(s, events[0]).0, events[1..]);
    }
  }

  /**
   * Over all resets, torn appends and requests, as long as no compaction is cut between its
   * erase and its rewrite, an image is started at most three times before it is confirmed,
   * failed or replaced.
   */
  lemma TrialBootsAreBounded(s: System, events: seq<Event>)
    requires IsSystem(s) && s.mode.Off? && Latest(s.log).Some?
    requires forall e | e in events :: StepCompactsWhole(e)
    ensures CountRun(s, 0, events).1 <= PENDING_BOOT_MAX_ATTEMPTS
  {
    WholeKeepsRecord(s, events);
    RunBounded(s, 0, events);
  }

  // ---- The hypothesis is needed ----

  function Reboots(image: Image, n: nat): seq<Event> {
    if n == 0 then []
    else [PowerOn(true, image, NONE_FAIL), WindowEnds(image, NONE_FAIL), Cut] + Reboots(image, n - 1)
  }

  /** Without a record there is no attempt counter: the image is started any number of times. */
  lemma {:induction false} NoRecordNoBound(s: System, image: Image, count: nat, n: nat)
    requires IsSystem(s) && s.mode.Off? && Latest(s.log).None? && IsAppValid(s.flash)
    ensures CountRun(s, count, Reboots(image, n)).1 == count + n
    decreases n
  {
    hide IsAppValid, Latest, HasUsed, AppInit;
    if n > 0 {
      var events := Reboots(image, n);
      assert events[0] == PowerOn(true, image, NONE_FAIL);
      assert events[1..][0] == WindowEnds(image, NONE_FAIL);
      assert events[1..][1..][0] == Cut;
      assert events[1..][1..][1..] == Reboots(image, n - 1);
      NoRecordNoBound(s, image, count + 1, n - 1);
      OneReboot(s, image, count, events);
    }
  }

  lemma OneReboot(s: System, image: Image, count: nat, events: seq<Event>)
    requires IsSystem(s) && s.mode.Off? && Latest(s.log).None? && IsAppValid(s.flash)
    requires |events| >= 3 && events[0] == PowerOn(true, image, NONE_FAIL)
    requires events[1..][0] == WindowEnds(image, NONE_FAIL) && events[1..][1..][0] == Cut
    ensures CountRun(s, count, events) == CountRun(s, count + 1, events[1..][1..][1..])
  {
    hide IsAppValid, Latest, HasUsed, AppInit;
    var s1 := Step(s, events[0]).0;
    assert s1 == s.(mode := Window(InitRam(s.log)));
    var s2 := Step(s1, events[1]).0;
    assert s2.mode.App? && s2.log == s.log && s2.flash == s.flash;
    assert Step(s2, events[2]).0 == s;
    assert CountRun(s2, count + 1, events[1..][1..]) == CountRun(s, count + 1, events[1..][1..][1..]);
    assert CountRun(s1, count, events[1..]) == CountRun(s2, count + 1, events[1..][1..]);
  }

  /** ENTER_BOOT on a trial boot with a crowded journal loses the record when its compaction is cut. */
  lemma CutCompactionLosesRecord(log: Log, req: Request, f: Faults)
    requires WellFormed(log) && LatestPending(log) && IsBare(req)
    requires FreeCount(log) < APP_MAX_REQUIRED_RECORDS
    requires f.first.erase.unlocks && f.first.erase.ops > 0 && f.first.rewrite.ops == 0
    ensures Latest(AppEnterBoot(log, req, f).0) == None
  {
    LatestIsValid(log);
    LatestOfErased();
    assert ErasedLog()[0 := Erased] == ErasedLog();
    hide Latest, FreeCount, HasUsed, WellFormed;
  }
}
