/**
 * What the APP flash holds during a transfer from an arbitrary client: always the
 * payloads accepted so far, also after a reset took progress back to the journal's.
 */
module DataPrefix {
  import opened Types
  import opened Messages
  import opened MetadataLog
  import opened Device
  import opened BootSafety
  import Flash = FlashImage

  /** The journal always manages to lock the flash again after a completed record. */
  predicate Relocks(f: Faults) { f.first.write.locks && f.second.write.locks }

  predicate EventRelocks(e: Event) {
    match e
    case Cut => true
    case Addressed => true
    case PowerOn(_, _, f) => Relocks(f)
    case WindowEnds(_, f) => Relocks(f)
    case Receive(_, _, f) => Relocks(f)
    case ConfirmDelay(f) => Relocks(f)
  }

  /** The progress a record can carry in its state. */
  predicate Shaped(r: Record) {
    && r.received <= r.size <= APP_MAX_SIZE
    && (r.received % Flash.WORD == 0 || r.received == r.size)
    && (r.state == UPDATE_REQUESTED || r.state == ERASING ==> r.received == 0)
    && (r.state == VERIFYING || r.state == PENDING_BOOT || r.state == CONFIRMED ==> r.received == r.size)
  }

  /** The durable record d may lag behind the RAM record r, by less than a checkpoint. */
  predicate Behind(d: Record, r: Record) {
    && d == r.(received := d.received)
    && d.received <= r.received
    && d.received / CHECKPOINT_SIZE == r.received / CHECKPOINT_SIZE
    && (r.received == r.size || r.state != RECEIVING ==> d.received == r.received)
  }

  /** RAM and journal agree, unless a cut compaction lost the record. */
  ghost predicate Synced(log: Log, ram: Ram) {
    && (ram.corrupt ==> !ram.has)
    && (!ram.has ==> Latest(log).None?)
    && (ram.has ==>
          && Shaped(ram.rec)
          && match Latest(log)
             case None => SafeToCompact(ram.rec.state)
             case Some(d) => Behind(d, ram.rec) && Shaped(d))
  }

  /** The bytes the device will still count as received after this step. */
  function Kept(s: System): nat
    requires IsSystem(s)
  {
    match s.mode
    case Off => Durable(s.log)
    case App(_, _, _) => Durable(s.log)
    case _ => Received(BootOf(s))
  }

  function Durable(log: Log): nat {
    if Latest(log).Some? then Latest(log).value.received else 0
  }

  /** The handled request is a DATA at the expected offset, answered OK. */
  predicate Accepts(b: Boot, req: Request, f: Faults)
    requires IsBoot(b)
  {
    req.command == Data && req.offset == Received(b) && HandleData(b, req, f).1 == OK
  }

  /** The accepted payloads, cut back to what the device still counts as received. */
  function AcceptedAfter(acc: seq<byte>, s: System, e: Event): seq<byte>
    requires IsSystem(s)
  {
    var all := if Handles(s, e) && Accepts(BootOf(s), e.req, e.faults) then acc + e.req.payload else acc;
    all[..Min(|all|, Kept(Step(s, e).0))]
  }

  function PrefixRun(s: System, acc: seq<byte>, events: seq<Event>): (System, seq<byte>)
    requires IsSystem(s)
    decreases |events|
  {
    if events == [] then (s, acc)
    else PrefixRun(Step(s, events[0]).0, AcceptedAfter(acc, s, events[0]), events[1..])
  }

  ghost predicate Holds(flash: seq<byte>, acc: seq<byte>) {
    |acc| <= |flash| && flash[..|acc|] == acc
  }

  ghost predicate Tracked(b: Boot, acc: seq<byte>) {
    && IsBoot(b) && Synced(b.log, b.ram)
    && |acc| == Received(b) && Holds(b.flash, acc)
  }

  ghost predicate Prefixed(s: System, acc: seq<byte>) {
    && IsSystem(s)
    && match s.mode
       case Off => |acc| == Durable(s.log) && Holds(s.flash, acc) && (Latest(s.log).Some? ==> Shaped(Latest(s.log).value))
       case App(_, _, _) => |acc| == Durable(s.log) && Holds(s.flash, acc) && (Latest(s.log).Some? ==> Shaped(Latest(s.log).value))
       case _ => Tracked(BootOf(s), acc) && s.mode.ram.deferred == NoAction &&
                 (s.mode.Window? ==> s.mode.ram == InitRam(s.log))
  }

  // ---- Journal steps ----

  /** An append with a working relock: the new record, or the old one, or a lost one that was safe to compact. */
  lemma AppendSteady(log: Log, desired: Record, plan: Plan)
    requires WellFormed(log) && plan.write.locks
    ensures var r := Append(log, desired, plan);
            && (r.status == Ok ==> Latest(r.log) == Some(r.written) && r.written == desired.(seqno := r.written.seqno)
                                   && PayloadValid(desired))
            && (r.status != Ok ==>
                  || Latest(r.log) == Latest(log)
                  || (Latest(log).Some? && SafeToCompact(Latest(log).value.state) && Latest(r.log) == None))
  {
    AppendOutcome(log, desired, plan);
  }

  /** A durable transition of a synced RAM record leaves RAM and journal synced. */
  lemma AppendStateSynced(b: Boot, state: u16, error: u32, plan: Plan)
    requires IsBoot(b) && Synced(b.log, b.ram) && plan.write.locks
    requires b.ram.has && Shaped(b.ram.rec.(state := state))
    ensures var (b', reply) := AppendState(b, state, error, plan);
            && Synced(b'.log, b'.ram) && b'.ram.has && b'.ram.rec.received == b.ram.rec.received
            && b'.ram.deferred == b.ram.deferred
            && (reply != OK ==> b'.ram == b.ram)
            && (reply == OK ==> Latest(b'.log) == Some(b'.ram.rec) &&
                                b'.ram.rec == b.ram.rec.(state := state, error := error, seqno := b'.ram.rec.seqno))
  {
    hide Append;
    if !b.ram.corrupt {
      AppendSteady(b.log, b.ram.rec.(state := state, error := error), plan);
    }
    hide Latest, WellFormed;
  }

  lemma AbortSynced(b: Boot, acc: seq<byte>, req: Request, f: Faults)
    requires Tracked(b, acc) && Relocks(f)
    ensures var (b', reply) := HandleAbort(b, req, f);
            Tracked(b', acc) && b'.ram.deferred == b.ram.deferred
  {
    hide Latest, WellFormed, AppendState;
    if b.ram.has {
      AppendStateSynced(b, FAILED, 0, f.first);
    }
  }

  lemma CompactSteady(log: Log, required: nat, plan: Plan)
    requires WellFormed(log)
    ensures var (log', status) := CompactIfNeeded(log, required, plan);
            || Latest(log') == Latest(log)
            || (Latest(log).Some? && SafeToCompact(Latest(log).value.state) && Latest(log') == None)
  {
    if Latest(log).Some? {
      CompactOutcome(log, plan);
    }
  }

  lemma StartSynced(b: Boot, acc: seq<byte>, req: Request, f: Faults)
    requires Tracked(b, acc) && Relocks(f)
    ensures var h := HandleStart(b, req, f);
            && (Tracked(h.b, acc) || (Received(h.b) == 0 && Tracked(h.b, [])))
            && h.b.ram.deferred == b.ram.deferred
  {
    hide DecodeManifest, ManifestMatches;
    if StartRefusal(req) == OK && !InSession(State(b)) {
      var m := DecodeManifest(req.payload).value;
      var log1 := CompactIfNeeded(b.log, RequiredRecords(m.size), f.first).0;
      CompactSteady(b.log, RequiredRecords(m.size), f.first);
      AppendSteady(log1, StartRecord(req.session, m), f.second);
      hide CompactIfNeeded, Append, Latest, WellFormed, RequiredRecords;
    }
  }

  lemma EraseSynced(b: Boot, acc: seq<byte>, req: Request, f: Faults)
    requires Tracked(b, acc) && Relocks(f) && b.ram.deferred == NoAction
    ensures var b' := HandleErase(b, req, f).0;
            && Tracked(b', acc)
            && (b'.ram.deferred == EraseApp ==> b'.ram.has && b'.ram.rec.state == ERASING)
  {
    hide Latest, WellFormed, AppendState;
    if b.ram.has && State(b) == UPDATE_REQUESTED {
      AppendStateSynced(b, ERASING, 0, f.first);
    }
  }

  /** Storing a chunk leaves every byte before it alone, and success means the chunk is there. */
  lemma StoreKeepsPrefix(flash: seq<byte>, offset: u32, data: Payload, final: bool, hal: Hal, acc: seq<byte>)
    requires Flash.IsFlash(flash) && offset + |data| <= |flash|
    requires |acc| == offset && Holds(flash, acc)
    ensures var (flash', status) := StoreChunk(flash, offset, data, final, hal);
            && Flash.IsFlash(flash') && Holds(flash', acc)
            && (status == Flash.Ok ==> Holds(flash', acc + data))
  {
    hide Flash.Program;
    Flash.ProgramIsLocal(flash, offset, data, 0, hal.ops);
    var (flash', status) := StoreChunk(flash, offset, data, final, hal);
    assert forall j | 0 <= j < offset :: flash'[j] == flash[j] == flash[..offset][j] == acc[j];
    if status == Flash.Ok {
      assert forall j | 0 <= j < |data| :: flash'[offset + j] == data[j];
      assert forall j | offset <= j < offset + |data| :: flash'[j] == data[j - offset];
    }
  }

  /** A checkpoint makes the new offset durable or leaves the journal where it was. */
  lemma CheckpointSynced(b: Boot, moved: Boot, plan: Plan)
    requires IsBoot(moved) && Synced(b.log, b.ram) && b.ram.has && State(b) == RECEIVING && plan.write.locks
    requires moved.log == b.log && moved.ram == b.ram.(rec := b.ram.rec.(received := moved.ram.rec.received))
    requires Shaped(moved.ram.rec)
    ensures var (b', reply) := AppendState(moved, RECEIVING, 0, plan);
            && (reply == OK ==> Synced(b'.log, b'.ram) && b'.ram.has && b'.ram.rec.state == RECEIVING
                                && b'.ram.rec.received == moved.ram.rec.received)
            && (reply != OK ==> b'.ram == moved.ram && Synced(b'.log, b.ram))
            && b'.ram.deferred == b.ram.deferred
  {
    AppendSteady(b.log, moved.ram.rec.(state := RECEIVING, error := 0), plan);
    hide Append, Latest, WellFormed;
  }

  lemma NextIsShaped(r: Record, length: nat)
    requires Shaped(r) && r.state == RECEIVING && ValidateChunk(r.received, length, r.size).ChunkOk?
    ensures r.received + length <= r.size
    ensures Shaped(r.(received := r.received + length))
    ensures !IsCheckpoint(r.received, r.received + length, r.size) ==>
              forall d: Record | Behind(d, r) :: Behind(d, r.(received := r.received + length))
  {
  }

  lemma AdvanceSynced(b: Boot, acc: seq<byte>, data: Payload, plan: Plan)
    requires IsBoot(b) && Synced(b.log, b.ram) && b.ram.has && State(b) == RECEIVING && plan.write.locks
    requires ValidateChunk(b.ram.rec.received, |data|, b.ram.rec.size).ChunkOk?
    requires |acc| == b.ram.rec.received && Holds(b.flash, acc) && Holds(b.flash, acc + data)
    ensures var (b', reply) := Advance(b, |data|, plan);
            && Tracked(b', if reply == OK then acc + data else acc)
            && b'.ram.deferred == b.ram.deferred
  {
    var r := b.ram.rec;
    hide Holds, WellFormed, Latest, AppendState, IsCheckpoint, ValidateChunk, Shaped, Behind;
    assert Shaped(r);
    hide Synced;
    NextIsShaped(r, |data|);
    var moved := b.(ram := b.ram.(rec := r.(received := r.received + |data|)));
    if IsCheckpoint(r.received, moved.ram.rec.received, r.size) {
      CheckpointSynced(b, moved, plan);
    } else {
      MovedSynced(b.log, b.ram, moved.ram.rec.received);
    }
  }

  lemma MovedSynced(log: Log, ram: Ram, next: u32)
    requires Synced(log, ram) && ram.has && Shaped(ram.rec.(received := next))
    requires forall d: Record | Behind(d, ram.rec) :: Behind(d, ram.rec.(received := next))
    ensures Synced(log, ram.(rec := ram.rec.(received := next)))
  {
    hide Behind, Latest, Shaped;
  }

  lemma AcceptSynced(b: Boot, acc: seq<byte>, data: Payload, final: bool, f: Faults)
    requires Tracked(b, acc) && Relocks(f) && b.ram.has && State(b) == RECEIVING
    requires ValidateChunk(b.ram.rec.received, |data|, b.ram.rec.size) == ChunkOk(final)
    ensures var (b', reply) := AcceptChunk(b, data, final, f);
            && Tracked(b', if reply == OK then acc + data else acc)
            && b'.ram.deferred == b.ram.deferred
  {
    var (flash', status) := StoreChunk(b.flash, b.ram.rec.received, data, final, f.flash);
    StoreKeepsPrefix(b.flash, b.ram.rec.received, data, final, f.flash, acc);
    hide StoreChunk, Holds, WellFormed, Latest, Advance;
    if status == Flash.Ok {
      AdvanceSynced(b.(flash := flash'), acc, data, f.second);
    }
  }

  lemma DataSynced(b: Boot, acc: seq<byte>, req: Request, f: Faults)
    requires Tracked(b, acc) && Relocks(f)
    ensures var b' := HandleData(b, req, f).0;
            && Tracked(b', if req.offset == Received(b) && HandleData(b, req, f).1 == OK then acc + req.payload else acc)
            && b'.ram.deferred == b.ram.deferred
  {
    hide AcceptChunk, CompareChunk, Latest, WellFormed, Holds;
    if b.ram.has && State(b) == RECEIVING && req.offset == b.ram.rec.received {
      var check := ValidateChunk(req.offset, |req.payload|, b.ram.rec.size);
      if check.ChunkOk? {
        AcceptSynced(b, acc, req.payload, check.final, f);
      }
    }
  }

  lemma VerifySynced(b: Boot, acc: seq<byte>, req: Request, f: Faults)
    requires Tracked(b, acc) && Relocks(f)
    ensures var b' := HandleVerify(b, req, f).0;
            Tracked(b', acc) && b'.ram.deferred == b.ram.deferred
  {
    hide Latest, WellFormed, AppendState, ImageCrc, Holds;
    if b.ram.has && (State(b) == RECEIVING || State(b) == VERIFYING) && b.ram.rec.received == b.ram.rec.size {
      if State(b) == RECEIVING {
        AppendStateSynced(b, VERIFYING, 0, f.first);
      }
      var (b1, reply) := if State(b) == RECEIVING then AppendState(b, VERIFYING, 0, f.first) else (b, OK);
      if reply == OK {
        AppendStateSynced(b1, PENDING_BOOT, 0, f.second);
        AppendStateSynced(b1, FAILED, VERIFY_FAILED_CODE, f.second);
      }
    }
  }

  /** The accepted payloads after one dispatched request, before the deferred action. */
  function AfterDispatch(acc: seq<byte>, b: Boot, req: Request, f: Faults): seq<byte>
    requires IsBoot(b)
  {
    if Accepts(b, req, f) then acc + req.payload
    else if Received(Dispatch(b, req, f).0) == 0 then []
    else acc
  }

  lemma DispatchSynced(b: Boot, acc: seq<byte>, req: Request, f: Faults)
    requires Tracked(b, acc) && Relocks(f) && b.ram.deferred == NoAction
    ensures var b' := Dispatch(b, req, f).0;
            && Tracked(b', AfterDispatch(acc, b, req, f))
            && (b'.ram.deferred == EraseApp ==> b'.ram.has && b'.ram.rec.state == ERASING)
  {
    hide Synced, Holds, WellFormed;
    match req.command {
      case Start => StartSynced(b, acc, req, f); hide HandleStart;
      case Erase => EraseSynced(b, acc, req, f); hide HandleErase;
      case Data => DataSynced(b, acc, req, f); hide HandleData;
      case VerifyImage => VerifySynced(b, acc, req, f); hide HandleVerify;
      case Abort => AbortSynced(b, acc, req, f); hide HandleAbort;
      case Activate => FlagsKeepSync(b, acc, b.ram.activity, ResetDevice);
      case _ =>
    }
    assert |acc| == 0 ==> acc == [];
  }

  /** The deferred erase runs with nothing received, so it takes no accepted byte away. */
  lemma DeferredSynced(b: Boot, acc: seq<byte>, f: Faults)
    requires Tracked(b, acc) && Relocks(f)
    requires b.ram.deferred == EraseApp ==> b.ram.has && b.ram.rec.state == ERASING
    ensures var b' := RunDeferred(b, f).0;
            Tracked(b', acc) && b'.ram.deferred == NoAction
  {
    hide Latest, WellFormed, AppendState;
    if b.ram.deferred == EraseApp {
      var (flash', status) := Flash.Erase(b.flash, b.ram.rec.size, f.flash);
      var erased := b.(ram := b.ram.(deferred := NoAction), flash := flash');
      assert acc == [];
      assert b.ram.rec.(received := 0) == b.ram.rec;
      AppendStateSynced(erased, RECEIVING, 0, f.second);
      AppendStateSynced(erased, FAILED, FLASH_ERROR_CODE, f.second);
      hide Flash.Erase;
    }
  }

  // ---- Runs ----

  /** Switching the device off falls back to the durable record. */
  lemma OffKeepsPrefix(b: Boot, acc: seq<byte>)
    requires Tracked(b, acc)
    ensures Durable(b.log) <= |acc|
    ensures Prefixed(System(b.log, b.flash, Off), acc[..Durable(b.log)])
  {
    hide Latest, WellFormed;
    assert b.flash[..Durable(b.log)] == b.flash[..|acc|][..Durable(b.log)];
  }

  lemma ReceivePrefixed(s: System, acc: seq<byte>, e: Event)
    requires Prefixed(s, acc) && Handles(s, e) && Relocks(e.faults)
    ensures Prefixed(Step(s, e).0, AcceptedAfter(acc, s, e))
  {
    hide Synced, Holds, WellFormed, Dispatch, RunDeferred, Latest, HandleData;
    var b := BootOf(s).(ram := s.mode.ram.(activity := true));
    assert Tracked(b, acc) by { FlagsKeepSync(BootOf(s), acc, true, NoAction); }
    ActivityIsIrrelevantToData(BootOf(s), e.req, e.faults);
    DispatchSynced(b, acc, e.req, e.faults);
    var b1 := Dispatch(b, e.req, e.faults).0;
    var acc1 := AfterDispatch(acc, b, e.req, e.faults);
    if e.sent {
      DeferredSynced(b1, acc1, e.faults);
    } else {
      FlagsKeepSync(b1, acc1, b1.ram.activity, NoAction);
    }
    var (b2, response, reset) := Poll(BootOf(s), e.req, e.sent, e.faults);
    assert Tracked(b2, acc1) && b2.ram.deferred == NoAction;
    OffKeepsPrefix(b2, acc1);
    hide Poll;
    AcceptedIsTruncated(s, acc, e, b2, acc1, reset);
  }

  lemma AcceptedIsTruncated(s: System, acc: seq<byte>, e: Event, b2: Boot, acc1: seq<byte>, reset: bool)
    requires Prefixed(s, acc) && Handles(s, e)
    requires Tracked(b2, acc1) && Durable(b2.log) <= |acc1|
    requires acc1 == if Accepts(BootOf(s), e.req, e.faults) then acc + e.req.payload else if acc1 == [] then [] else acc
    requires Step(s, e).0 == System(b2.log, b2.flash, if reset then Off else Service(b2.ram))
    ensures AcceptedAfter(acc, s, e) == if reset then acc1[..Min(|acc1|, Durable(b2.log))] else acc1
  {
    hide Synced, Holds, WellFormed, Step, Latest, HandleData;
  }

  lemma FlagsKeepSync(b: Boot, acc: seq<byte>, activity: bool, deferred: Deferred)
    requires Tracked(b, acc)
    ensures Tracked(b.(ram := b.ram.(activity := activity, deferred := deferred)), acc)
  {
    hide Latest, WellFormed;
  }

  lemma ActivityIsIrrelevantToData(b: Boot, req: Request, f: Faults)
    requires IsBoot(b)
    ensures Accepts(b.(ram := b.ram.(activity := true)), req, f) == Accepts(b, req, f)
  {
    hide Append, ImageCrc, ValidateChunk, StoreChunk, CompareChunk;
  }

  lemma DecidePrefixed(b: Boot, acc: seq<byte>, transportUp: bool, image: Image, plan: Plan)
    requires Tracked(b, acc) && plan.write.locks && b.ram.deferred == NoAction
    requires b.ram == InitRam(b.log).(decided := b.ram.decided)
    ensures Prefixed(Decide(b, transportUp, image, plan), acc)
  {
    hide Append, IsAppValid, AppInit, AppendState, WellFormed;
    var d := b.(ram := b.ram.(decided := true));
    if b.ram.has && State(b) == PENDING_BOOT {
      AppendStateSynced(d, FAILED, TIMEOUT_CODE, plan);
      if b.ram.rec.error < PENDING_BOOT_MAX_ATTEMPTS {
        AppendStateSynced(d, PENDING_BOOT, b.ram.rec.error + 1, plan);
      }
    }
    hide Latest, HasUsed;
  }

  lemma PowerOnPrefixed(s: System, acc: seq<byte>, transportUp: bool, image: Image, f: Faults)
    requires Prefixed(s, acc) && s.mode.Off? && Relocks(f)
    ensures Prefixed(Start0(s, transportUp, image, f), acc)
  {
    var b := Boot(s.log, s.flash, InitRam(s.log));
    assert Tracked(b, acc);
    DecidePrefixed(b, acc, transportUp, image, f.first);
    hide Decide, IsAppValid, Latest, HasUsed;
  }

  /** What the application's journal operations leave: no new progress. */
  ghost predicate NoNewProgress(log: Log, log': Log) {
    || Latest(log') == Latest(log)
    || Latest(log') == None
    || (Latest(log').value.received == 0 && Shaped(Latest(log').value))
    || (Latest(log).Some? && Latest(log').value.received == Latest(log).value.received &&
        (Shaped(Latest(log).value) ==> Shaped(Latest(log').value)))
  }

  lemma EnterBootSteady(log: Log, req: Request, f: Faults)
    requires WellFormed(log) && Relocks(f)
    ensures NoNewProgress(log, AppEnterBoot(log, req, f).0)
  {
    var log1 := CompactIfNeeded(log, APP_MAX_REQUIRED_RECORDS, f.first).0;
    CompactSteady(log, APP_MAX_REQUIRED_RECORDS, f.first);
    AppendSteady(log1, InitRecord(UPDATE_REQUESTED).(session := req.session), f.second);
    hide CompactIfNeeded, Append, Latest, WellFormed, HasUsed;
  }

  lemma ConfirmSteady(log: Log, version: u32, plan: Plan)
    requires WellFormed(log) && plan.write.locks
    ensures NoNewProgress(log, ConfirmPending(log, version, plan).0)
  {
    hide HasUsed, Append;
    if Latest(log).Some? {
      AppendSteady(log, Latest(log).value.(state := CONFIRMED, error := 0), plan);
    }
    hide Latest, WellFormed;
  }

  lemma AppPrefixed(s: System, acc: seq<byte>, e: Event)
    requires Prefixed(s, acc) && s.mode.App? && EventRelocks(e)
    ensures Prefixed(Step(s, e).0, AcceptedAfter(acc, s, e))
  {
    hide AppEnterBoot, ConfirmPending, HasUsed;
    match e {
      case Receive(req, sent, f) => EnterBootSteady(s.log, req, f);
      case ConfirmDelay(f) => ConfirmSteady(s.log, s.mode.version, f.first);
      case _ =>
    }
    hide Latest, WellFormed;
    var s' := Step(s, e).0;
    assert NoNewProgress(s.log, s'.log) && s'.flash == s.flash;
    assert acc[..|acc|] == acc;
    assert Kept(s') == Durable(s'.log);
    assert Durable(s'.log) == |acc| || Durable(s'.log) == 0;
  }

  lemma StepPrefixed(s: System, acc: seq<byte>, e: Event)
    requires Prefixed(s, acc) && EventRelocks(e)
    ensures Prefixed(Step(s, e).0, AcceptedAfter(acc, s, e))
  {
    hide Start0, Decide, Latest, HasUsed, AppDispatch, ConfirmPending, BootReceive;
    if Handles(s, e) {
      ReceivePrefixed(s, acc, e);
    } else if s.mode.App? {
      AppPrefixed(s, acc, e);
    } else {
      match e {
        case PowerOn(transportUp, image, f) =>
          if s.mode.Off? {
            PowerOnPrefixed(s, acc, transportUp, image, f);
          }
        case WindowEnds(image, f) =>
          if s.mode.Window? && !s.mode.ram.activity {
            DecidePrefixed(BootOf(s), acc, true, image, f.first);
          }
        case Cut =>
          if !s.mode.Off? {
            OffKeepsPrefix(BootOf(s), acc);
          }
        case _ =>
      }
      hide WellFormed;
    }
  }

  lemma {:induction false} RunPrefixed(s: System, acc: seq<byte>, events: seq<Event>)
    requires Prefixed(s, acc)
    requires forall i | 0 <= i < |events| :: EventRelocks(events[i])
    ensures var (s', acc') := PrefixRun(s, acc, events); Prefixed(s', acc')
    decreases |events|
  {
    if events != [] {
      StepPrefixed(s, acc, events[0]);
      RunPrefixed(Step(s, events[0]).0, AcceptedAfter(acc, s, events[0]), events[1..]);
    }
  }

  predicate Transferring(s: System) {
    (s.mode.Window? || s.mode.Service? || s.mode.Silent?) && State(BootOf(s)) == RECEIVING
  }

  lemma WhatPrefixedSays(s: System, acc: seq<byte>)
    requires Prefixed(s, acc) && Transferring(s)
    ensures var r := s.mode.ram.rec;
            && r.received <= r.size <= |s.flash|
            && (r.received % Flash.WORD == 0 || r.received == r.size)
            && s.flash[..r.received] == acc
            && Durable(s.log) <= r.received < Durable(s.log) + CHECKPOINT_SIZE
            && (r.received == r.size ==> Durable(s.log) == r.size)
  {
    hide Latest, WellFormed;
  }

  lemma DurableFits(s: System)
    requires IsSystem(s)
    ensures Durable(s.log) <= |s.flash|
  {
    LatestIsValid(s.log);
    hide Latest, WellFormed;
  }

  /**
   * In every reachable RECEIVING state the received count is at most the image size, is
   * word-aligned or complete, lies less than a checkpoint beyond the durable one, and the APP
   * flash up to it is the concatenation of the accepted payloads (after what the journal
   * already counted when the run began).
   */
  lemma DataPrefix(s: System, start: seq<byte>, events: seq<Event>)
    requires IsSystem(s) && s.mode.Off? && (Latest(s.log).Some? ==> Shaped(Latest(s.log).value))
    requires |start| == Durable(s.log) && Holds(s.flash, start)
    requires forall i | 0 <= i < |events| :: EventRelocks(events[i])
    ensures var (s', acc) := PrefixRun(s, start, events);
            Transferring(s') ==>
              var r := s'.mode.ram.rec;
              && r.received <= r.size <= |s'.flash|
              && (r.received % Flash.WORD == 0 || r.received == r.size)
              && s'.flash[..r.received] == acc
              && Durable(s'.log) <= r.received < Durable(s'.log) + CHECKPOINT_SIZE
              && (r.received == r.size ==> Durable(s'.log) == r.size)
  {
    RunPrefixed(s, start, events);
    var (s', acc) := PrefixRun(s, start, events);
    if Transferring(s') {
      WhatPrefixedSays(s', acc);
    }
    hide *;
  }

  // ---- The relock hypothesis is needed ----

  /** A completed record whose relock fails is reported as a failure, yet it is the journal's latest. */
  lemma UnlockedRecordCounts(log: Log, desired: Record, plan: Plan)
    requires WellFormed(log) && Latest(log).Some? && Latest(log).value.seqno < 0xFFFF_FFFE && FreeCount(log) > 0
    requires PayloadValid(desired) && plan.write == Hal(true, RECORD_WORDS, false)
    ensures var r := Append(log, desired, plan);
            r.status == LockError && Latest(r.log) == Some(desired.(seqno := Latest(log).value.seqno + 1))
  {
    FreeMeansErased(log);
    LatestIsValid(log);
    var slot := FirstErased(log).value;
    LatestAfterCommit(log, slot, desired.(seqno := Latest(log).value.seqno + 1));
    hide Latest, FreeCount, HasUsed;
  }

  /**
   * If the relock after a checkpoint fails, a chunk that was answered with an error is counted as
   * received after the next reset, although the client was never told that it was accepted.
   */
  lemma RelockFailureBreaksPrefix(s: System, req: Request, f: Faults, image: Image, g: Faults)
    requires Prefixed(s, []) && s.mode.Service? && Latest(s.log) == Some(s.mode.ram.rec)
    requires s.mode.ram.rec.state == RECEIVING && s.mode.ram.rec.received == 0
    requires FreeCount(s.log) > 0 && s.mode.ram.rec.seqno < 0xFFFF_FFFE
    requires req.command == Data && req.session == s.mode.ram.rec.session && req.offset == 0
    requires |req.payload| == s.mode.ram.rec.size > 0
    requires StoreChunk(s.flash, 0, req.payload, true, f.flash).1 == Flash.Ok
    requires f.second.write == Hal(true, RECORD_WORDS, false)
    ensures var (s', accepted) := PrefixRun(s, [], [Receive(req, true, f), Cut, PowerOn(true, image, g)]);
            Transferring(s') && s'.mode.ram.rec.received == |req.payload| && accepted == []
  {
    var e := Receive(req, true, f);
    UnacknowledgedStep(s, req, f);
    var s1 := Step(s, e).0;
    hide HandleData, WellFormed, StoreChunk, FreeCount, Synced, Holds, Latest, PayloadValid;
    var s2 := Step(s1, Cut).0;
    assert AcceptedAfter([], s1, Cut) == [];
    ReceivingReboots(s2, image, g);
    hide Step, AcceptedAfter;
    var events := [e, Cut, PowerOn(true, image, g)];
    assert events[1..] == [Cut, PowerOn(true, image, g)] && events[1..][1..] == [PowerOn(true, image, g)] && events[1..][1..][1..] == [];
    assert PrefixRun(s2, [], events[1..][1..]) == (Step(s2, PowerOn(true, image, g)).0, []);
    assert PrefixRun(s1, [], events[1..]) == PrefixRun(s2, [], events[1..][1..]);
  }

  /** A fresh transfer of a one-word image: its only chunk is its only checkpoint, and the relock after it fails. */
  function OneWordRecord(): Record {
    Record(RECEIVING, 1, 1, 1, 4, 0, 0, [0, 0, 0, 0, 0, 0, 0, 0], 0)
  }

  function OneWordTransfer(): System {
    System(ErasedLog()[0 := Committed(OneWordRecord())], Flash.Blank(APP_MAX_SIZE),
           Service(Ram(OneWordRecord(), true, false, true, false, false, NoAction)))
  }

  function OneWordChunk(): Request { Request(Data, 1, 0, 0, [0, 0, 0, 0]) }

  function RelockFails(): Faults {
    NONE_FAIL.(second := NO_FAULTS.(write := Hal(true, RECORD_WORDS, false)))
  }

  lemma RelockFailureHasAState(image: Image, g: Faults)
    ensures IsSystem(OneWordTransfer()) && Prefixed(OneWordTransfer(), [])
    ensures var events := [Receive(OneWordChunk(), true, RelockFails()), Cut, PowerOn(true, image, g)];
            var (s', accepted) := PrefixRun(OneWordTransfer(), [], events);
            Transferring(s') && s'.mode.ram.rec.received == 4 && accepted == []
  {
    var s, req, f := OneWordTransfer(), OneWordChunk(), RelockFails();
    LatestOfErased();
    LatestAfterCommit(ErasedLog(), 0, OneWordRecord());
    FreeAfterUse(ErasedLog(), 0, Committed(OneWordRecord()));
    FreeOfErased(ErasedLog());
    hide Latest, FreeCount, HasUsed;
    Flash.ProgramErased(s.flash, 0, req.payload, 0, f.flash.ops);
    hide Flash.Program;
    assert s.flash[..0] == [];
    assert Prefixed(s, []);
    assert StoreChunk(s.flash, 0, req.payload, true, f.flash).1 == Flash.Ok;
    RelockFailureBreaksPrefix(s, req, f, image, g);
    hide PrefixRun;
  }

  /** The chunk is not accepted, yet the journal's latest record counts it. */
  ghost predicate StoredUnacknowledged(s: System, req: Request, f: Faults) {
    && IsSystem(s)
    && var s1 := Step(s, Receive(req, true, f)).0;
       && s1.mode.Service? && AcceptedAfter([], s, Receive(req, true, f)) == []
       && Latest(s1.log).Some? && Latest(s1.log).value.state == RECEIVING
       && Latest(s1.log).value.received == |req.payload|
  }

  lemma UnacknowledgedStep(s: System, req: Request, f: Faults)
    requires Prefixed(s, []) && s.mode.Service? && Latest(s.log) == Some(s.mode.ram.rec)
    requires s.mode.ram.rec.state == RECEIVING && s.mode.ram.rec.received == 0
    requires FreeCount(s.log) > 0 && s.mode.ram.rec.seqno < 0xFFFF_FFFE
    requires req.command == Data && req.session == s.mode.ram.rec.session && req.offset == 0
    requires |req.payload| == s.mode.ram.rec.size > 0
    requires StoreChunk(s.flash, 0, req.payload, true, f.flash).1 == Flash.Ok
    requires f.second.write == Hal(true, RECORD_WORDS, false)
    ensures StoredUnacknowledged(s, req, f)
  {
    hide HandleData, WellFormed, StoreChunk, FreeCount, Holds, Latest, PayloadValid;
    FailedCheckpoint(BootOf(s), req, f);
    FailedCheckpoint(BootOf(s).(ram := s.mode.ram.(activity := true)), req, f);
    hide Synced;
    assert Received(BootOf(Step(s, Receive(req, true, f)).0)) == 0;
  }

  lemma FailedCheckpoint(b: Boot, req: Request, f: Faults)
    requires IsBoot(b) && b.ram.has && Latest(b.log) == Some(b.ram.rec) && !b.ram.corrupt
    requires State(b) == RECEIVING && b.ram.rec.received == 0 && FreeCount(b.log) > 0 && b.ram.rec.seqno < 0xFFFF_FFFE
    requires req.session == b.ram.rec.session && req.offset == 0 && |req.payload| == b.ram.rec.size > 0
    requires StoreChunk(b.flash, 0, req.payload, true, f.flash).1 == Flash.Ok
    requires f.second.write == Hal(true, RECORD_WORDS, false)
    ensures var (b', reply) := HandleData(b, req, f);
            && reply == FlashError && b'.ram == b.ram
            && Latest(b'.log).Some? && Latest(b'.log).value.state == RECEIVING
            && Latest(b'.log).value.received == |req.payload|
  {
    var moved := b.ram.rec.(received := |req.payload|);
    UnlockedRecordCounts(b.log, moved.(state := RECEIVING, error := 0), f.second);
    hide Append, Latest, WellFormed, FreeCount, StoreChunk;
  }

  lemma ReceivingReboots(s: System, image: Image, f: Faults)
    requires IsSystem(s) && s.mode.Off? && Latest(s.log).Some? && Latest(s.log).value.state == RECEIVING
    ensures var s' := Step(s, PowerOn(true, image, f)).0;
            && Transferring(s') && s'.mode.ram.rec == Latest(s.log).value
            && AcceptedAfter([], s, PowerOn(true, image, f)) == []
  {
    hide Latest, WellFormed, HasUsed, Decide, IsAppValid;
  }
}
