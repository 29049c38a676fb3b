/**
 * No run of requests, resets and faults makes the bootloader jump to an image that was
 * erased or programmed since the run began or since the last VERIFY that matched its CRC.
 */
module BootSafety {
  import opened Types
  import opened Messages
  import opened MetadataLog
  import opened Device
  import Flash = FlashImage

  // ---- History ----

  /** The CRC-32 check a VERIFY passed. */
  datatype Check = Check(size: u32, crc32: u32)

  /** Whether flash was erased or programmed since the last passed check (or the start of the run). */
  datatype History = History(touched: bool, check: Option<Check>)

  /** The request that a boot mode handles now. */
  predicate Handles(s: System, e: Event) {
    e.Receive? && (s.mode.Window? || s.mode.Service?)
  }

  /** The handled VERIFY reaches its CRC comparison and the CRCs agree. */
  predicate PassesCheck(s: System, e: Event)
    requires IsSystem(s)
  {
    Handles(s, e) && e.req.command == VerifyImage && VerifyPasses(BootOf(s), e.req, e.faults)
  }

  predicate VerifyPasses(b: Boot, req: Request, f: Faults)
    requires IsBoot(b)
  {
    && IsBare(req) && b.ram.has && req.session == b.ram.rec.session
    && (State(b) == RECEIVING || State(b) == VERIFYING)
    && b.ram.rec.received == b.ram.rec.size
    && (State(b) == RECEIVING ==> AppendState(b, VERIFYING, 0, f.first).1 == OK)
    && ImageCrc(b.flash, b.ram.rec.size) == b.ram.rec.crc32
  }

  /** The handled event calls the flash driver to erase or to program. */
  predicate Touches(s: System, e: Event)
    requires IsSystem(s)
  {
    && Handles(s, e)
    && var b := BootOf(s);
       || (e.req.command == Data && Programs(b, e.req))
       || (e.sent && Dispatch(b.(ram := b.ram.(activity := true)), e.req, e.faults).0.ram.deferred == EraseApp)
  }

  predicate Programs(b: Boot, req: Request)
    requires IsBoot(b)
  {
    && b.ram.has && req.session == b.ram.rec.session && State(b) == RECEIVING
    && ValidateChunk(req.offset, |req.payload|, b.ram.rec.size).ChunkOk?
    && req.offset == b.ram.rec.received
    && RangeErased(b.flash, req.offset, |req.payload|)
  }

  function HistoryAfter(h: History, s: System, e: Event): History
    requires IsSystem(s)
  {
    if PassesCheck(s, e) then History(false, Some(Check(s.mode.ram.rec.size, s.mode.ram.rec.crc32)))
    else h.(touched := h.touched || Touches(s, e))
  }

  function Run(s: System, h: History, events: seq<Event>): (r: (System, History))
    requires IsSystem(s)
    ensures IsSystem(r.0)
    decreases |events|
  {
    if events == [] then (s, h)
    else Run(Step(s, events[0]).0, HistoryAfter(h, s, events[0]), events[1..])
  }

  // ---- Invariant ----

  /** The journal holds a record that forbids booting, so it is not compactable either. */
  ghost predicate Forbids(log: Log) {
    Latest(log).Some? && !AllowsBoot(Latest(log).value.state)
  }

  ghost predicate BootSafe(b: Boot, touched: bool) {
    && IsBoot(b)
    && (touched ==> Forbids(b.log) && b.ram.has && !AllowsBoot(b.ram.rec.state))
    && (b.ram.has && (b.ram.rec.state == UPDATE_REQUESTED || b.ram.rec.state == ERASING || b.ram.rec.state == RECEIVING) ==>
          Forbids(b.log))
    && (b.ram.corrupt ==> !b.ram.has)
  }

  ghost predicate FlashAsChecked(flash: seq<byte>, start: seq<byte>, h: History) {
    !h.touched ==>
      match h.check
      case None => flash == start
      case Some(c) => c.size <= |flash| && ImageCrc(flash, c.size) == c.crc32
  }

  ghost predicate Safe(s: System, start: seq<byte>, h: History) {
    && IsSystem(s)
    && FlashAsChecked(s.flash, start, h)
    && match s.mode
       case Off => h.touched ==> Forbids(s.log)
       case App(_, _, _) => !h.touched
       case _ => BootSafe(BootOf(s), h.touched) && s.mode.ram.deferred == NoAction &&
                 (s.mode.Window? ==> !s.mode.ram.decided)
  }

  // ---- Journal steps ----

  lemma AppendKeepsForbids(log: Log, desired: Record, plan: Plan)
    requires WellFormed(log)
    requires !AllowsBoot(desired.state)
    ensures Forbids(log) ==> Forbids(Append(log, desired, plan).log)
    ensures Append(log, desired, plan).status == Ok ==> Forbids(Append(log, desired, plan).log)
  {
    AppendOutcome(log, desired, plan);
  }

  lemma CompactKeepsForbids(log: Log, required: nat, plan: Plan)
    requires WellFormed(log)
    ensures Forbids(log) ==> Forbids(CompactIfNeeded(log, required, plan).0)
  {
    if Latest(log).Some? {
      CompactOutcome(log, plan);
    }
  }

  lemma AppendStateSafe(b: Boot, touched: bool, state: u16, error: u32, plan: Plan)
    requires BootSafe(b, touched)
    requires !AllowsBoot(state) || (!touched && (b.ram.has ==> AllowsBoot(b.ram.rec.state) || b.ram.rec.state == VERIFYING))
    ensures BootSafe(AppendState(b, state, error, plan).0, touched)
    ensures AppendState(b, state, error, plan).0.flash == b.flash
    ensures AppendState(b, state, error, plan).0.ram.deferred == b.ram.deferred
    ensures AppendState(b, state, error, plan).1 == OK ==>
              var ram := AppendState(b, state, error, plan).0.ram;
              ram.has && ram.rec.state == state && ram.rec.size == (if b.ram.has then b.ram.rec.size else 0)
              && ram.rec.crc32 == (if b.ram.has then b.ram.rec.crc32 else 0)
  {
    if !b.ram.corrupt {
      var current := if b.ram.has then b.ram.rec else InitRecord(state);
      var desired := current.(state := state, error := error);
      if !AllowsBoot(state) {
        AppendKeepsForbids(b.log, desired, plan);
      } else {
        AppendOutcome(b.log, desired, plan);
      }
      hide Append, Latest;
    }
  }

  // ---- Handlers ----

  lemma StartSafe(b: Boot, touched: bool, req: Request, f: Faults)
    requires BootSafe(b, touched)
    ensures var h := HandleStart(b, req, f);
            BootSafe(h.b, touched) && h.b.flash == b.flash && h.b.ram.deferred == b.ram.deferred
  {
    hide DecodeManifest, CompactIfNeeded, Append, Latest, ManifestMatches;
    if StartRefusal(req) == OK && !InSession(State(b)) {
      var m := DecodeManifest(req.payload).value;
      CompactKeepsForbids(b.log, RequiredRecords(m.size), f.first);
      var (log1, status) := CompactIfNeeded(b.log, RequiredRecords(m.size), f.first);
      AppendKeepsForbids(log1, StartRecord(req.session, m), f.second);
    }
  }

  lemma EraseSafe(b: Boot, touched: bool, req: Request, f: Faults)
    requires BootSafe(b, touched) && b.ram.deferred == NoAction
    ensures var (b', reply) := HandleErase(b, req, f);
            && BootSafe(b', touched) && b'.flash == b.flash
            && (b'.ram.deferred == NoAction || (b'.ram.deferred == EraseApp && b'.ram.has && b'.ram.rec.state == ERASING))
  {
    AppendStateSafe(b, touched, ERASING, 0, f.first);
    hide AppendState, Forbids;
  }

  lemma AcceptSafe(b: Boot, touched: bool, data: Payload, final: bool, f: Faults)
    requires BootSafe(b, touched) && b.ram.has && State(b) == RECEIVING
    requires b.ram.rec.received + |data| <= APP_MAX_SIZE
    ensures var b' := AcceptChunk(b, data, final, f).0;
            && var erased := RangeErased(b.flash, b.ram.rec.received, |data|);
            && BootSafe(b', touched || erased)
            && (!erased ==> b'.flash == b.flash)
            && b'.ram.deferred == b.ram.deferred
  {
    hide RangeErased, Flash.Verify, Flash.Write, WellFormed, Append, IsCheckpoint;
    var touched' := touched || RangeErased(b.flash, b.ram.rec.received, |data|);
    var (flash', status) := StoreChunk(b.flash, b.ram.rec.received, data, final, f.flash);
    assert RangeErased(b.flash, b.ram.rec.received, |data|) || flash' == b.flash;
    hide Forbids, StoreChunk;
    var stored := b.(flash := flash');
    assert BootSafe(stored, touched');
    var moved := stored.(ram := stored.ram.(rec := stored.ram.rec.(received := b.ram.rec.received + |data|)));
    AppendStateSafe(moved, touched', RECEIVING, 0, f.second);
    hide AppendState;
  }

  lemma DataSafe(b: Boot, touched: bool, req: Request, f: Faults)
    requires BootSafe(b, touched)
    ensures var b' := HandleData(b, req, f).0;
            && BootSafe(b', touched || Programs(b, req))
            && (!Programs(b, req) ==> b'.flash == b.flash)
            && b'.ram.deferred == b.ram.deferred
  {
    hide AcceptChunk, Forbids, CompareChunk, RangeErased;
    if b.ram.has && State(b) == RECEIVING && ValidateChunk(req.offset, |req.payload|, b.ram.rec.size).ChunkOk? &&
       req.offset == b.ram.rec.received {
      AcceptSafe(b, touched, req.payload, ValidateChunk(req.offset, |req.payload|, b.ram.rec.size).final, f);
    }
  }

  lemma VerifySafe(b: Boot, touched: bool, req: Request, f: Faults)
    requires BootSafe(b, touched)
    ensures var b' := HandleVerify(b, req, f).0;
            && BootSafe(b', touched && !VerifyPasses(b, req, f))
            && b'.flash == b.flash && b'.ram.deferred == b.ram.deferred
  {
    hide ImageCrc, Forbids, Append;
    if b.ram.has && (State(b) == RECEIVING || State(b) == VERIFYING) {
      AppendStateSafe(b, touched, VERIFYING, 0, f.first);
      var (b1, reply) := if State(b) == RECEIVING then AppendState(b, VERIFYING, 0, f.first) else (b, OK);
      if reply == OK {
        if VerifyPasses(b, req, f) {
          AppendStateSafe(b1, false, PENDING_BOOT, 0, f.second);
        } else {
          AppendStateSafe(b1, touched, FAILED, VERIFY_FAILED_CODE, f.second);
        }
      }
      hide AppendState;
    }
  }

  lemma DispatchSafe(b: Boot, touched: bool, req: Request, f: Faults)
    requires BootSafe(b, touched) && b.ram.deferred == NoAction
    ensures var b' := Dispatch(b, req, f).0;
            var passes := req.command == VerifyImage && VerifyPasses(b, req, f);
            var programs := req.command == Data && Programs(b, req);
            && BootSafe(b', (touched || programs) && !passes)
            && (!programs ==> b'.flash == b.flash)
            && (b'.ram.deferred == EraseApp ==> !passes && b'.ram.has && b'.ram.rec.state == ERASING)
  {
    match req.command {
      case Start => StartSafe(b, touched, req, f); hide HandleStart;
      case Erase => EraseSafe(b, touched, req, f); hide HandleErase;
      case Data => DataSafe(b, touched, req, f); hide HandleData, Programs;
      case VerifyImage => VerifySafe(b, touched, req, f); hide HandleVerify, VerifyPasses;
      case Abort => AppendStateSafe(b, touched, FAILED, 0, f.first); hide AppendState;
      case _ =>
    }
  }

  lemma DeferredSafe(b: Boot, touched: bool, f: Faults)
    requires BootSafe(b, touched)
    requires b.ram.deferred == EraseApp ==> b.ram.has && b.ram.rec.state == ERASING
    ensures var (b', reset) := RunDeferred(b, f);
            && BootSafe(b', touched || b.ram.deferred == EraseApp)
            && b'.ram.deferred == NoAction
            && (b.ram.deferred != EraseApp ==> b'.flash == b.flash)
  {
    if b.ram.deferred == EraseApp {
      var (flash', status) := Flash.Erase(b.flash, b.ram.rec.size, f.flash);
      var erased := b.(ram := b.ram.(deferred := NoAction), flash := flash');
      var restarted := erased.(ram := erased.ram.(rec := erased.ram.rec.(received := 0)));
      assert BootSafe(restarted, true) && BootSafe(erased, true);
      AppendStateSafe(restarted, true, RECEIVING, 0, f.second);
      AppendStateSafe(erased, true, FAILED, FLASH_ERROR_CODE, f.second);
      hide AppendState, Forbids, Flash.Erase;
    }
  }

  // ---- Boot decision ----

  lemma DecideSafe(b: Boot, start: seq<byte>, h: History, transportUp: bool, image: Image, plan: Plan)
    requires BootSafe(b, h.touched) && FlashAsChecked(b.flash, start, h)
    requires b.ram.deferred == NoAction && !b.ram.decided
    ensures Safe(Decide(b, transportUp, image, plan), start, h)
  {
    hide AppendState, Forbids, IsAppValid, FlashAsChecked, AppInit, WellFormed, Flash.IsFlash;
    var d := b.(ram := b.ram.(decided := true));
    if b.ram.has && b.ram.rec.state == PENDING_BOOT {
      AppendStateSafe(d, h.touched, FAILED, TIMEOUT_CODE, plan);
      if b.ram.rec.error < PENDING_BOOT_MAX_ATTEMPTS {
        AppendStateSafe(d, h.touched, PENDING_BOOT, b.ram.rec.error + 1, plan);
      }
    }
  }

  lemma PowerOnSafe(s: System, start: seq<byte>, h: History, transportUp: bool, image: Image, f: Faults)
    requires Safe(s, start, h) && s.mode.Off?
    ensures Safe(Start0(s, transportUp, image, f), start, h)
  {
    var b := Boot(s.log, s.flash, InitRam(s.log));
    assert BootSafe(b, h.touched);
    DecideSafe(b, start, h, transportUp, image, f.first);
    hide Decide, IsAppValid, FlashAsChecked, MetadataAllowsBoot;
  }

  // ---- Runs ----

  lemma ReceiveSafe(s: System, start: seq<byte>, h: History, e: Event)
    requires Safe(s, start, h) && Handles(s, e)
    ensures Safe(Step(s, e).0, start, HistoryAfter(h, s, e))
    ensures Step(s, e).0.flash != s.flash ==> Touches(s, e)
  {
    hide RangeErased, WellFormed, ImageCrc, Dispatch, RunDeferred, Latest;
    var b := BootOf(s).(ram := s.mode.ram.(activity := true));
    var h' := HistoryAfter(h, s, e);
    var passes := e.req.command == VerifyImage && VerifyPasses(b, e.req, e.faults);
    var programs := e.req.command == Data && Programs(b, e.req);
    assert BootSafe(b, h.touched);
    ActivityIsIrrelevant(BootOf(s), e.req, e.faults);
    DispatchSafe(b, h.touched, e.req, e.faults);
    var b1 := Dispatch(b, e.req, e.faults).0;
    var touched1 := (h.touched || programs) && !passes;
    DeferredSafe(b1, touched1, e.faults);
    hide VerifyPasses, Programs, Forbids;
    assert FlashAsChecked(Step(s, e).0.flash, start, h');
  }

  /** The activity flag a poll sets before it dispatches plays no part in the checks. */
  lemma ActivityIsIrrelevant(b: Boot, req: Request, f: Faults)
    requires IsBoot(b)
    ensures var active := b.(ram := b.ram.(activity := true));
            && VerifyPasses(active, req, f) == VerifyPasses(b, req, f)
            && Programs(active, req) == Programs(b, req)
            && (VerifyPasses(b, req, f) ==> ImageCrc(b.flash, b.ram.rec.size) == b.ram.rec.crc32)
  {
    hide Append, ImageCrc, ValidateChunk;
  }

  lemma StepSafe(s: System, start: seq<byte>, h: History, e: Event)
    requires Safe(s, start, h)
    ensures Safe(Step(s, e).0, start, HistoryAfter(h, s, e))
  {
    if Handles(s, e) {
      ReceiveSafe(s, start, h, e);
    } else {
      assert HistoryAfter(h, s, e) == h;
      match e {
        case PowerOn(transportUp, image, f) =>
          if s.mode.Off? {
            PowerOnSafe(s, start, h, transportUp, image, f);
          }
        case WindowEnds(image, f) =>
          if s.mode.Window? && !s.mode.ram.activity {
            DecideSafe(BootOf(s), start, h, true, image, f.first);
          }
        case _ =>
      }
      hide Start0, Decide, AppDispatch, ConfirmPending, FlashAsChecked;
    }
  }

  lemma {:induction false} RunSafe(s: System, start: seq<byte>, h: History, events: seq<Event>)
    requires Safe(s, start, h)
    ensures var (s', h') := Run(s, h, events); Safe(s', start, h')
    decreases |events|
  {
    if events != [] {
      StepSafe(s, start, h, events[0]);
      RunSafe(Step(s, events[0]).0, start, HistoryAfter(h, s, events[0]), events[1..]);
    }
  }

  /**
   * From any journal and any flash content: whenever the application runs, the APP flash was
   * neither erased nor programmed since the start of the run, whose bytes it then still has, or
   * since a VERIFY whose CRC-32 it then still has.
   */
  lemma BootSafety(s: System, events: seq<Event>)
    requires IsSystem(s) && s.mode.Off?
    ensures var (s', h) := Run(s, History(false, None), events);
            s'.mode.App? ==>
              && !h.touched
              && (h.check.None? ==> s'.flash == s.flash)
              && (h.check.Some? ==> h.check.value.size <= |s'.flash| &&
                                    ImageCrc(s'.flash, h.check.value.size) == h.check.value.crc32)
  {
    RunSafe(s, s.flash, History(false, None), events);
  }

  /** The history is honest: flash changes only in steps it records. */
  lemma OnlyTouchesChangeFlash(s: System, start: seq<byte>, h: History, e: Event)
    requires Safe(s, start, h)
    ensures Step(s, e).0.flash != s.flash ==> Touches(s, e)
  {
    if Handles(s, e) {
      ReceiveSafe(s, start, h, e);
    }
    hide Safe, Touches, AppDispatch, ConfirmPending, IsSystem;
  }
}
