/**
 * Whose update it is: from the START that was answered OK on, every record and the RAM carry
 * the session and manifest of that START, until another START, ENTER_BOOT or ABORT.
 */
module Journey {
  import opened Types
  import opened Messages
  import opened MetadataLog
  import opened Device
  import opened BootSafety
  import opened DataPrefix
  import opened Link
  import opened Soundness
  import opened Transfer
  import TrialBoots
  import Flash = FlashImage

  datatype Identity = Identity(session: u32, version: u32, size: u32, crc32: u32, sha: Digest)

  function IdOf(r: Record): Identity { Identity(r.session, r.version, r.size, r.crc32, r.sha) }

  function IdOfStart(session: u32, m: Manifest): Identity {
    Identity(session, m.version, m.size, m.crc32, m.sha)
  }

  ghost predicate LogCarries(log: Log, id: Identity) {
    Latest(log).Some? ==> IdOf(Latest(log).value) == id
  }

  /** RAM and journal carry the identity, and a confirmed state in RAM is the journal's. */
  ghost predicate BootCarries(b: Boot, id: Identity) {
    && LogCarries(b.log, id)
    && (b.ram.has ==> IdOf(b.ram.rec) == id && (b.ram.rec.state == CONFIRMED ==> Latest(b.log) == Some(b.ram.rec)))
  }

  ghost predicate Carries(s: System, id: Identity) {
    && LogCarries(s.log, id)
    && (s.mode.Window? || s.mode.Service? || s.mode.Silent? ==> BootCarries(BootOf(s), id))
  }

  /** Requests that cannot change whose update it is. */
  predicate Follows(e: Event) {
    e.Receive? ==> e.req.command != Start && e.req.command != EnterBoot && e.req.command != Abort
  }

  // ---- Handlers ----

  lemma AppendStateCarries(b: Boot, state: u16, error: u32, plan: Plan, id: Identity)
    requires IsBoot(b) && BootCarries(b, id) && b.ram.has && b.ram.rec.state != CONFIRMED && state != CONFIRMED
    ensures var b' := AppendState(b, state, error, plan).0;
            BootCarries(b', id) && b'.ram.has && b'.ram.rec.state != CONFIRMED && b'.ram.deferred == b.ram.deferred
  {
    TrialBoots.AppendLatest(b.log, b.ram.rec.(state := state, error := error), plan);
    hide Append, Latest, WellFormed;
  }

  lemma AcceptCarries(b: Boot, data: Payload, final: bool, f: Faults, id: Identity)
    requires IsBoot(b) && BootCarries(b, id) && b.ram.has && State(b) == RECEIVING
    requires b.ram.rec.received + |data| <= APP_MAX_SIZE
    ensures BootCarries(AcceptChunk(b, data, final, f).0, id)
  {
    hide StoreChunk, AppendState, IsCheckpoint, Latest, WellFormed;
    var r := b.ram.rec;
    var flash' := StoreChunk(b.flash, r.received, data, final, f.flash).0;
    var moved := b.(flash := flash', ram := b.ram.(rec := r.(received := r.received + |data|)));
    AppendStateCarries(moved, RECEIVING, 0, f.second, id);
  }

  lemma DataCarries(b: Boot, req: Request, f: Faults, id: Identity)
    requires IsBoot(b) && BootCarries(b, id)
    ensures BootCarries(HandleData(b, req, f).0, id)
    ensures HandleData(b, req, f).0.ram.deferred == b.ram.deferred
  {
    DataKeepsFlags(b, req, f);
    hide AcceptChunk, CompareChunk, BootCarries, WellFormed;
    if b.ram.has && State(b) == RECEIVING && req.offset == b.ram.rec.received {
      var check := ValidateChunk(req.offset, |req.payload|, b.ram.rec.size);
      if check.ChunkOk? {
        AcceptCarries(b, req.payload, check.final, f, id);
      }
    }
  }

  lemma VerifyCarries(b: Boot, req: Request, f: Faults, id: Identity)
    requires IsBoot(b) && BootCarries(b, id)
    ensures BootCarries(HandleVerify(b, req, f).0, id)
    ensures HandleVerify(b, req, f).0.ram.deferred == b.ram.deferred
  {
    hide ImageCrc, Latest, WellFormed, AppendState;
    if b.ram.has && (State(b) == RECEIVING || State(b) == VERIFYING) {
      AppendStateCarries(b, VERIFYING, 0, f.first, id);
      var b1 := if State(b) == RECEIVING then AppendState(b, VERIFYING, 0, f.first).0 else b;
      AppendStateCarries(b1, PENDING_BOOT, 0, f.second, id);
      AppendStateCarries(b1, FAILED, VERIFY_FAILED_CODE, f.second, id);
    }
    hide BootCarries;
  }

  lemma DispatchCarries(b: Boot, req: Request, f: Faults, id: Identity)
    requires IsBoot(b) && BootCarries(b, id) && b.ram.deferred == NoAction
    requires req.command != Start && req.command != Abort
    ensures var b' := Dispatch(b, req, f).0;
            && BootCarries(b', id)
            && (b'.ram.deferred == EraseApp ==> b'.ram.has && b'.ram.rec.state != CONFIRMED)
  {
    hide Latest, WellFormed;
    match req.command {
      case Erase =>
        if b.ram.has && State(b) == UPDATE_REQUESTED {
          AppendStateCarries(b, ERASING, 0, f.first, id);
        }
        hide AppendState;
      case Data => DataCarries(b, req, f, id); hide HandleData;
      case VerifyImage => VerifyCarries(b, req, f, id); hide HandleVerify;
      case _ =>
    }
  }

  lemma DeferredCarries(b: Boot, f: Faults, id: Identity)
    requires IsBoot(b) && BootCarries(b, id)
    requires b.ram.deferred == EraseApp ==> b.ram.has && b.ram.rec.state != CONFIRMED
    ensures BootCarries(RunDeferred(b, f).0, id)
  {
    hide Latest, WellFormed, AppendState, Flash.Erase;
    if b.ram.deferred == EraseApp {
      var flash' := Flash.Erase(b.flash, b.ram.rec.size, f.flash).0;
      var erased := b.(ram := b.ram.(deferred := NoAction), flash := flash');
      AppendStateCarries(erased.(ram := erased.ram.(rec := erased.ram.rec.(received := 0))), RECEIVING, 0, f.second, id);
      AppendStateCarries(erased, FAILED, FLASH_ERROR_CODE, f.second, id);
    }
  }

  lemma DecideCarries(b: Boot, transportUp: bool, image: Image, plan: Plan, id: Identity)
    requires IsBoot(b) && BootCarries(b, id)
    ensures Carries(Decide(b, transportUp, image, plan), id)
  {
    hide Append, IsAppValid, AppInit, AppendState, WellFormed;
    var d := b.(ram := b.ram.(decided := true));
    if b.ram.has && State(b) == PENDING_BOOT {
      AppendStateCarries(d, FAILED, TIMEOUT_CODE, plan, id);
      if b.ram.rec.error < PENDING_BOOT_MAX_ATTEMPTS {
        AppendStateCarries(d, PENDING_BOOT, b.ram.rec.error + 1, plan, id);
      }
    }
    hide Latest;
  }

  lemma ConfirmCarries(log: Log, version: u32, plan: Plan, id: Identity)
    requires WellFormed(log) && LogCarries(log, id)
    ensures LogCarries(ConfirmPending(log, version, plan).0, id)
  {
    hide HasUsed;
    if Latest(log).Some? {
      TrialBoots.AppendLatest(log, Latest(log).value.(state := CONFIRMED, error := 0), plan);
    }
    hide Append, Latest, WellFormed;
  }

  // ---- Steps ----

  lemma ReceiveCarries(s: System, e: Event, id: Identity)
    requires Sound(s) && Carries(s, id) && Handles(s, e) && Follows(e)
    ensures Carries(Step(s, e).0, id)
  {
    hide Latest, WellFormed, Dispatch, RunDeferred, Vouched, RamVouched, Holds, Synced;
    var b := BootOf(s).(ram := s.mode.ram.(activity := true));
    assert BootCarries(b, id);
    DispatchCarries(b, e.req, e.faults, id);
    var b1 := Dispatch(b, e.req, e.faults).0;
    DeferredCarries(b1, e.faults, id);
  }

  lemma StepCarries(s: System, e: Event, id: Identity)
    requires Sound(s) && Carries(s, id) && Follows(e)
    ensures Carries(Step(s, e).0, id)
  {
    if Handles(s, e) {
      ReceiveCarries(s, e, id);
    } else {
      assert IsSystem(s);
      match e {
        case PowerOn(transportUp, image, f) =>
          if s.mode.Off? {
            InitCarries(s, id);
            DecideCarries(Boot(s.log, s.flash, InitRam(s.log)), transportUp, image, f.first, id);
          }
        case WindowEnds(image, f) =>
          if s.mode.Window? && !s.mode.ram.activity {
            DecideCarries(BootOf(s), true, image, f.first, id);
          }
        case ConfirmDelay(f) =>
          if s.mode.App? {
            ConfirmCarries(s.log, s.mode.version, f.first, id);
          }
        case _ =>
      }
      hide Sound, Latest, WellFormed, Decide, ConfirmPending, AppEnterBoot, HasUsed, IsAppValid, InitRam;
    }
  }

  lemma InitCarries(s: System, id: Identity)
    requires IsSystem(s) && Carries(s, id)
    ensures BootCarries(Boot(s.log, s.flash, InitRam(s.log)), id)
  {
    hide Latest, WellFormed, HasUsed;
  }

  // ---- START ----

  /** A START answered OK made the update its own, in RAM and in the journal. */
  lemma StartCarries(b: Boot, req: Request, f: Faults)
    requires IsBoot(b) && Synced(b.log, b.ram) && Relocks(f)
    requires HandleStart(b, req, f).reply == OK
    ensures DecodeManifest(req.payload).Some?
    ensures BootCarries(HandleStart(b, req, f).b, IdOfStart(req.session, DecodeManifest(req.payload).value))
  {
    hide DecodeManifest;
    var m := DecodeManifest(req.payload).value;
    if !InSession(State(b)) {
      var log1 := CompactIfNeeded(b.log, RequiredRecords(m.size), f.first).0;
      AppendSteady(log1, StartRecord(req.session, m), f.second);
    }
    hide CompactIfNeeded, Append, Latest, WellFormed, RequiredRecords;
  }

  lemma StartStepCarries(s: System, req: Request, f: Faults)
    requires Sound(s) && req.command == Start && Relocks(f)
    ensures var (s', response) := Step(s, Receive(req, true, f));
            response.Some? && response.value.reply == OK ==>
              && DecodeManifest(req.payload).Some?
              && Carries(s', IdOfStart(req.session, DecodeManifest(req.payload).value))
  {
    hide DecodeManifest, HandleStart, Latest, WellFormed, Vouched, RamVouched, Holds;
    if s.mode.Window? || s.mode.Service? {
      var b := BootOf(s).(ram := s.mode.ram.(activity := true));
      FlagsKeepSync(BootOf(s), s.flash[..Kept(s)], true, NoAction);
      StartKeepsFlags(b, req, f);
      if HandleStart(b, req, f).reply == OK {
        StartCarries(b, req, f);
      }
    }
    hide Synced, AppEnterBoot;
  }

  // ---- GET_INFO ----

  /** The update with this identity is confirmed, and the flash holds an image with its CRC. */
  ghost predicate Confirmed(s: System, id: Identity) {
    && Latest(s.log).Some?
    && Latest(s.log).value.state == CONFIRMED && IdOf(Latest(s.log).value) == id
    && Flash.IsFlash(s.flash) && CrcHolds(s.flash, Latest(s.log).value)
  }

  /** A device that reports CONFIRMED, bootloader or application, has confirmed this update. */
  lemma InfoTellsTheTruth(s: System, id: Identity, req: Request, f: Faults)
    requires Sound(s) && Carries(s, id) && req.command == GetInfo
    ensures var (s', response) := Step(s, Receive(req, true, f));
            response.Some? && response.value.body.InfoBody? && response.value.body.state == CONFIRMED ==> Confirmed(s', id)
  {
    hide Latest, WellFormed, CrcHolds, Holds, Synced;
  }

  // ---- Transactions ----

  ghost predicate OnJourney(s: System, id: Identity) { Sound(s) && Carries(s, id) }

  lemma SoundIsInvariant()
    ensures Invariant(s => Sound(s), e => EventRelocks(e))
  {
    hide Step, EventRelocks;
    forall s: System, e: Event | Sound(s) && EventRelocks(e)
      ensures IsSystem(s) && Sound(Step(s, e).0)
    {
      StepSound(s, e);
    }
    hide Sound;
  }

  lemma JourneyIsInvariant(id: Identity)
    ensures Invariant(s => OnJourney(s, id), e => EventRelocks(e) && Follows(e))
  {
    hide Step, EventRelocks, Follows, Carries;
    forall s: System, e: Event | OnJourney(s, id) && EventRelocks(e) && Follows(e)
      ensures IsSystem(s) && OnJourney(Step(s, e).0, id)
    {
      StepSound(s, e);
      StepCarries(s, e, id);
    }
    forall s: System | OnJourney(s, id)
      ensures IsSystem(s)
    {
    }
    hide OnJourney;
  }

  lemma FatesAreSound(req: Request, fates: nat -> Fate)
    requires AllRelock(fates)
    ensures forall n: nat :: Allows(e => EventRelocks(e), req, fates(n))
  {
    forall n: nat
      ensures Allows(e => EventRelocks(e), req, fates(n))
    {
      assert RelockedFate(fates(n));
    }
  }

  lemma FatesFollow(req: Request, fates: nat -> Fate)
    requires AllRelock(fates) && Follows(Receive(req, true, NONE_FAIL))
    ensures forall n: nat :: Allows(e => EventRelocks(e) && Follows(e), req, fates(n))
  {
    forall n: nat
      ensures Allows(e => EventRelocks(e) && Follows(e), req, fates(n))
    {
      assert RelockedFate(fates(n));
    }
  }

  /** Any transaction leaves the device sound; a START answered OK puts it on its journey. */
  lemma StartTransaction(s: System, req: Request, fates: nat -> Fate, clock: nat, attempts: nat)
    requires Sound(s) && AllRelock(fates) && req.command == Start
    ensures var (s', _, result) := Attempts(s, req, fates, clock, attempts, TimedOut);
            && Sound(s')
            && (result.Got? && result.response.reply == OK ==>
                  DecodeManifest(req.payload).Some? &&
                  OnJourney(s', IdOfStart(req.session, DecodeManifest(req.payload).value)))
  {
    hide Step, Sound, Attempts, EventRelocks, Allows, Relocks;
    var inv: System -> bool := s => Sound(s);
    var allowed: Event -> bool := e => EventRelocks(e);
    SoundIsInvariant();
    FatesAreSound(req, fates);
    AttemptsKeep(inv, allowed, s, req, fates, clock, attempts, TimedOut);
    var ready, n := AnswerIsGenuine(inv, allowed, s, req, fates, clock, attempts, TimedOut);
    var (s', _, result) := Attempts(s, req, fates, clock, attempts, TimedOut);
    if result.Got? {
      assert RelockedFate(fates(n));
      StartStepCarries(ready, req, fates(n).faults);
    }
    hide Carries, DecodeManifest;
  }

  lemma AnyTransaction(s: System, req: Request, fates: nat -> Fate, clock: nat, attempts: nat)
    requires Sound(s) && AllRelock(fates)
    ensures Sound(Attempts(s, req, fates, clock, attempts, TimedOut).0)
  {
    hide Step, Sound, Attempts, EventRelocks, Allows;
    SoundIsInvariant();
    FatesAreSound(req, fates);
    AttemptsKeep(s => Sound(s), e => EventRelocks(e), s, req, fates, clock, attempts, TimedOut);
  }

  predicate SaysBootloader(result: Result) {
    result.Got? && result.response.body.HelloBody? && result.response.body.bootloader
  }

  /** Only a bootloader answers HELLO as one, and it then stays in service. */
  lemma HelloStep(s: System, req: Request, f: Faults)
    requires Sound(s) && req.command == Hello
    ensures IsSystem(s)
    ensures var (s', response) := Step(s, Receive(req, true, f));
            response.Some? && response.value.body.HelloBody? && response.value.body.bootloader ==> s'.mode.Service?
  {
    hide WellFormed, Latest, Holds, Synced, AppEnterBoot, CrcHolds;
  }

  lemma HelloTransaction(s: System, req: Request, fates: nat -> Fate, clock: nat, attempts: nat)
    requires Sound(s) && AllRelock(fates) && req.command == Hello
    ensures IsSystem(s)
    ensures var (s', _, result) := Attempts(s, req, fates, clock, attempts, TimedOut);
            SaysBootloader(result) ==> s'.mode.Service?
  {
    hide Step, Sound, Attempts, EventRelocks, Allows;
    SoundIsInvariant();
    FatesAreSound(req, fates);
    var ready, n := AnswerIsGenuine(s => Sound(s), e => EventRelocks(e), s, req, fates, clock, attempts, TimedOut);
    var (_, _, result) := Attempts(s, req, fates, clock, attempts, TimedOut);
    if result.Got? {
      HelloStep(ready, req, fates(n).faults);
    }
  }

  /** Every device that answers GET_INFO names this product, this hardware and this partition size. */
  predicate TellsKind(result: Result) {
    result.Got? && result.response.body.InfoBody? ==>
      var body := result.response.body;
      body.product == PRODUCT_ID && body.hardware == HARDWARE_ID && body.maxSize == APP_MAX_SIZE
  }

  lemma InfoStep(s: System, req: Request, f: Faults)
    requires IsSystem(s) && req.command == GetInfo
    ensures var response := Step(s, Receive(req, true, f)).1;
            response.Some? ==> TellsKind(Got(response.value))
  {
    hide WellFormed, Latest, AppEnterBoot, RunDeferred;
  }

  lemma InfoTransaction(s: System, req: Request, fates: nat -> Fate, clock: nat, attempts: nat)
    requires Sound(s) && AllRelock(fates) && req.command == GetInfo
    ensures IsSystem(s)
    ensures TellsKind(Attempts(s, req, fates, clock, attempts, TimedOut).2)
  {
    hide Step, Sound, Attempts, EventRelocks, Allows, TellsKind;
    SoundIsInvariant();
    FatesAreSound(req, fates);
    var ready, n := AnswerIsGenuine(s => Sound(s), e => EventRelocks(e), s, req, fates, clock, attempts, TimedOut);
    var (_, _, result) := Attempts(s, req, fates, clock, attempts, TimedOut);
    if result.Got? {
      InfoStep(ready, req, fates(n).faults);
    } else {
      NothingTold(result);
    }
  }

  lemma NothingTold(result: Result)
    requires result.Error?
    ensures TellsKind(result)
  {
  }

  predicate SaysConfirmed(result: Result) {
    result.Got? && result.response.body.InfoBody? && result.response.body.state == CONFIRMED
  }

  /** Every other transaction of the upgrade task keeps the device on the journey; GET_INFO tells how far it came. */
  lemma JourneyTransaction(s: System, id: Identity, req: Request, fates: nat -> Fate, clock: nat, attempts: nat)
    requires OnJourney(s, id) && AllRelock(fates) && Follows(Receive(req, true, NONE_FAIL))
    ensures var (s', _, result) := Attempts(s, req, fates, clock, attempts, TimedOut);
            && OnJourney(s', id)
            && (req.command == GetInfo && SaysConfirmed(result) ==> Confirmed(s', id))
  {
    hide Step, Sound, Attempts, EventRelocks, Allows, Carries;
    var inv: System -> bool := s => OnJourney(s, id);
    var allowed: Event -> bool := e => EventRelocks(e) && Follows(e);
    JourneyIsInvariant(id);
    FatesFollow(req, fates);
    AttemptsKeep(inv, allowed, s, req, fates, clock, attempts, TimedOut);
    var ready, n := AnswerIsGenuine(inv, allowed, s, req, fates, clock, attempts, TimedOut);
    var (s', _, result) := Attempts(s, req, fates, clock, attempts, TimedOut);
    if result.Got? && req.command == GetInfo {
      InfoTellsTheTruth(ready, id, req, fates(n).faults);
    }
    hide Confirmed;
  }
}
