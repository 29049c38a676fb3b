/**
 * What every reachable device state keeps: journal and RAM agree, the flash holds the
 * received bytes, the padding of a transfer is erased, and a record that calls an image
 * verified is vouched for by the CRC of what the flash holds now.
 */
module Soundness {
  import opened Types
  import opened Messages
  import opened MetadataLog
  import opened Device
  import opened BootSafety
  import opened DataPrefix
  import opened Link
  import opened Padding
  import TrialBoots
  import Flash = FlashImage

  predicate CallsVerified(r: Record) { r.state == PENDING_BOOT || r.state == CONFIRMED }

  predicate CrcHolds(flash: seq<byte>, r: Record)
    requires Flash.IsFlash(flash)
  {
    r.size <= APP_MAX_SIZE && ImageCrc(flash, r.size) == r.crc32
  }

  ghost predicate Vouched(log: Log, flash: seq<byte>) {
    && Flash.IsFlash(flash)
    && (Latest(log).Some? && CallsVerified(Latest(log).value) ==> CrcHolds(flash, Latest(log).value))
  }

  ghost predicate RamVouched(b: Boot)
    requires IsBoot(b)
  {
    b.ram.has && CallsVerified(b.ram.rec) ==> CrcHolds(b.flash, b.ram.rec)
  }

  ghost predicate SoundBoot(b: Boot) {
    IsBoot(b) && Synced(b.log, b.ram) && Padded(b.log, b.flash) && Vouched(b.log, b.flash) && RamVouched(b)
  }

  ghost predicate Sound(s: System) {
    && IsSystem(s) && Kept(s) <= |s.flash|
    && Prefixed(s, s.flash[..Kept(s)])
    && Padded(s.log, s.flash) && Vouched(s.log, s.flash)
    && (s.mode.Window? || s.mode.Service? || s.mode.Silent? ==> RamVouched(BootOf(s)))
  }

  // ---- Vouching, handler by handler ----

  lemma AppendStateVouched(b: Boot, state: u16, error: u32, plan: Plan)
    requires IsBoot(b) && Vouched(b.log, b.flash) && RamVouched(b)
    requires state == PENDING_BOOT || state == CONFIRMED ==> b.ram.has && CrcHolds(b.flash, b.ram.rec)
    ensures var b' := AppendState(b, state, error, plan).0; Vouched(b'.log, b'.flash) && RamVouched(b')
  {
    hide ImageCrc, CrcHolds;
    var current := if b.ram.has then b.ram.rec else InitRecord(state);
    var desired := current.(state := state, error := error);
    TrialBoots.AppendLatest(b.log, desired, plan);
    assert CrcHolds(b.flash, b.ram.rec) ==>
             forall r: Record | r.size == b.ram.rec.size && r.crc32 == b.ram.rec.crc32 :: CrcHolds(b.flash, r)
    by { CrcOfFields(b.flash, b.ram.rec); }
    hide Append, Latest, WellFormed;
  }

  lemma CrcOfFields(flash: seq<byte>, r: Record)
    requires Flash.IsFlash(flash)
    ensures CrcHolds(flash, r) ==>
              forall r': Record | r'.size == r.size && r'.crc32 == r.crc32 :: CrcHolds(flash, r')
  {
    hide ImageCrc;
  }

  lemma StartVouched(b: Boot, req: Request, f: Faults)
    requires IsBoot(b) && Vouched(b.log, b.flash) && RamVouched(b)
    ensures var h := HandleStart(b, req, f); Vouched(h.b.log, h.b.flash) && RamVouched(h.b)
  {
    hide DecodeManifest, ManifestMatches, CrcHolds;
    if StartRefusal(req) == OK && !InSession(State(b)) {
      var m := DecodeManifest(req.payload).value;
      var log1 := CompactIfNeeded(b.log, RequiredRecords(m.size), f.first).0;
      TrialBoots.CompactLatest(b.log, RequiredRecords(m.size), f.first);
      TrialBoots.AppendLatest(log1, StartRecord(req.session, m), f.second);
      hide CompactIfNeeded, Append, Latest, WellFormed;
    }
  }

  /** While an update is in progress nothing vouches for the flash, so it may change. */
  lemma DataVouched(b: Boot, req: Request, f: Faults)
    requires IsBoot(b) && Synced(b.log, b.ram) && Vouched(b.log, b.flash) && RamVouched(b)
    ensures var b' := HandleData(b, req, f).0; Vouched(b'.log, b'.flash) && RamVouched(b')
  {
    hide StoreChunk, CompareChunk, AppendState, WellFormed, Latest, CrcHolds, IsCheckpoint;
    if b.ram.has && State(b) == RECEIVING && req.offset == b.ram.rec.received {
      var check := ValidateChunk(req.offset, |req.payload|, b.ram.rec.size);
      if check.ChunkOk? {
        var r := b.ram.rec;
        var flash' := StoreChunk(b.flash, r.received, req.payload, check.final, f.flash).0;
        var moved := b.(flash := flash', ram := b.ram.(rec := r.(received := r.received + |req.payload|)));
        AppendStateVouched(moved, RECEIVING, 0, f.second);
      }
    }
    hide Synced, ValidateChunk;
  }

  lemma VerifyVouched(b: Boot, req: Request, f: Faults)
    requires IsBoot(b) && Vouched(b.log, b.flash) && RamVouched(b)
    ensures var b' := HandleVerify(b, req, f).0; Vouched(b'.log, b'.flash) && RamVouched(b')
  {
    hide ImageCrc, Latest, WellFormed;
    AppendStateVouched(b, VERIFYING, 0, f.first);
    var b1 := if State(b) == RECEIVING then AppendState(b, VERIFYING, 0, f.first).0 else b;
    if b1.ram.has && ImageCrc(b1.flash, b1.ram.rec.size) == b1.ram.rec.crc32 {
      AppendStateVouched(b1, PENDING_BOOT, 0, f.second);
    }
    AppendStateVouched(b1, FAILED, VERIFY_FAILED_CODE, f.second);
    if b.ram.has {
      AppendKeepsHas(b, VERIFYING, 0, f.first);
    }
    hide AppendState, Vouched;
  }

  lemma AppendKeepsHas(b: Boot, state: u16, error: u32, plan: Plan)
    requires IsBoot(b) && b.ram.has
    ensures AppendState(b, state, error, plan).0.ram.has
  {
    hide Append, WellFormed;
  }

  lemma DispatchSound(b: Boot, acc: seq<byte>, req: Request, f: Faults)
    requires SoundBoot(b) && Tracked(b, acc) && Relocks(f) && b.ram.deferred == NoAction
    ensures SoundBoot(Dispatch(b, req, f).0)
  {
    hide Synced, Padded, CrcHolds, WellFormed, Latest;
    DispatchSynced(b, acc, req, f);
    DispatchKeepsPadding(b, req, f);
    match req.command {
      case Start => StartVouched(b, req, f); hide HandleStart;
      case Erase => AppendStateVouched(b, ERASING, 0, f.first); hide AppendState;
      case Data => DataVouched(b, req, f); hide HandleData;
      case VerifyImage => VerifyVouched(b, req, f); hide HandleVerify;
      case Abort => AppendStateVouched(b, FAILED, 0, f.first); hide AppendState;
      case _ =>
    }
  }

  lemma DeferredSound(b: Boot, acc: seq<byte>, f: Faults)
    requires SoundBoot(b) && Tracked(b, acc) && Relocks(f)
    requires b.ram.deferred == EraseApp ==> b.ram.has && State(b) == ERASING
    ensures SoundBoot(RunDeferred(b, f).0)
  {
    hide Latest, WellFormed, AppendState, CrcHolds, Padded;
    DeferredSynced(b, acc, f);
    DeferredKeepsPadding(b, f);
    if b.ram.deferred == EraseApp {
      var flash' := Flash.Erase(b.flash, b.ram.rec.size, f.flash).0;
      var erased := b.(ram := b.ram.(deferred := NoAction), flash := flash');
      AppendStateVouched(erased.(ram := erased.ram.(rec := erased.ram.rec.(received := 0))), RECEIVING, 0, f.second);
      AppendStateVouched(erased, FAILED, FLASH_ERROR_CODE, f.second);
      hide Flash.Erase;
    }
  }

  lemma FlagsKeepSound(b: Boot, activity: bool, deferred: Deferred)
    requires SoundBoot(b)
    ensures SoundBoot(b.(ram := b.ram.(activity := activity, deferred := deferred)))
  {
    hide Latest, WellFormed, CrcHolds, PadOf;
  }

  // ---- Steps ----

  lemma ReceiveSound(s: System, acc: seq<byte>, e: Event)
    requires Sound(s) && Prefixed(s, acc) && Handles(s, e) && Relocks(e.faults)
    ensures var s' := Step(s, e).0;
            && Padded(s'.log, s'.flash) && Vouched(s'.log, s'.flash)
            && (s'.mode.Service? ==> RamVouched(BootOf(s')))
  {
    hide Holds, WellFormed, Dispatch, RunDeferred, Latest, CrcHolds, PadOf;
    assert SoundBoot(BootOf(s));
    hide Padded, Vouched, Synced;
    var b := BootOf(s).(ram := s.mode.ram.(activity := true));
    FlagsKeepSound(BootOf(s), true, NoAction);
    FlagsKeepSync(BootOf(s), acc, true, NoAction);
    DispatchSound(b, acc, e.req, e.faults);
    DispatchSynced(b, acc, e.req, e.faults);
    var b1 := Dispatch(b, e.req, e.faults).0;
    if e.sent {
      DeferredSound(b1, AfterDispatch(acc, b, e.req, e.faults), e.faults);
    } else {
      FlagsKeepSound(b1, b1.ram.activity, NoAction);
    }
    hide RamVouched;
  }

  lemma DecideSound(b: Boot, transportUp: bool, image: Image, plan: Plan)
    requires IsBoot(b) && Padded(b.log, b.flash) && Vouched(b.log, b.flash) && RamVouched(b)
    ensures var s' := Decide(b, transportUp, image, plan);
            && Padded(s'.log, s'.flash) && Vouched(s'.log, s'.flash)
            && (s'.mode.Service? || s'.mode.Silent? ==> RamVouched(BootOf(s')))
  {
    hide Append, IsAppValid, AppInit, AppendState, WellFormed, PadOf, CrcHolds;
    var d := b.(ram := b.ram.(decided := true));
    if State(b) == PENDING_BOOT {
      AppendStateVouched(d, FAILED, TIMEOUT_CODE, plan);
      OtherStateKeepsPadding(d, FAILED, TIMEOUT_CODE, plan);
      if b.ram.rec.error < PENDING_BOOT_MAX_ATTEMPTS {
        AppendStateVouched(d, PENDING_BOOT, b.ram.rec.error + 1, plan);
        OtherStateKeepsPadding(d, PENDING_BOOT, b.ram.rec.error + 1, plan);
      }
    }
    hide Latest, Padded, Vouched;
  }

  lemma PowerOnSound(s: System, transportUp: bool, image: Image, f: Faults)
    requires Sound(s) && s.mode.Off?
    ensures var s' := Start0(s, transportUp, image, f);
            && Padded(s'.log, s'.flash) && Vouched(s'.log, s'.flash)
            && (s'.mode.Window? || s'.mode.Service? || s'.mode.Silent? ==> RamVouched(BootOf(s')))
  {
    hide PadOf, CrcHolds, IsAppValid, WellFormed, HasUsed;
    var b := Boot(s.log, s.flash, InitRam(s.log));
    assert RamVouched(b);
    DecideSound(b, transportUp, image, f.first);
    hide Decide, Latest;
  }

  lemma AppSound(s: System, e: Event)
    requires Sound(s) && s.mode.App? && EventRelocks(e)
    ensures var s' := Step(s, e).0; Padded(s'.log, s'.flash) && Vouched(s'.log, s'.flash)
  {
    hide PadOf, CrcHolds, HasUsed;
    match e {
      case Receive(req, sent, f) => EnterBootSound(s.log, s.flash, req, f); hide AppEnterBoot;
      case ConfirmDelay(f) => ConfirmSound(s.log, s.flash, s.mode.version, f.first); hide ConfirmPending;
      case _ =>
    }
    hide Latest, WellFormed, Padded, Vouched;
  }

  lemma EnterBootSound(log: Log, flash: seq<byte>, req: Request, f: Faults)
    requires WellFormed(log) && Padded(log, flash) && Vouched(log, flash)
    ensures var log' := AppEnterBoot(log, req, f).0; Padded(log', flash) && Vouched(log', flash)
  {
    hide PadOf, CrcHolds;
    var log1 := CompactIfNeeded(log, APP_MAX_REQUIRED_RECORDS, f.first).0;
    TrialBoots.CompactLatest(log, APP_MAX_REQUIRED_RECORDS, f.first);
    TrialBoots.AppendLatest(log1, InitRecord(UPDATE_REQUESTED).(session := req.session), f.second);
    hide CompactIfNeeded, Append, Latest, WellFormed, HasUsed;
  }

  lemma ConfirmSound(log: Log, flash: seq<byte>, version: u32, plan: Plan)
    requires WellFormed(log) && Padded(log, flash) && Vouched(log, flash)
    ensures var log' := ConfirmPending(log, version, plan).0; Padded(log', flash) && Vouched(log', flash)
  {
    hide PadOf, ImageCrc, HasUsed;
    if Latest(log).Some? {
      TrialBoots.AppendLatest(log, Latest(log).value.(state := CONFIRMED, error := 0), plan);
    }
    hide Append, Latest, WellFormed;
  }

  /** The accepted bytes of a state are determined by the state. */
  lemma PrefixIsFlash(s: System, acc: seq<byte>)
    requires Prefixed(s, acc)
    ensures |acc| == Kept(s) <= |s.flash| && acc == s.flash[..Kept(s)]
  {
    hide Synced, Latest, WellFormed;
  }

  lemma StepSound(s: System, e: Event)
    requires Sound(s) && EventRelocks(e)
    ensures Sound(Step(s, e).0)
  {
    hide AcceptedAfter, Prefixed, PadOf, CrcHolds, WellFormed, Latest;
    var acc := s.flash[..Kept(s)];
    StepPrefixed(s, acc, e);
    PrefixIsFlash(Step(s, e).0, AcceptedAfter(acc, s, e));
    hide Kept;
    if Handles(s, e) {
      ReceiveSound(s, acc, e);
    } else if s.mode.App? {
      AppSound(s, e);
    } else {
      match e {
        case PowerOn(transportUp, image, f) =>
          if s.mode.Off? {
            PowerOnSound(s, transportUp, image, f);
          }
        case WindowEnds(image, f) =>
          if s.mode.Window? && !s.mode.ram.activity {
            DecideSound(BootOf(s), true, image, f.first);
          }
        case _ =>
      }
    }
    hide Start0, Decide, Latest, Padded, Vouched, AppDispatch, BootReceive, ConfirmPending;
  }

  /** Every state reached from a sound one is sound. */
  lemma {:induction false} RunSound(s: System, events: seq<Event>)
    requires Sound(s)
    requires forall i | 0 <= i < |events| :: EventRelocks(events[i])
    ensures Sound(Steps(s, events))
    decreases |events|
  {
    hide Step, Prefixed, Padded, Vouched, RamVouched;
    if events != [] {
      StepSound(s, events[0]);
      RunSound(Step(s, events[0]).0, events[1..]);
    }
  }

  /** A device whose journal claims no transfer and no verified image starts out sound. */
  lemma FreshIsSound(s: System)
    requires IsSystem(s) && s.mode.Off?
    requires Latest(s.log).Some? ==>
               Shaped(Latest(s.log).value) && Latest(s.log).value.state != RECEIVING && !CallsVerified(Latest(s.log).value)
    ensures Sound(s)
  {
    DurableFits(s);
    hide Latest, WellFormed, ImageCrc;
  }
}
