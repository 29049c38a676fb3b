/**
 * Exactly when a reset ends in the application, and exactly when the started application
 * confirms itself.
 */
module BootDecision {
  import opened Types
  import opened Messages
  import opened MetadataLog
  import opened Device
  import opened JournalRoom
  import Flash = FlashImage

  // ---- The vectors ----

  /**
   * The first eight bytes of an image that can start: a stack pointer in the 128 KiB from 0x20000000
   * or the 64 KiB from 0x10000000 on, their ends included, in steps of eight bytes, and a Thumb
   * entry point inside the partition from 0x08020000 to 0x080FFFFF.
   */
  predicate Startable(v: seq<byte>)
    requires |v| >= 8
  {
    && v[0] % 8 == 0
    && (|| (v[3] == 0x20 && (v[2] < 2 || (v[2] == 2 && v[1] == 0 && v[0] == 0)))
        || (v[3] == 0x10 && (v[2] < 1 || (v[2] == 1 && v[1] == 0 && v[0] == 0))))
    && v[4] % 2 == 1 && v[7] == 0x08 && 0x02 <= v[6] <= 0x0F
  }

  lemma VectorsOfImage(flash: seq<byte>)
    requires Flash.IsFlash(flash)
    ensures IsAppValid(flash) <==> Startable(flash[..8])
  {
    var v := flash[..8];
    StackPointerBytes(v[0], v[1], v[2], v[3]);
    EntryBytes(v[4], v[5], v[6], v[7]);
  }

  lemma StackPointerBytes(b0: byte, b1: byte, b2: byte, b3: byte)
    ensures var sp := b0 + 0x100 * b1 + 0x1_0000 * b2 + 0x100_0000 * b3;
            && sp % 8 == b0 % 8
            && (0x2000_0000 <= sp <= 0x2002_0000 <==> b3 == 0x20 && (b2 < 2 || (b2 == 2 && b1 == 0 && b0 == 0)))
            && (0x1000_0000 <= sp <= 0x1001_0000 <==> b3 == 0x10 && (b2 < 1 || (b2 == 1 && b1 == 0 && b0 == 0)))
  {
    assert b0 + 0x100 * b1 + 0x1_0000 * b2 + 0x100_0000 * b3 == b0 + 8 * (0x20 * b1 + 0x2000 * b2 + 0x20_0000 * b3);
  }

  lemma EntryBytes(b4: byte, b5: byte, b6: byte, b7: byte)
    ensures var reset := b4 + 0x100 * b5 + 0x1_0000 * b6 + 0x100_0000 * b7;
            && reset % 2 == b4 % 2
            && (reset % 2 == 1 ==> (0x0802_0000 <= reset - 1 < 0x0810_0000 <==> b7 == 0x08 && 0x02 <= b6 <= 0x0F))
  {
    assert b4 + 0x100 * b5 + 0x1_0000 * b6 + 0x100_0000 * b7 == b4 + 2 * (0x80 * b5 + 0x8000 * b6 + 0x80_0000 * b7);
  }

  // ---- When an append works ----

  predicate WriteWorks(hal: Hal) { hal.unlocks && hal.ops >= RECORD_WORDS && hal.locks }

  predicate EraseWorks(hal: Hal) { hal.unlocks && hal.ops > 0 && hal.locks }

  /**
   * A record of a known state after the latest one is appended if and only if a sequence number is
   * left, its write works, and there is a free slot or the sector can be compacted around the
   * latest record.
   */
  lemma AppendSucceedsExactly(log: Log, desired: Record, plan: Plan)
    requires WellFormed(log) && Latest(log).Some? && PayloadValid(desired)
    ensures Append(log, desired, plan).status == Ok <==> AppendPossible(log, plan)
  {
    FreeMeansErased(log);
    LatestIsValid(log);
    hide Latest, FreeCount, HasUsed;
  }

  predicate AppendPossible(log: Log, plan: Plan)
    requires Latest(log).Some?
  {
    && Latest(log).value.seqno < 0xFFFF_FFFE && WriteWorks(plan.write)
    && (FreeCount(log) > 0 ||
        (SafeToCompact(Latest(log).value.state) && EraseWorks(plan.erase) && WriteWorks(plan.rewrite)))
  }

  // ---- The start ----

  /** What the journal asks for before the image may start. */
  predicate JournalStarts(log: Log, plan: Plan) {
    match Latest(log)
    case None => true
    case Some(d) =>
      || d.state == EMPTY || d.state == APP_VALID || d.state == CONFIRMED
      || (d.state == PENDING_BOOT && d.error < 3 && AppendPossible(log, plan))
  }

  /** The device after a power-on and the silent end of the window that it may have opened. */
  function Started(s: System, transportUp: bool, image: Image, f: Faults, g: Faults): (r: System)
    requires IsSystem(s)
    ensures IsSystem(r)
  {
    Step(Step(s, PowerOn(transportUp, image, f)).0, WindowEnds(image, g)).0
  }

  predicate PendingIn(log: Log) { Latest(log).Some? && Latest(log).value.state == PENDING_BOOT }

  /** One decision over a fresh RAM: the jump is made exactly under these conditions. */
  ghost predicate DecidesExactly(b: Boot, transportUp: bool, image: Image, plan: Plan) {
    && IsBoot(b)
    && var r := Decide(b, transportUp, image, plan);
       && (r.mode.App? <==> IsAppValid(b.flash) && JournalStarts(b.log, plan))
       && (!r.mode.App? ==> if transportUp then r.mode.Service? else r.mode.Silent?) && r.flash == b.flash
       && (r.mode.App? ==>
             if PendingIn(b.log)
             then Latest(r.log) == Some(Latest(b.log).value.(error := Latest(b.log).value.error + 1,
                                                             seqno := (Latest(b.log).value.seqno + 1) as u32))
             else r.log == b.log)
  }

  lemma DecisionIsExact(b: Boot, transportUp: bool, image: Image, plan: Plan)
    requires WellFormed(b.log) && Flash.IsFlash(b.flash) && b.ram == InitRam(b.log)
    ensures DecidesExactly(b, transportUp, image, plan)
  {
    LatestIsValid(b.log);
    if PendingIn(b.log) {
      TrialDecision(b, transportUp, image, plan, Latest(b.log).value);
    } else {
      hide IsAppValid, Latest, AppInit, HasUsed, WellFormed, AppendState;
    }
  }

  lemma TrialDecision(b: Boot, transportUp: bool, image: Image, plan: Plan, d: Record)
    requires IsBoot(b) && Latest(b.log) == Some(d) && RecordValid(d) && d.state == PENDING_BOOT
    requires b.ram == Ram(d, true, false, false, false, false, NoAction)
    ensures DecidesExactly(b, transportUp, image, plan)
  {
    hide Append, Latest, WellFormed, IsAppValid, AppInit, AppendPossible;
    if d.error < PENDING_BOOT_MAX_ATTEMPTS {
      var desired := d.(state := PENDING_BOOT, error := d.error + 1);
      AppendSucceedsExactly(b.log, desired, plan);
      AppendOutcome(b.log, desired, plan);
    }
  }

  /** A bootable device decides, with transport and without a trial only after the window; another one serves. */
  lemma WindowPostponesDecision(s: System, transportUp: bool, image: Image, f: Faults, g: Faults)
    requires IsSystem(s) && s.mode.Off?
    ensures var b := Boot(s.log, s.flash, InitRam(s.log));
            IsBoot(b) &&
            Started(s, transportUp, image, f, g) ==
            if MetadataAllowsBoot(s.log) && IsAppValid(s.flash)
            then Decide(b, transportUp, image, if transportUp && !IsPending(b.ram) then g.first else f.first)
            else s.(mode := if transportUp then Service(b.ram) else Silent(b.ram))
  {
    var b := Boot(s.log, s.flash, InitRam(s.log));
    hide IsAppValid, MetadataAllowsBoot, WellFormed, InitRam, Prepare, AppInit;
  }

  /**
   * A power-on and, if it opens a recovery window, the silent end of that window start the application
   * if and only if the vectors are valid and the journal has no record, or its latest one is EMPTY,
   * APP_VALID or CONFIRMED, or is PENDING_BOOT with fewer than three attempts and one more of them
   * can be made durable.  A PENDING_BOOT image starts with the attempt counted; every other start
   * leaves the journal alone.  Without a start the device serves, in silence if its transport is down.
   */
  lemma StartsExactly(s: System, transportUp: bool, image: Image, f: Faults, g: Faults)
    requires IsSystem(s) && s.mode.Off?
    ensures var s' := Started(s, transportUp, image, f, g);
            && (s'.mode.App? <==> Startable(s.flash[..8]) && JournalStarts(s.log, f.first))
            && (!s'.mode.App? ==> if transportUp then s'.mode.Service? else s'.mode.Silent?)
            && s'.flash == s.flash
            && (s'.mode.App? ==>
                  if PendingIn(s.log)
                  then Latest(s'.log) == Some(Latest(s.log).value.(error := Latest(s.log).value.error + 1,
                                                                   seqno := (Latest(s.log).value.seqno + 1) as u32))
                  else s'.log == s.log)
  {
    VectorsOfImage(s.flash);
    var b := Boot(s.log, s.flash, InitRam(s.log));
    WindowPostponesDecision(s, transportUp, image, f, g);
    BootableExactly(s.log, f.first);
    hide Startable, IsAppValid, Started, Decide;
    DecisionIsExact(b, transportUp, image, if transportUp && !IsPending(b.ram) then g.first else f.first);
    hide JournalStarts, MetadataAllowsBoot, InitRam, WellFormed, IsPending;
  }

  lemma BootableExactly(log: Log, plan: Plan)
    requires WellFormed(log)
    ensures JournalStarts(log, plan) ==> MetadataAllowsBoot(log)
    ensures IsPending(InitRam(log)) == PendingIn(log)
    ensures !PendingIn(log) ==> forall other: Plan :: JournalStarts(log, plan) == JournalStarts(log, other)
  {
    hide Latest, HasUsed, AppendPossible, WellFormed;
  }

  // ---- The confirmation ----

  /** The record of a trial start that the running build may confirm. */
  predicate IsTrialOf(d: Record, version: u32) {
    d.state == PENDING_BOOT && d.session != 0 && d.size != 0 && d.received == d.size && d.version == version
  }

  /**
   * If the journal takes a record, the end of the confirmation delay makes the latest record CONFIRMED,
   * for the same session and manifest, if and only if that record is a complete trial start of a
   * session and has the version of the running build; otherwise journal and flash stay as they are and
   * the application stops answering.
   */
  lemma ConfirmsExactly(s: System, f: Faults, d: Record)
    requires IsSystem(s) && s.mode.App? && s.mode.confirm == Waiting && Latest(s.log) == Some(d)
    requires AppendPossible(s.log, f.first)
    ensures var s' := Step(s, ConfirmDelay(f)).0;
            && s'.flash == s.flash
            && (IsTrialOf(d, s.mode.version) ==>
                  && s'.mode == s.mode.(confirm := Complete)
                  && Latest(s'.log) == Some(d.(state := CONFIRMED, error := 0, seqno := d.seqno + 1)))
            && (!IsTrialOf(d, s.mode.version) ==>
                  && s'.log == s.log
                  && forall req: Request, sent: bool, g: Faults :: Step(s', Receive(req, sent, g)) == (s', None))
  {
    hide Append, FreeCount, AppDispatch;
    LatestIsValid(s.log);
    var desired := d.(state := CONFIRMED, error := 0);
    if IsTrialOf(d, s.mode.version) {
      AppendSucceedsExactly(s.log, desired, f.first);
      AppendOutcome(s.log, desired, f.first);
    }
    hide Latest, WellFormed;
  }

  /** After the jump: a trial of this build waits for its delay, any other PENDING_BOOT image is blocked. */
  lemma TrialWaitsExactly(log: Log, transportUp: bool, version: u32)
    requires WellFormed(log)
    ensures var pending := Latest(log).Some? && Latest(log).value.state == PENDING_BOOT;
            && (AppInit(log, transportUp, version) == Waiting <==>
                  transportUp && pending && IsTrialOf(Latest(log).value, version))
            && (AppInit(log, transportUp, version) == NotRequired <==> transportUp && !pending)
            && AppInit(log, transportUp, version) != Complete
  {
    hide Latest, WellFormed, HasUsed;
  }
}
