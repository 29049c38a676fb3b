/**
 * Under ordinary conditions an update goes through: the stages from START to the confirmed
 * application, and what each transaction of the upgrade task makes of them when nothing fails but
 * frames get lost.
 */
module Completion {
  import opened Types
  import opened Messages
  import opened MetadataLog
  import opened Device
  import opened DataPrefix
  import opened Link
  import opened UpgradeClient
  import opened ExactlyOnce
  import opened JournalRoom
  import opened Transfer
  import opened TransferProgress
  import opened Journey
  import opened BootDecision
  import opened Admission
  import Flash = FlashImage
  import Crc32

  // ---- Ordinary conditions ----

  /** Events that neither cut the power nor show a failure, for an image that reports this version. */
  predicate Harmless(e: Event, version: u32) {
    match e
    case PowerOn(transportUp, image, f) => transportUp && image == Image(version, true) && f == NONE_FAIL
    case WindowEnds(image, f) => image == Image(version, true) && f == NONE_FAIL
    case ConfirmDelay(f) => f == NONE_FAIL
    case Addressed => true
    case Cut => false
    case Receive(_, _, _) => false
  }

  /** An exchange at which nothing fails; requests and responses may get lost, in silence. */
  predicate Helps(fate: Fate, version: u32) {
    && fate.faults == NONE_FAIL
    && (forall i | 0 <= i < |fate.before| :: Harmless(fate.before[i], version))
    && (!fate.delivery.Answered? ==> fate.delivery.noticed == TimedOut)
  }

  /** The device is powered on, if it is off, before this exchange. */
  predicate Powers(fate: Fate) { exists i :: 0 <= i < |fate.before| && fate.before[i].PowerOn? }

  /** The application's confirmation delay is over before this exchange. */
  predicate Confirms(fate: Fate) { exists i :: 0 <= i < |fate.before| && fate.before[i].ConfirmDelay? }

  ghost predicate PowersSoon(fates: nat -> Fate, clock: nat, patience: nat) {
    exists n: nat | clock <= n < clock + patience :: Powers(fates(n))
  }

  ghost predicate ConfirmsSoon(fates: nat -> Fate, clock: nat, patience: nat) {
    exists n: nat | clock <= n < clock + patience :: Confirms(fates(n))
  }

  /** Nothing but frames fails in the exchanges from the one clock to the other. */
  ghost predicate Calm(fates: nat -> Fate, version: u32, from: nat, to: nat) {
    forall n: nat | from <= n < to :: Helps(fates(n), version)
  }

  /** Calm in a stretch is calm in its parts. */
  lemma CalmParts(fates: nat -> Fate, version: u32, from: nat, to: nat, from': nat, to': nat)
    requires from <= from' && to' <= to
    ensures Calm(fates, version, from, to) ==> Calm(fates, version, from', to')
  {
  }

  /**
   * Of any five attempts in a row one is answered, and within any `patience` exchanges a device that
   * is off comes back and a confirmation delay ends.
   */
  ghost predicate Fair(fates: nat -> Fate, patience: nat) {
    && (forall n: nat :: AnsweredWithin(fates, n, 5))
    && (forall n: nat :: PowersSoon(fates, n, patience))
    && (forall n: nat :: ConfirmsSoon(fates, n, patience))
  }

  // ---- Transactions that settle ----

  /** One exchange either is answered well or leaves the invariant for the next one. */
  ghost predicate Settling(inv: (nat, System) -> bool, good: (nat, System, Response) -> bool,
                           n: nat, s: System, req: Request, fate: Fate) {
    && IsSystem(s)
    && var (s', outcome) := Exchange(s, req, fate);
       if fate.delivery.Answered?
       then outcome.Answer? && outcome.response.command == req.command && outcome.response.seqno == req.seqno &&
            good(n + 1, s', outcome.response)
       else outcome.NoAnswer? && inv(n + 1, s')
  }

  /** A transaction takes at least one exchange and at most one for every attempt. */
  lemma {:induction false} AttemptsTick(s: System, req: Request, fates: nat -> Fate, clock: nat, left: nat, last: Failure)
    requires IsSystem(s)
    ensures var clock' := Attempts(s, req, fates, clock, left, last).1;
            clock <= clock' <= clock + left && (left > 0 ==> clock < clock')
    decreases left
  {
    hide Exchange, IsSystem;
    if left > 0 {
      var (s', outcome) := Exchange(s, req, fates(clock));
      AttemptsTick(s', req, fates, clock + 1, left - 1, if outcome.NoAnswer? then outcome.failure else BadResponse);
    }
  }

  /** A transaction that is answered within its attempts ends, if they were calm, with a good answer. */
  lemma {:induction false} Settles(inv: (nat, System) -> bool, good: (nat, System, Response) -> bool, s: System, req: Request,
                                   fates: nat -> Fate, version: u32, clock: nat, left: nat, last: Failure)
    requires inv(clock, s) && AnsweredWithin(fates, clock, left)
    requires forall n: nat, s: System | inv(n, s) ::
               IsSystem(s) && (Helps(fates(n), version) ==> Settling(inv, good, n, s, req, fates(n)))
    ensures IsSystem(s)
    ensures var (s', clock', result) := Attempts(s, req, fates, clock, left, last);
            && clock < clock' <= clock + left
            && (Calm(fates, version, clock, clock') ==> result.Got? && good(clock', s', result.response))
    decreases left
  {
    hide Exchange, IsSystem, Helps;
    AttemptsTick(s, req, fates, clock, left, last);
    if Helps(fates(clock), version) {
      assert Settling(inv, good, clock, s, req, fates(clock));
      var (s', outcome) := Exchange(s, req, fates(clock));
      if outcome.NoAnswer? {
        Settles(inv, good, s', req, fates, version, clock + 1, left - 1, outcome.failure);
      }
    }
  }

  // ---- Exchanges with the service loop ----

  /** The service loop after a request, at rest for the next one. */
  function Polled(b: Boot, req: Request, sent: bool): (r: System)
    requires IsBoot(b)
    ensures IsSystem(r)
  {
    Step(InService(b), Receive(req, sent, NONE_FAIL)).0
  }

  lemma HarmlessInService(s: System, e: Event, version: u32)
    requires Serves(s) && Harmless(e, version)
    ensures Serves(Step(s, e).0) && Awake(Step(s, e).0) == Awake(s)
  {
    hide WellFormed;
  }

  lemma {:induction false} HarmlessStepsInService(s: System, events: seq<Event>, version: u32)
    requires Serves(s) && forall i | 0 <= i < |events| :: Harmless(events[i], version)
    ensures Serves(Steps(s, events)) && Awake(Steps(s, events)) == Awake(s)
    decreases |events|
  {
    hide Step, Awake, Harmless, IsSystem;
    if events != [] {
      HarmlessInService(s, events[0], version);
      HarmlessStepsInService(Step(s, events[0]).0, events[1..], version);
    }
  }

  /** What one exchange with the service loop comes to. */
  ghost predicate Exchanged(s: System, req: Request, fate: Fate) {
    && Serves(s) && IsBoot(Awake(s))
    && var (s', outcome) := Exchange(s, req, fate);
       match fate.delivery
       case RequestLost(noticed) => Serves(s') && Awake(s') == Awake(s) && outcome == NoAnswer(noticed)
       case ResponseLost(sent, noticed) => s' == Polled(Awake(s), req, sent) && outcome == NoAnswer(noticed)
       case Answered => s' == Polled(Awake(s), req, true) && outcome == Answer(Dispatch(Awake(s), req, NONE_FAIL).1)
  }

  lemma ServiceExchange(s: System, req: Request, fate: Fate, version: u32)
    requires Serves(s) && Helps(fate, version)
    ensures Exchanged(s, req, fate)
  {
    HarmlessStepsInService(s, fate.before, version);
    var ready := Steps(s, fate.before);
    ReceiveAtRest(ready, req, if fate.delivery.ResponseLost? then fate.delivery.sent else true);
    hide Step, Steps, Dispatch, Serves, Awake, IsSystem, IsBoot;
    AwakeIsBoot(s);
  }

  lemma AwakeIsBoot(s: System)
    requires Serves(s)
    ensures IsBoot(Awake(s)) && Awake(s).ram.activity && Awake(s).ram.deferred == NoAction
    ensures Serves(InService(Awake(s))) && Awake(InService(Awake(s))) == Awake(s)
  {
    hide WellFormed;
  }

  lemma ReceiveAtRest(s: System, req: Request, sent: bool)
    requires Serves(s)
    ensures IsBoot(Awake(s))
    ensures Step(s, Receive(req, sent, NONE_FAIL)) ==
            (Polled(Awake(s), req, sent), if sent then Some(Dispatch(Awake(s), req, NONE_FAIL).1) else None)
  {
    hide Dispatch, RunDeferred, WellFormed;
  }

  /** A request is its dispatch and, once the response is out, its deferred action. */
  lemma PolledIs(b: Boot, req: Request, sent: bool)
    requires IsBoot(b) && b.ram.activity
    ensures var b1 := Dispatch(b, req, NONE_FAIL).0;
            var (b2, reset) := RunDeferred(b1, NONE_FAIL);
            Polled(b, req, sent) == if !sent then InService(b1.(ram := b1.ram.(deferred := NoAction)))
                                    else if reset then System(b2.log, b2.flash, Off) else InService(b2)
  {
    hide Dispatch, RunDeferred, WellFormed;
    assert b.ram.(activity := true) == b.ram;
  }

  lemma NothingDeferred(b: Boot)
    requires IsBoot(b) && b.ram.deferred == NoAction
    ensures RunDeferred(b, NONE_FAIL) == (b, false) && b.(ram := b.ram.(deferred := NoAction)) == b
  {
    hide WellFormed;
    assert b.ram.(deferred := NoAction) == b.ram;
  }

  /** An answered exchange with a device that is powered, past its window and past its delay. */
  function OrdinaryFate(version: u32): Fate {
    Fate([PowerOn(true, Image(version, true), NONE_FAIL), WindowEnds(Image(version, true), NONE_FAIL), ConfirmDelay(NONE_FAIL)],
         Answered, NONE_FAIL)
  }

  lemma OrdinaryFateHelps(version: u32)
    ensures var fate := OrdinaryFate(version);
            && Helps(fate, version) && Arrives(fate) && Powers(fate) && Confirms(fate)
            && AllowedFate(fate) && CalmFate(fate) && RelockedFate(fate)
  {
    var fate := OrdinaryFate(version);
    assert fate.before[0].PowerOn? && fate.before[2].ConfirmDelay?;
    assert fate.before[1..][1..] == fate.before[2..];
    assert StaysPowered(fate.before[2..]);
  }

  /** Ordinary conditions exist: the hypotheses of the theorems on success do not contradict each other. */
  lemma OrdinaryFates(version: u32) returns (fates: nat -> Fate)
    ensures Fair(fates, 1) && PromptPower(fates) && Friendly(fates, 0) && AllRelock(fates)
    ensures forall n: nat :: Helps(fates(n), version) && Arrives(fates(n))
  {
    OrdinaryFateHelps(version);
    var fate := OrdinaryFate(version);
    hide Helps, Arrives, Powers, Confirms, AllowedFate, CalmFate, RelockedFate;
    fates := n => fate;
    forall n: nat
      ensures AnsweredWithin(fates, n, 5) && PowersSoon(fates, n, 1) && ConfirmsSoon(fates, n, 1)
    {
      assert Powers(fates(n)) && Confirms(fates(n)) && fates(n).delivery.Answered?;
    }
  }

  // ---- Requests that change nothing ----

  predicate Quiet(b: Boot, req: Request) {
    && IsBoot(b) && b.ram.activity && b.ram.deferred == NoAction
    && var (b', response) := Dispatch(b, req, NONE_FAIL);
       b' == b && response.command == req.command && response.seqno == req.seqno
  }

  lemma QuietPolls(b: Boot, req: Request, sent: bool)
    requires Quiet(b, req)
    ensures Polled(b, req, sent) == InService(b)
  {
    PolledIs(b, req, sent);
    NothingDeferred(b);
    hide Dispatch, RunDeferred, Polled, IsBoot;
  }

  ghost predicate Rests(s: System, b: Boot) { Serves(s) && Awake(s) == b }

  lemma QuietExchange(s: System, b: Boot, req: Request, fate: Fate, version: u32)
    requires Rests(s, b) && Quiet(b, req) && Helps(fate, version)
    ensures IsSystem(s)
    ensures var (s', outcome) := Exchange(s, req, fate);
            && Rests(s', b)
            && outcome == if fate.delivery.Answered? then Answer(Dispatch(b, req, NONE_FAIL).1) else NoAnswer(TimedOut)
  {
    ServiceExchange(s, req, fate, version);
    QuietPolls(b, req, if fate.delivery.ResponseLost? then fate.delivery.sent else true);
    AwakeIsBoot(s);
    hide Polled, Dispatch, Exchange, Awake, InService, IsBoot;
  }

  /** A request that changes nothing is answered, and changes nothing. */
  lemma QuietSettles(s: System, b: Boot, req: Request, fates: nat -> Fate, version: u32, clock: nat, left: nat)
    requires Rests(s, b) && Quiet(b, req) && AnsweredWithin(fates, clock, left)
    ensures IsSystem(s)
    ensures var (s', clock', result) := Attempts(s, req, fates, clock, left, TimedOut);
            && clock < clock' <= clock + left
            && (Calm(fates, version, clock, clock') ==> Rests(s', b) && result == Got(Dispatch(b, req, NONE_FAIL).1))
  {
    var answer := Dispatch(b, req, NONE_FAIL).1;
    var inv: (nat, System) -> bool := (n: nat, s: System) => Rests(s, b);
    var good: (nat, System, Response) -> bool := (n: nat, s: System, r: Response) => Rests(s, b) && r == answer;
    forall n: nat, s: System | inv(n, s)
      ensures IsSystem(s) && (Helps(fates(n), version) ==> Settling(inv, good, n, s, req, fates(n)))
    {
      if Helps(fates(n), version) {
        QuietExchange(s, b, req, fates(n), version);
      }
      hide Dispatch, Exchange, Helps, Awake;
    }
    hide Dispatch, Exchange, Rests;
    Settles(inv, good, s, req, fates, version, clock, left, TimedOut);
  }

  // ---- Stage 1: START ----

  /** The journal takes this many STARTs in a row: the first may compact, the others need free slots. */
  ghost predicate HasRoomFor(log: Log, size: u32, tries: nat) {
    && WellFormed(log) && (Latest(log).Some? || !HasUsed(log))
    && (|| FreeCount(log) + 1 >= RequiredRecords(size) + tries
        || (FreeCount(log) < RequiredRecords(size) && Latest(log).Some? && SafeToCompact(Latest(log).value.state)))
  }

  /** An idle bootloader whose journal has slots and numbers for an update of this size. */
  ghost predicate Openable(b: Boot, size: u32, top: nat, tries: nat) {
    && IsBoot(b) && b.ram.activity && b.ram.deferred == NoAction && !InSession(State(b))
    && HasRoomFor(b.log, size, tries)
    && NextSeqno(b.log) + tries + Checkpoints(size) + 3 <= top < 0xFFFF_FFFF
  }

  /** After START, before the erase: a durable request of this update, with room for all of it. */
  ghost predicate Requested(b: Boot, deal: Deal) {
    && b.ram.activity && b.ram.deferred == NoAction && b.ram.has
    && Updating(b, b.ram.rec) && (State(b) == UPDATE_REQUESTED || State(b) == ERASING)
    && IdOf(b.ram.rec) == deal.id
    && FreeCount(b.log) >= Budget(b.ram.rec) + deal.spare && b.ram.rec.seqno + Budget(b.ram.rec) <= deal.top < 0xFFFF_FFFF
  }

  lemma RoomOpens(log: Log, size: u32, tries: nat)
    requires HasRoomFor(log, size, tries) && size <= APP_MAX_SIZE && 0 < tries <= 2 * MAX_RETRY_COUNT
    ensures var (log1, status) := CompactIfNeeded(log, RequiredRecords(size), NO_FAULTS);
            && (status == Ok || status == Empty)
            && WellFormed(log1) && Latest(log1) == Latest(log) && HasUsed(log1) == HasUsed(log)
            && FreeCount(log1) + 1 >= RequiredRecords(size) + tries
  {
    RoomFoundExactly(log, RequiredRecords(size), NO_FAULTS);
    CompactFindsRoom(log, RequiredRecords(size), NO_FAULTS);
    if Latest(log).Some? {
      CompactOutcome(log, NO_FAULTS);
    }
    hide Latest, FreeCount, WellFormed, HasUsed, Compact;
  }

  lemma RequestAppended(log: Log, desired: Record)
    requires WellFormed(log) && FreeCount(log) > 0 && PayloadValid(desired)
    requires (Latest(log).Some? || !HasUsed(log)) && NextSeqno(log) < 0xFFFF_FFFF
    ensures var r := Append(log, desired, NO_FAULTS);
            && r.status == Ok && WellFormed(r.log) && r.written == desired.(seqno := NextSeqno(log))
            && Latest(r.log) == Some(r.written) && FreeCount(r.log) == FreeCount(log) - 1
  {
    RequestRecordWritten(log, desired, NO_FAULTS);
    AppendOutcome(log, desired, NO_FAULTS);
    AppendSpendsOneSlot(log, desired, NO_FAULTS);
    hide Append, Latest, FreeCount, WellFormed, HasUsed;
  }

  /** A handled START is answered OK, opens the update, and leaves room for the repetitions still possible. */
  lemma StartOpens(b: Boot, req: Request, m: Manifest, deal: Deal, tries: nat)
    requires Openable(b, m.size, deal.top, tries) && 0 < tries <= MAX_RETRY_COUNT && deal.spare <= 3
    requires Admissible(req) && DecodeManifest(req.payload) == Some(m) && deal.id == IdOfStart(req.session, m)
    ensures var h := HandleStart(b, req, NONE_FAIL);
            && h.reply == OK && Requested(h.b, deal)
            && (tries > 1 ==> Openable(h.b, m.size, deal.top, tries - 1))
  {
    hide DecodeManifest, Latest, FreeCount, HasUsed, CompactIfNeeded, Append;
    var log1 := CompactIfNeeded(b.log, RequiredRecords(m.size), NO_FAULTS).0;
    hide WellFormed;
    RoomOpens(b.log, m.size, tries);
    RequestAppended(log1, StartRecord(req.session, m));
  }

  lemma StartPolls(b: Boot, req: Request, sent: bool)
    requires IsBoot(b) && b.ram.activity && b.ram.deferred == NoAction && req.command == Start
    ensures var h := HandleStart(b, req, NONE_FAIL);
            && Polled(b, req, sent) == InService(h.b)
            && Dispatch(b, req, NONE_FAIL).1 == Response(Start, h.reply, req.session, req.seqno, h.offset, NoBody)
  {
    StartKeepsFlags(b, req, NONE_FAIL);
    PolledIs(b, req, sent);
    NothingDeferred(HandleStart(b, req, NONE_FAIL).b);
    hide HandleStart, WellFormed, Polled, RunDeferred;
  }

  ghost predicate OpensAt(n: nat, s: System, size: u32, top: nat, fates: nat -> Fate, limit: nat) {
    && n < limit <= n + MAX_RETRY_COUNT && AnsweredWithin(fates, n, limit - n)
    && Serves(s) && Openable(Awake(s), size, top, limit - n)
  }

  ghost predicate OpenedBy(s: System, deal: Deal, r: Response) {
    r.reply == OK && Serves(s) && Requested(Awake(s), deal)
  }

  /** A handled START, its response sent or not. */
  lemma StartPolled(b: Boot, req: Request, m: Manifest, deal: Deal, tries: nat, sent: bool)
    requires Openable(b, m.size, deal.top, tries) && 0 < tries <= MAX_RETRY_COUNT && deal.spare <= 3
    requires req.command == Start && Admissible(req)
    requires DecodeManifest(req.payload) == Some(m) && deal.id == IdOfStart(req.session, m)
    ensures IsBoot(b)
    ensures var response := Dispatch(b, req, NONE_FAIL).1;
            response.command == req.command && response.seqno == req.seqno && response.reply == OK
    ensures var s' := Polled(b, req, sent);
            && Serves(s') && Requested(Awake(s'), deal)
            && (tries > 1 ==> Openable(Awake(s'), m.size, deal.top, tries - 1))
  {
    StartPolls(b, req, sent);
    StartOpens(b, req, m, deal, tries);
    var h := HandleStart(b, req, NONE_FAIL);
    hide DecodeManifest, Admissible, HandleStart, Polled, Dispatch, Awake, InService, Openable;
    RequestedRests(h.b, deal);
  }

  lemma StartExchange(n: nat, s: System, req: Request, m: Manifest, deal: Deal, fates: nat -> Fate, limit: nat)
    requires OpensAt(n, s, m.size, deal.top, fates, limit) && Helps(fates(n), m.version)
    requires deal.spare <= 3
    requires req.command == Start && Admissible(req)
    requires DecodeManifest(req.payload) == Some(m) && deal.id == IdOfStart(req.session, m)
    ensures IsSystem(s)
    ensures var (s', outcome) := Exchange(s, req, fates(n));
            if fates(n).delivery.Answered?
            then outcome.Answer? && outcome.response.command == req.command && outcome.response.seqno == req.seqno &&
                 OpenedBy(s', deal, outcome.response)
            else outcome.NoAnswer? && OpensAt(n + 1, s', m.size, deal.top, fates, limit)
  {
    var fate, b, tries := fates(n), Awake(s), limit - n;
    assert !fate.delivery.Answered? ==> tries > 1 && AnsweredWithin(fates, n + 1, limit - (n + 1));
    hide DecodeManifest, Admissible, Helps, Exchange, Polled, Dispatch, Openable, Requested, Awake, InService, IsBoot, IsSystem,
         AnsweredWithin;
    ServiceExchange(s, req, fate, m.version);
    StartPolled(b, req, m, deal, tries, if fate.delivery.ResponseLost? then fate.delivery.sent else true);
    if tries > 1 {
      FewerTries(b, m.size, deal.top, tries);
    }
    hide Serves;
  }

  lemma FewerTries(b: Boot, size: u32, top: nat, tries: nat)
    requires Openable(b, size, top, tries) && tries > 1
    ensures Openable(b, size, top, tries - 1)
  {
    hide Latest, FreeCount, HasUsed, WellFormed;
  }

  /** START opens the update, however many of its frames get lost. */
  lemma StartSettles(s: System, req: Request, m: Manifest, deal: Deal, fates: nat -> Fate, clock: nat)
    requires Serves(s) && Openable(Awake(s), m.size, deal.top, MAX_RETRY_COUNT) && deal.spare <= 3
    requires AnsweredWithin(fates, clock, MAX_RETRY_COUNT)
    requires req.command == Start && Admissible(req)
    requires DecodeManifest(req.payload) == Some(m) && deal.id == IdOfStart(req.session, m)
    ensures IsSystem(s)
    ensures var (s', clock', result) := Attempts(s, req, fates, clock, MAX_RETRY_COUNT, TimedOut);
            && clock < clock' <= clock + MAX_RETRY_COUNT
            && (Calm(fates, m.version, clock, clock') ==> result.Got? && OpenedBy(s', deal, result.response))
  {
    var limit := clock + MAX_RETRY_COUNT;
    var inv: (nat, System) -> bool := (n: nat, s: System) => OpensAt(n, s, m.size, deal.top, fates, limit);
    var good: (nat, System, Response) -> bool := (n: nat, s: System, r: Response) => OpenedBy(s, deal, r);
    forall n: nat, s: System | inv(n, s)
      ensures IsSystem(s) && (Helps(fates(n), m.version) ==> Settling(inv, good, n, s, req, fates(n)))
    {
      if Helps(fates(n), m.version) {
        StartExchange(n, s, req, m, deal, fates, limit);
      }
      hide Exchange, OpenedBy, Helps, Openable;
    }
    hide Exchange, OpenedBy, Openable;
    Settles(inv, good, s, req, fates, m.version, clock, MAX_RETRY_COUNT, TimedOut);
  }

  // ---- Before it: from the application to the bootloader ----

  /** The journal takes this many requests to enter the bootloader and to start an update of this size. */
  ghost predicate RoomToEnter(log: Log, size: u32, top: nat, tries: nat) {
    && HasRoomFor(log, APP_MAX_SIZE, tries) && size <= APP_MAX_SIZE
    && NextSeqno(log) + tries + Checkpoints(size) + 3 <= top < 0xFFFF_FFFF
  }

  /** An application at work, not on trial, with such a journal. */
  ghost predicate AppOpen(s: System, size: u32, top: nat, tries: nat) {
    && IsSystem(s) && s.mode.App? && (s.mode.confirm == NotRequired || s.mode.confirm == Complete)
    && RoomToEnter(s.log, size, top, tries)
  }

  /** The bootloader, entered and idle, or the reset that leads there. */
  ghost predicate Entered(s: System, size: u32, top: nat) {
    || (Serves(s) && Openable(Awake(s), size, top, MAX_RETRY_COUNT))
    || (&& IsSystem(s) && s.mode.Off? && RoomToEnter(s.log, size, top, MAX_RETRY_COUNT)
        && Latest(s.log).Some? && Latest(s.log).value.state == UPDATE_REQUESTED)
  }

  lemma EnterBootOpens(log: Log, req: Request, size: u32, top: nat, tries: nat)
    requires RoomToEnter(log, size, top, tries) && 1 < tries <= 2 * MAX_RETRY_COUNT && IsBare(req)
    ensures var (log', reply) := AppEnterBoot(log, req, NONE_FAIL);
            && reply == OK && RoomToEnter(log', size, top, tries - 1)
            && Latest(log').Some? && Latest(log').value.state == UPDATE_REQUESTED
  {
    hide Latest, FreeCount, HasUsed, CompactIfNeeded, Append;
    var log1 := CompactIfNeeded(log, APP_MAX_REQUIRED_RECORDS, NO_FAULTS).0;
    assert RequiredRecords(APP_MAX_SIZE) == APP_MAX_REQUIRED_RECORDS;
    RoomOpens(log, APP_MAX_SIZE, tries);
    hide WellFormed;
    RequestAppended(log1, InitRecord(UPDATE_REQUESTED).(session := req.session));
  }

  lemma FewerToEnter(log: Log, size: u32, top: nat, tries: nat, fewer: nat)
    requires RoomToEnter(log, size, top, tries) && fewer <= tries
    ensures RoomToEnter(log, size, top, fewer)
  {
    hide Latest, FreeCount, HasUsed, WellFormed;
  }

  /** A bootloader entered through a request starts without a window and is ready for START. */
  lemma EnteredStarts(s: System, e: Event, size: u32, top: nat, version: u32)
    requires Entered(s, size, top) && s.mode.Off? && e.PowerOn? && Harmless(e, version)
    ensures IsSystem(s)
    ensures var s' := Step(s, e).0; Serves(s') && Openable(Awake(s'), size, top, MAX_RETRY_COUNT)
  {
    LatestIsValid(s.log);
    hide Latest, FreeCount, HasUsed, WellFormed, IsAppValid, Decide;
  }

  lemma {:induction false} EnteredSteps(s: System, events: seq<Event>, size: u32, top: nat, version: u32)
    requires Entered(s, size, top) && forall i | 0 <= i < |events| :: Harmless(events[i], version)
    ensures IsSystem(s) && Entered(Steps(s, events), size, top)
    ensures s.mode.Service? || (exists i :: 0 <= i < |events| && events[i].PowerOn?) ==> Steps(s, events).mode.Service?
    decreases |events|
  {
    EnteredIsSystem(s, size, top);
    hide Openable, RoomToEnter, IsSystem, Awake, Latest;
    if s.mode.Service? {
      HarmlessStepsInService(s, events, version);
    } else if events != [] {
      var e := events[0];
      assert Harmless(e, version);
      if e.PowerOn? {
        EnteredStarts(s, e, size, top, version);
      } else {
        OffIdles(s, e, version);
      }
      hide Step, Harmless;
      EnteredSteps(Step(s, e).0, events[1..], size, top, version);
    }
  }

  lemma EnteredIsSystem(s: System, size: u32, top: nat)
    requires Entered(s, size, top)
    ensures IsSystem(s) && (s.mode.Service? ==> Serves(s)) && (s.mode.Service? || s.mode.Off?)
  {
    hide Openable, RoomToEnter, Latest, WellFormed;
  }

  lemma OffIdles(s: System, e: Event, version: u32)
    requires IsSystem(s) && s.mode.Off? && Harmless(e, version) && !e.PowerOn?
    ensures Step(s, e).0 == s
  {
    hide WellFormed;
  }

  lemma {:induction false} AppIdles(s: System, events: seq<Event>, version: u32)
    requires IsSystem(s) && s.mode.App? && s.mode.confirm != Waiting
    requires forall i | 0 <= i < |events| :: Harmless(events[i], version)
    ensures Steps(s, events) == s
    decreases |events|
  {
    hide IsSystem, WellFormed;
    if events != [] {
      assert Harmless(events[0], version);
      AppIdles(s, events[1..], version);
    }
  }

  /** A device that is off comes back before the next exchange. */
  ghost predicate PromptPower(fates: nat -> Fate) { forall n: nat :: Powers(fates(n)) }

  ghost predicate Entering(n: nat, s: System, size: u32, top: nat, limit: nat) {
    && n < limit <= n + MAX_RETRY_COUNT
    && (AppOpen(s, size, top, MAX_RETRY_COUNT + limit - n) || Entered(s, size, top))
  }

  /** What the application makes of one ENTER_BOOT. */
  lemma EnterStep(s: System, req: Request, sent: bool, size: u32, top: nat, tries: nat)
    requires AppOpen(s, size, top, tries) && MAX_RETRY_COUNT < tries <= 2 * MAX_RETRY_COUNT
    requires req.command == EnterBoot && IsBare(req)
    ensures IsSystem(s)
    ensures var (s', response) := Step(s, Receive(req, sent, NONE_FAIL));
            && response == (if sent then Some(Response(EnterBoot, OK, req.session, req.seqno, 0, NoBody)) else None)
            && (if sent then Entered(s', size, top) else AppOpen(s', size, top, tries - 1))
  {
    EnterBootOpens(s.log, req, size, top, tries);
    FewerToEnter(AppEnterBoot(s.log, req, NONE_FAIL).0, size, top, tries - 1, MAX_RETRY_COUNT);
    hide AppEnterBoot, RoomToEnter, Latest, WellFormed;
  }

  lemma EnterInServiceIsQuiet(b: Boot, req: Request)
    requires IsBoot(b) && b.ram.activity && b.ram.deferred == NoAction && req.command == EnterBoot && IsBare(req)
    ensures Quiet(b, req) && Dispatch(b, req, NONE_FAIL).1.reply == OK
  {
    hide WellFormed;
  }

  lemma EnteredExchange(s: System, req: Request, fate: Fate, size: u32, top: nat, version: u32)
    requires Entered(s, size, top) && Helps(fate, version) && Powers(fate)
    requires req.command == EnterBoot && IsBare(req)
    ensures IsSystem(s)
    ensures var (s', outcome) := Exchange(s, req, fate);
            && Entered(s', size, top)
            && (if fate.delivery.Answered?
                then outcome.Answer? && outcome.response.command == req.command && outcome.response.seqno == req.seqno &&
                     outcome.response.reply == OK
                else outcome.NoAnswer?)
  {
    EnteredIsSystem(s, size, top);
    EnteredSteps(s, fate.before, size, top, version);
    var ready := Steps(s, fate.before);
    EnteredIsSystem(ready, size, top);
    var sent := if fate.delivery.ResponseLost? then fate.delivery.sent else true;
    AwakeIsBoot(ready);
    ReceiveAtRest(ready, req, sent);
    EnterInServiceIsQuiet(Awake(ready), req);
    QuietPolls(Awake(ready), req, sent);
    hide Step, Steps, Dispatch, Polled, Serves, Awake, InService, Openable, RoomToEnter, IsSystem, IsBoot, Harmless;
  }

  lemma EnterExchange(n: nat, s: System, req: Request, fate: Fate, size: u32, top: nat, version: u32, limit: nat)
    requires Entering(n, s, size, top, limit) && Helps(fate, version) && Powers(fate)
    requires req.command == EnterBoot && IsBare(req)
    ensures IsSystem(s)
    ensures var (s', outcome) := Exchange(s, req, fate);
            if fate.delivery.Answered?
            then outcome.Answer? && outcome.response.command == req.command && outcome.response.seqno == req.seqno &&
                 outcome.response.reply == OK && Entered(s', size, top)
            else outcome.NoAnswer? && (n + 1 < limit ==> Entering(n + 1, s', size, top, limit))
  {
    if Entered(s, size, top) {
      EnteredExchange(s, req, fate, size, top, version);
      hide Exchange, Entered, AppOpen;
    } else {
      var tries := MAX_RETRY_COUNT + limit - n;
      AppIdles(s, fate.before, version);
      EnterStep(s, req, if fate.delivery.ResponseLost? then fate.delivery.sent else true, size, top, tries);
      FewerAppTries(s, size, top, tries);
      hide Step, Steps, Entered, AppOpen, Harmless, IsSystem;
    }
  }

  lemma FewerAppTries(s: System, size: u32, top: nat, tries: nat)
    requires AppOpen(s, size, top, tries) && tries > 0
    ensures AppOpen(s, size, top, tries - 1)
  {
    FewerToEnter(s.log, size, top, tries, tries - 1);
    hide RoomToEnter, WellFormed;
  }

  lemma EnteringIsSystem(n: nat, s: System, size: u32, top: nat, limit: nat)
    requires Entering(n, s, size, top, limit)
    ensures IsSystem(s)
  {
    hide RoomToEnter, Openable, Latest, WellFormed;
  }

  /** ENTER_BOOT is answered OK and leads to an idle bootloader, however many of its frames get lost. */
  lemma EnterSettles(s: System, req: Request, size: u32, top: nat, fates: nat -> Fate, version: u32, clock: nat)
    requires AppOpen(s, size, top, 2 * MAX_RETRY_COUNT) && PromptPower(fates) && AnsweredWithin(fates, clock, MAX_RETRY_COUNT)
    requires req.command == EnterBoot && IsBare(req)
    ensures IsSystem(s)
    ensures var (s', clock', result) := Attempts(s, req, fates, clock, MAX_RETRY_COUNT, TimedOut);
            && clock < clock' <= clock + MAX_RETRY_COUNT
            && (Calm(fates, version, clock, clock') ==>
                  result.Got? && result.response.reply == OK && Entered(s', size, top))
  {
    var limit := clock + MAX_RETRY_COUNT;
    var inv: (nat, System) -> bool :=
      (n: nat, s: System) => n < limit && AnsweredWithin(fates, n, limit - n) && Entering(n, s, size, top, limit);
    var good: (nat, System, Response) -> bool := (n: nat, s: System, r: Response) => r.reply == OK && Entered(s, size, top);
    forall n: nat, s: System | inv(n, s)
      ensures IsSystem(s) && (Helps(fates(n), version) ==> Settling(inv, good, n, s, req, fates(n)))
    {
      EnteringIsSystem(n, s, size, top, limit);
      assert Powers(fates(n));
      if Helps(fates(n), version) {
        EnterExchange(n, s, req, fates(n), size, top, version, limit);
      }
      hide Exchange, Entering, Entered, Helps, Powers;
    }
    hide Exchange, Entered, AppOpen;
    Settles(inv, good, s, req, fates, version, clock, MAX_RETRY_COUNT, TimedOut);
  }

  /** HELLO to the application, or on the way to the bootloader. */
  lemma EnteredHello(w: Wire, size: u32, top: nat, fates: nat -> Fate, version: u32)
    requires IsWire(w) && Entered(w.device, size, top) && Helps(fates(w.clock), version) && Powers(fates(w.clock))
    ensures var (w', result) := Call(w, fates, Hello, 0, 0, [], 1);
            && w'.clock == w.clock + 1 && Serves(w'.device) && Openable(Awake(w'.device), size, top, MAX_RETRY_COUNT)
            && (if fates(w.clock).delivery.Answered?
                then result.Got? && result.response.reply == OK && result.response.body == HelloBody(true, false, MAX_PAYLOAD)
                else result == Error(TimedOut))
  {
    var req := Request(Hello, 0, w.seqno, 0, []);
    var fate := fates(w.clock);
    EnteredIsSystem(w.device, size, top);
    EnteredSteps(w.device, fate.before, size, top, version);
    var ready := Steps(w.device, fate.before);
    EnteredIsSystem(ready, size, top);
    var sent := if fate.delivery.ResponseLost? then fate.delivery.sent else true;
    AwakeIsBoot(ready);
    ReceiveAtRest(ready, req, sent);
    ReadsAreQuiet(Awake(ready), req);
    QuietPolls(Awake(ready), req, sent);
    hide Step, Steps, Polled, Serves, Awake, InService, Openable, RoomToEnter, IsSystem, IsBoot, Harmless;
    var (s1, outcome) := Exchange(w.device, req, fate);
    assert Attempts(s1, req, fates, w.clock + 1, 0, TimedOut) == (s1, w.clock + 1, Error(TimedOut));
  }

  lemma AppHello(w: Wire, size: u32, top: nat, tries: nat, fates: nat -> Fate, version: u32)
    requires IsWire(w) && AppOpen(w.device, size, top, tries) && Helps(fates(w.clock), version)
    requires !w.device.mode.resetPending
    ensures var (w', result) := Call(w, fates, Hello, 0, 0, [], 1);
            && w'.clock == w.clock + 1 && w'.device == w.device
            && (if fates(w.clock).delivery.Answered?
                then result.Got? && result.response.reply == OK && result.response.body == HelloBody(false, true, MAX_PAYLOAD)
                else result == Error(TimedOut))
  {
    var req := Request(Hello, 0, w.seqno, 0, []);
    var fate := fates(w.clock);
    AppIdles(w.device, fate.before, version);
    hide RoomToEnter, AppEnterBoot, Latest, WellFormed, Steps, Harmless;
    var (s1, outcome) := Exchange(w.device, req, fate);
    hide Step, Exchange;
    assert Attempts(s1, req, fates, w.clock + 1, 0, TimedOut) == (s1, w.clock + 1, Error(TimedOut));
  }

  // ---- Stage 2: ERASE ----

  /** A durable transition without faults: the next number, one slot, and nothing else in RAM. */
  lemma StateAppended(b: Boot, state: u16, error: u32)
    requires IsBoot(b) && b.ram.has && !b.ram.corrupt && Latest(b.log).Some? && FreeCount(b.log) > 0
    requires PayloadValid(b.ram.rec.(state := state)) && Latest(b.log).value.seqno < 0xFFFF_FFFE
    ensures var (b', reply) := AppendState(b, state, error, NO_FAULTS);
            var rec' := b.ram.rec.(state := state, error := error, seqno := (Latest(b.log).value.seqno + 1) as u32);
            && reply == OK && b' == b.(log := b'.log, ram := b.ram.(rec := rec'))
            && IsBoot(b') && Latest(b'.log) == Some(rec') && FreeCount(b'.log) == FreeCount(b.log) - 1
  {
    RequestAppended(b.log, b.ram.rec.(state := state, error := error));
    hide Append, Latest, FreeCount, WellFormed, HasUsed;
  }

  predicate Asks(req: Request, command: Command, deal: Deal) {
    req.command == command && req.session == deal.id.session && IsBare(req)
  }

  /** ERASE makes the intent durable and arms the erase. */
  lemma EraseArms(b: Boot, req: Request, deal: Deal)
    requires Requested(b, deal) && Asks(req, Erase, deal)
    ensures var (b1, reply) := HandleErase(b, req, NONE_FAIL);
            && reply == Busy && b1.ram.deferred == EraseApp && State(b1) == ERASING && b1.ram.rec.size == b.ram.rec.size
            && Requested(b1.(ram := b1.ram.(deferred := NoAction)), deal)
  {
    hide FreeCount, AppendState;
    if State(b) == UPDATE_REQUESTED {
      StateAppended(b, ERASING, 0);
    }
    hide Latest, WellFormed;
  }

  /** The armed erase runs after the response: the transfer can begin. */
  lemma ArmedErases(b: Boot, image: ImageBytes, deal: Deal)
    requires b.ram.deferred == EraseApp && State(b) == ERASING && b.ram.rec.size == |image|
    requires Requested(b.(ram := b.ram.(deferred := NoAction)), deal)
    ensures IsBoot(b)
    ensures var (b2, reset) := RunDeferred(b, NONE_FAIL);
            && !reset && b2.ram.activity && Lively(b2, image, deal, 0, deal.spare) && b2.ram.rec.received == 0
  {
    hide FreeCount, Latest, WellFormed, AppendState, Lively;
    var erased := b.(ram := b.ram.(deferred := NoAction));
    ArmedIsSynced(b, deal);
    EraseWorksHere(b.flash, |image|);
    EraseStartsTheTransfer(b, image, deal, deal.spare, NONE_FAIL);
    ErasedKeeps(b);
    hide Flash.Erase, Synced;
  }

  lemma ArmedIsSynced(b: Boot, deal: Deal)
    requires b.ram.has && Requested(b.(ram := b.ram.(deferred := NoAction)), deal)
    ensures Updating(b, b.ram.rec) && IdOf(b.ram.rec) == deal.id
  {
    hide FreeCount, Latest, WellFormed;
  }

  lemma EraseWorksHere(flash: seq<byte>, size: u32)
    requires Flash.IsFlash(flash) && 0 < size <= APP_MAX_SIZE
    ensures Flash.Erase(flash, size, HEALTHY).1 == Flash.Ok
  {
  }

  lemma ErasedKeeps(b: Boot)
    requires IsBoot(b) && b.ram.deferred == EraseApp && b.ram.has
    ensures RunDeferred(b, NONE_FAIL).0.ram.activity == b.ram.activity && !RunDeferred(b, NONE_FAIL).1
    ensures Flash.Erase(b.flash, b.ram.rec.size, HEALTHY).1 == Flash.Ok ==> RunDeferred(b, NONE_FAIL).0.ram.rec.received == 0
  {
    hide Append, WellFormed, Flash.Erase;
  }

  /** The transfer has begun: nothing is received yet and everything is erased. */
  ghost predicate Blank(b: Boot, image: ImageBytes, deal: Deal) {
    Lively(b, image, deal, 0, deal.spare) && b.ram.rec.received == 0 && b.ram.activity
  }

  ghost predicate Erases(s: System, image: ImageBytes, deal: Deal) {
    Serves(s) && (Requested(Awake(s), deal) || Blank(Awake(s), image, deal))
  }

  ghost predicate ErasedBy(s: System, image: ImageBytes, deal: Deal, r: Response) {
    (r.reply == OK || r.reply == Busy) && Serves(s) && Blank(Awake(s), image, deal)
  }

  lemma RequestedErasePolls(b: Boot, req: Request, image: ImageBytes, deal: Deal, sent: bool)
    requires Requested(b, deal) && deal.id.size == |image| && Asks(req, Erase, deal)
    ensures IsBoot(b) && Dispatch(b, req, NONE_FAIL).1 == Response(Erase, Busy, req.session, req.seqno, Received(b), NoBody)
    ensures var s' := Polled(b, req, sent);
            && Serves(s')
            && if sent then Blank(Awake(s'), image, deal) else Requested(Awake(s'), deal)
  {
    EraseArms(b, req, deal);
    var b1 := HandleErase(b, req, NONE_FAIL).0;
    RequestedRests(b, deal);
    hide Updating, IsBoot;
    assert b.ram.activity;
    assert Dispatch(b, req, NONE_FAIL) == (b1, Response(Erase, Busy, req.session, req.seqno, Received(b), NoBody)) by {
      hide HandleErase, Requested;
    }
    hide HandleErase, Dispatch, Requested, Lively, RunDeferred, Asks;
    PolledIs(b, req, sent);
    hide Polled;
    ArmedErases(b1, image, deal);
    BlankRests(RunDeferred(b1, NONE_FAIL).0, image, deal);
    RequestedRests(b1.(ram := b1.ram.(deferred := NoAction)), deal);
  }

  lemma BlankRests(b: Boot, image: ImageBytes, deal: Deal)
    requires Blank(b, image, deal)
    ensures IsBoot(b) && b.ram.deferred == NoAction
    ensures Serves(InService(b)) && Awake(InService(b)) == b
  {
    hide Latest, FreeCount, WellFormed, Budget, Written, OnGrid, Synced;
  }

  lemma RequestedRests(b: Boot, deal: Deal)
    requires Requested(b, deal)
    ensures IsBoot(b) && Serves(InService(b)) && Awake(InService(b)) == b
  {
    hide Latest, FreeCount, WellFormed, Budget, Synced;
  }

  lemma ReceivingEraseIsQuiet(b: Boot, req: Request, image: ImageBytes, deal: Deal, high: nat)
    requires Lively(b, image, deal, high, deal.spare) && b.ram.activity && Asks(req, Erase, deal)
    ensures Quiet(b, req) && Dispatch(b, req, NONE_FAIL).1.reply == OK
  {
    hide Latest, FreeCount, WellFormed, Budget, Written, OnGrid, Synced;
  }

  lemma EraseExchange(n: nat, s: System, req: Request, image: ImageBytes, deal: Deal, fate: Fate, version: u32)
    requires Erases(s, image, deal) && deal.id.size == |image| && Asks(req, Erase, deal) && Helps(fate, version)
    ensures IsSystem(s)
    ensures var (s', outcome) := Exchange(s, req, fate);
            if fate.delivery.Answered?
            then outcome.Answer? && outcome.response.command == req.command && outcome.response.seqno == req.seqno &&
                 ErasedBy(s', image, deal, outcome.response)
            else outcome.NoAnswer? && Erases(s', image, deal)
  {
    ServiceExchange(s, req, fate, version);
    AwakeIsBoot(s);
    var b := Awake(s);
    var sent := if fate.delivery.ResponseLost? then fate.delivery.sent else true;
    hide Exchange, Polled, Dispatch, Awake, InService, IsBoot, Requested, Lively, Helps;
    if Requested(b, deal) {
      RequestedErasePolls(b, req, image, deal, sent);
    } else {
      ReceivingEraseIsQuiet(b, req, image, deal, 0);
      QuietPolls(b, req, sent);
      BlankRests(b, image, deal);
    }
    hide Quiet, Asks, Serves;
  }

  /** ERASE starts the transfer, however many of its frames get lost. */
  lemma EraseSettles(s: System, req: Request, image: ImageBytes, deal: Deal, fates: nat -> Fate, version: u32, clock: nat)
    requires Erases(s, image, deal) && deal.id.size == |image| && Asks(req, Erase, deal)
    requires AnsweredWithin(fates, clock, MAX_RETRY_COUNT)
    ensures IsSystem(s)
    ensures var (s', clock', result) := Attempts(s, req, fates, clock, MAX_RETRY_COUNT, TimedOut);
            && clock < clock' <= clock + MAX_RETRY_COUNT
            && (Calm(fates, version, clock, clock') ==> result.Got? && ErasedBy(s', image, deal, result.response))
  {
    var inv: (nat, System) -> bool := (n: nat, s: System) => Erases(s, image, deal);
    var good: (nat, System, Response) -> bool := (n: nat, s: System, r: Response) => ErasedBy(s, image, deal, r);
    forall n: nat, s: System | inv(n, s)
      ensures IsSystem(s) && (Helps(fates(n), version) ==> Settling(inv, good, n, s, req, fates(n)))
    {
      if Helps(fates(n), version) {
        EraseExchange(n, s, req, image, deal, fates(n), version);
      }
      hide Exchange, ErasedBy, Helps, Asks, Requested, Blank, Awake;
    }
    hide Exchange, Erases, ErasedBy, Asks;
    Settles(inv, good, s, req, fates, version, clock, MAX_RETRY_COUNT, TimedOut);
  }

  // ---- Stage 3: the transfer ----

  /** How many rounds a transfer of this size needs with this many troubles. */
  function Rounds(troubles: nat, size: nat): nat { troubles * (size + 2) + size }

  lemma {:induction false} FewerToCome(fates: nat -> Fate, from: nat, clock: nat, last: nat)
    requires from <= clock
    ensures Troubles(fates, clock, last) <= Troubles(fates, from, last)
    ensures TornAppends(fates, clock, last) <= TornAppends(fates, from, last)
    decreases clock - from
  {
    hide CalmFate, JournalWorks;
    if from < clock {
      FewerToCome(fates, from + 1, clock, last);
    }
  }

  lemma RoomToSpare(s: System, image: ImageBytes, deal: Deal, high: nat, room: nat)
    requires LivelyService(s, image, deal, high, deal.spare) && room <= deal.spare
    ensures LivelyService(s, image, deal, high, room)
  {
    hide Latest, FreeCount, WellFormed, Budget, Written, OnGrid, Synced;
  }

  lemma WorkIsBounded(troubles: nat, bound: nat, size: nat, received: nat)
    requires troubles <= bound && received <= size
    ensures Work(troubles, size, received, received) <= Rounds(bound, size)
  {
    if troubles < bound {
      FewerTroubles(bound, troubles, size + 2);
    }
  }

  /** The image is received and in flash, or already being verified; VERIFY will find its CRC. */
  ghost predicate Checkable(b: Boot, image: ImageBytes, deal: Deal) {
    && b.ram.activity && b.ram.deferred == NoAction && b.ram.has
    && Latest(b.log).Some? && Updating(b, Latest(b.log).value) && (State(b) == RECEIVING || State(b) == VERIFYING)
    && IdOf(b.ram.rec) == deal.id && b.ram.rec.received == b.ram.rec.size == |image|
    && b.flash[..|image|] == image
    && FreeCount(b.log) >= Budget(Latest(b.log).value)
    && Latest(b.log).value.seqno + Budget(Latest(b.log).value) <= deal.top < 0xFFFF_FFFF
  }

  /** A transfer in progress completes over resets and interrupted appends, as long as rounds and slots suffice. */
  lemma TransferSettles(w: Wire, image: ImageBytes, deal: Deal, high: nat, fates: nat -> Fate, last: nat, checks: nat)
    requires IsWire(w) && Serves(w.device) && Lively(Awake(w.device), image, deal, high, deal.spare)
    requires Friendly(fates, last) && TornAppends(fates, 0, last) <= deal.spare && deal.id.size == |image|
    requires checks >= Rounds(Troubles(fates, 0, last), |image|)
    ensures Awake(w.device).ram.rec.received <= |image|
    ensures var (w', left, status) := TransferRun(w, fates, deal.id.session, image, Awake(w.device).ram.rec.received, checks);
            && status == Done && left + Rounds(Troubles(fates, 0, last), |image|) >= checks
            && Serves(w'.device) && Checkable(Awake(w'.device), image, deal)
  {
    var received := w.device.mode.ram.rec.received;
    AwakeIsLively(w.device, image, deal, high);
    LivelyBounds(w.device, image, deal, high, deal.spare);
    FewerToCome(fates, 0, w.clock, last);
    RoomToSpare(w.device, image, deal, high, TornAppends(fates, w.clock, last));
    WorkIsBounded(Troubles(fates, w.clock, last), Troubles(fates, 0, last), |image|, received);
    hide Lively, OnGrid, Friendly, IsSystem, TransferRun, Work, Rounds, Troubles, TornAppends;
    var high' := TransferCompletes(w, fates, deal, image, received, checks, high, last);
    var w' := TransferRun(w, fates, deal.id.session, image, received, checks).0;
    CompletedIsCheckable(w'.device, image, deal, high', TornAppends(fates, w'.clock, last));
  }

  lemma AwakeIsLively(s: System, image: ImageBytes, deal: Deal, high: nat)
    requires Serves(s) && Lively(Awake(s), image, deal, high, deal.spare)
    ensures LivelyService(s, image, deal, high, deal.spare) && Awake(s).ram.rec == s.mode.ram.rec
  {
    hide Latest, FreeCount, WellFormed, Budget, Written, OnGrid;
  }

  lemma CompletedIsCheckable(s: System, image: ImageBytes, deal: Deal, high: nat, room: nat)
    requires LivelyService(s, image, deal, high, room) && Completed(s, image)
    ensures Serves(s) && Checkable(Awake(s), image, deal)
  {
    LivelyServes(s, image, deal, high, room);
    hide FreeCount, Latest, WellFormed, Budget, Synced, Written, OnGrid;
  }

  // ---- Stage 4: VERIFY ----

  /** A latest record of this update that waits for its trial start, with the image in flash. */
  ghost predicate TrialAwaits(log: Log, flash: seq<byte>, image: ImageBytes, deal: Deal) {
    && WellFormed(log) && Flash.IsFlash(flash) && flash[..|image|] == image
    && Latest(log).Some?
    && var d := Latest(log).value;
       && d.state == PENDING_BOOT && d.error < 3 && IdOf(d) == deal.id && d.received == d.size == |image|
       && d.seqno <= deal.top
  }

  /** Verified, in the service loop, waiting for ACTIVATE. */
  ghost predicate Verified(b: Boot, image: ImageBytes, deal: Deal) {
    && b.ram.activity && b.ram.deferred == NoAction && b.ram.has && !b.ram.corrupt
    && TrialAwaits(b.log, b.flash, image, deal) && Latest(b.log) == Some(b.ram.rec)
  }

  lemma VerifyPends(b: Boot, req: Request, image: ImageBytes, deal: Deal)
    requires Checkable(b, image, deal) && Asks(req, VerifyImage, deal) && Crc32.Value(image) == deal.id.crc32
    ensures var (b', reply) := HandleVerify(b, req, NONE_FAIL);
            reply == OK && Verified(b', image, deal)
  {
    hide AppendState, FreeCount, Crc32.Value;
    var d := Latest(b.log).value;
    assert d == b.ram.rec;
    if State(b) == RECEIVING {
      StateAppended(b, VERIFYING, 0);
      StateAppended(AppendState(b, VERIFYING, 0, NO_FAULTS).0, PENDING_BOOT, 0);
    } else {
      StateAppended(b, PENDING_BOOT, 0);
    }
    hide Latest, WellFormed;
  }

  lemma VerifyPolls(b: Boot, req: Request, image: ImageBytes, deal: Deal, sent: bool)
    requires Checkable(b, image, deal) && Asks(req, VerifyImage, deal) && Crc32.Value(image) == deal.id.crc32
    ensures IsBoot(b) && Dispatch(b, req, NONE_FAIL).1 == Response(VerifyImage, OK, req.session, req.seqno, Received(b), NoBody)
    ensures var s' := Polled(b, req, sent); Serves(s') && Verified(Awake(s'), image, deal)
  {
    VerifyPends(b, req, image, deal);
    var b1 := HandleVerify(b, req, NONE_FAIL).0;
    PolledIs(b, req, sent);
    NothingDeferred(b1);
    VerifiedRests(b1, image, deal);
    hide HandleVerify, Latest, WellFormed, FreeCount, Updating, Verified, Polled, RunDeferred, Serves, Awake, InService;
  }

  lemma PendingVerifyIsQuiet(b: Boot, req: Request, image: ImageBytes, deal: Deal)
    requires Verified(b, image, deal) && Asks(req, VerifyImage, deal)
    ensures Quiet(b, req) && Dispatch(b, req, NONE_FAIL).1.reply == Busy
  {
    hide Latest, WellFormed;
  }

  lemma VerifiedRests(b: Boot, image: ImageBytes, deal: Deal)
    requires Verified(b, image, deal)
    ensures IsBoot(b) && Serves(InService(b)) && Awake(InService(b)) == b
  {
    hide Latest, WellFormed;
  }

  ghost predicate Verifies(s: System, image: ImageBytes, deal: Deal) {
    Serves(s) && (Checkable(Awake(s), image, deal) || Verified(Awake(s), image, deal))
  }

  ghost predicate VerifiedBy(s: System, image: ImageBytes, deal: Deal, r: Response) {
    (r.reply == OK || r.reply == Busy) && Serves(s) && Verified(Awake(s), image, deal)
  }

  lemma VerifyExchange(n: nat, s: System, req: Request, image: ImageBytes, deal: Deal, fate: Fate, version: u32)
    requires Verifies(s, image, deal) && Asks(req, VerifyImage, deal) && Crc32.Value(image) == deal.id.crc32
    requires Helps(fate, version)
    ensures IsSystem(s)
    ensures var (s', outcome) := Exchange(s, req, fate);
            if fate.delivery.Answered?
            then outcome.Answer? && outcome.response.command == req.command && outcome.response.seqno == req.seqno &&
                 VerifiedBy(s', image, deal, outcome.response)
            else outcome.NoAnswer? && Verifies(s', image, deal)
  {
    ServiceExchange(s, req, fate, version);
    AwakeIsBoot(s);
    var b := Awake(s);
    var sent := if fate.delivery.ResponseLost? then fate.delivery.sent else true;
    hide Exchange, Polled, Dispatch, Awake, InService, IsBoot, Checkable, Verified, Helps, Crc32.Value;
    if Checkable(b, image, deal) {
      VerifyPolls(b, req, image, deal, sent);
    } else {
      PendingVerifyIsQuiet(b, req, image, deal);
      QuietPolls(b, req, sent);
      VerifiedRests(b, image, deal);
    }
    hide Quiet, Asks, Serves;
  }

  /** VERIFY finds the image's CRC, however many of its frames get lost. */
  lemma VerifySettles(s: System, req: Request, image: ImageBytes, deal: Deal, fates: nat -> Fate, version: u32, clock: nat)
    requires Verifies(s, image, deal) && Asks(req, VerifyImage, deal) && Crc32.Value(image) == deal.id.crc32
    requires AnsweredWithin(fates, clock, MAX_RETRY_COUNT)
    ensures IsSystem(s)
    ensures var (s', clock', result) := Attempts(s, req, fates, clock, MAX_RETRY_COUNT, TimedOut);
            && clock < clock' <= clock + MAX_RETRY_COUNT
            && (Calm(fates, version, clock, clock') ==> result.Got? && VerifiedBy(s', image, deal, result.response))
  {
    var inv: (nat, System) -> bool := (n: nat, s: System) => Verifies(s, image, deal);
    var good: (nat, System, Response) -> bool := (n: nat, s: System, r: Response) => VerifiedBy(s, image, deal, r);
    forall n: nat, s: System | inv(n, s)
      ensures IsSystem(s) && (Helps(fates(n), version) ==> Settling(inv, good, n, s, req, fates(n)))
    {
      if Helps(fates(n), version) {
        VerifyExchange(n, s, req, image, deal, fates(n), version);
      }
      hide Exchange, VerifiedBy, Helps, Asks, Crc32.Value, Checkable, Verified, Awake;
    }
    hide Exchange, Verifies, VerifiedBy, Asks, Crc32.Value;
    Settles(inv, good, s, req, fates, version, clock, MAX_RETRY_COUNT, TimedOut);
  }

  // ---- Stage 5: ACTIVATE ----

  /** The image can run, and the journal has two numbers left for its trial start and confirmation. */
  predicate Runnable(image: ImageBytes, deal: Deal) {
    && |image| >= 8 && Startable(image[..8]) && deal.id.size == |image| && deal.id.session != 0
    && deal.top + 2 < 0xFFFF_FFFF
  }

  /** ACTIVATE takes effect when it arrives and its response leaves the device. */
  predicate Arrives(fate: Fate) {
    fate.delivery.Answered? || (fate.delivery.ResponseLost? && fate.delivery.sent)
  }

  lemma ActivatePolls(b: Boot, req: Request, image: ImageBytes, deal: Deal, sent: bool)
    requires Verified(b, image, deal) && Asks(req, Activate, deal)
    ensures IsBoot(b) && Dispatch(b, req, NONE_FAIL).1 == Response(Activate, OK, req.session, req.seqno, Received(b), NoBody)
    ensures Polled(b, req, sent) == if sent then System(b.log, b.flash, Off) else InService(b)
  {
    PolledIs(b, req, sent);
    hide Latest, WellFormed, Polled, TrialAwaits;
    assert b.ram.(deferred := NoAction) == b.ram;
  }

  /** The one ACTIVATE: it resets the device exactly if it arrives. */
  lemma ActivateSettles(s: System, req: Request, image: ImageBytes, deal: Deal, fates: nat -> Fate, version: u32, clock: nat)
    requires Serves(s) && Verified(Awake(s), image, deal) && Asks(req, Activate, deal) && Helps(fates(clock), version)
    ensures IsSystem(s)
    ensures var (s', clock', result) := Attempts(s, req, fates, clock, 1, TimedOut);
            && clock' == clock + 1
            && (result == Error(TimedOut) || (result.Got? && result.response.reply == OK))
            && (Arrives(fates(clock)) ==> s'.mode.Off? && TrialAwaits(s'.log, s'.flash, image, deal))
            && (!Arrives(fates(clock)) ==> Serves(s') && Verified(Awake(s'), image, deal))
  {
    var fate := fates(clock);
    ServiceExchange(s, req, fate, version);
    AwakeIsBoot(s);
    var b := Awake(s);
    ActivatePolls(b, req, image, deal, if fate.delivery.ResponseLost? then fate.delivery.sent else true);
    VerifiedRests(b, image, deal);
    hide Exchange, Polled, Dispatch, Awake, InService, IsBoot, TrialAwaits, Serves, Asks;
    var (s1, outcome) := Exchange(s, req, fate);
    assert Attempts(s1, req, fates, clock + 1, 0, TimedOut) == (s1, clock + 1, Error(TimedOut));
  }

  // ---- Stage 6: trial start and confirmation ----

  /** Off before the trial start (0), running on trial (1), confirmed (2). */
  ghost predicate InPhase(phase: nat, s: System, image: ImageBytes, deal: Deal) {
    && IsSystem(s) && s.flash[..|image|] == image
    && match phase
       case 0 => s.mode.Off? && TrialAwaits(s.log, s.flash, image, deal)
       case 1 =>
         && s.mode == App(deal.id.version, Waiting, false) && Latest(s.log).Some?
         && var d := Latest(s.log).value;
            IsTrialOf(d, deal.id.version) && IdOf(d) == deal.id && d.seqno <= deal.top + 1
       case 2 =>
         && s.mode == App(deal.id.version, Complete, false) && Latest(s.log).Some?
         && Latest(s.log).value.state == CONFIRMED && IdOf(Latest(s.log).value) == deal.id
       case _ => false
  }

  lemma TrialStarts(s: System, e: Event, image: ImageBytes, deal: Deal)
    requires InPhase(0, s, image, deal) && Runnable(image, deal) && e.PowerOn? && Harmless(e, deal.id.version)
    ensures InPhase(1, Step(s, e).0, image, deal)
  {
    var b := Boot(s.log, s.flash, InitRam(s.log));
    var d := Latest(s.log).value;
    LatestIsValid(s.log);
    VectorsOfImage(s.flash);
    assert s.flash[..8] == s.flash[..|image|][..8] == image[..8];
    DecisionIsExact(b, true, e.image, NO_FAULTS);
    assert AppendPossible(s.log, NO_FAULTS) && JournalStarts(s.log, NO_FAULTS);
    var r := Decide(b, true, e.image, NO_FAULTS);
    assert Step(s, e).0 == r by { hide Decide, IsAppValid, Latest, WellFormed, JournalStarts; }
    TrialWaitsExactly(r.log, true, deal.id.version);
    hide Step, IsAppValid, Latest, WellFormed, JournalStarts, AppendPossible, AppInit, Prepare, Startable;
  }

  lemma TrialConfirms(s: System, e: Event, image: ImageBytes, deal: Deal)
    requires InPhase(1, s, image, deal) && Runnable(image, deal) && e.ConfirmDelay? && Harmless(e, deal.id.version)
    ensures InPhase(2, Step(s, e).0, image, deal)
  {
    ConfirmsExactly(s, NONE_FAIL, Latest(s.log).value);
    hide Step, Latest, FreeCount, WellFormed, Startable;
  }

  lemma PhaseStays(phase: nat, s: System, e: Event, image: ImageBytes, deal: Deal)
    requires InPhase(phase, s, image, deal) && Harmless(e, deal.id.version)
    requires phase == 0 ==> !e.PowerOn?
    requires phase == 1 ==> !e.ConfirmDelay?
    ensures Step(s, e).0 == s
  {
    hide Latest, WellFormed, TrialAwaits;
  }

  /** Harmless events only ever lead on. */
  lemma {:induction false} PhaseAdvances(phase: nat, s: System, events: seq<Event>, image: ImageBytes, deal: Deal)
    returns (phase': nat)
    requires InPhase(phase, s, image, deal) && Runnable(image, deal)
    requires forall i | 0 <= i < |events| :: Harmless(events[i], deal.id.version)
    ensures phase <= phase' <= 2 && IsSystem(s) && InPhase(phase', Steps(s, events), image, deal)
    ensures phase == 0 && (exists i :: 0 <= i < |events| && events[i].PowerOn?) ==> phase' >= 1
    ensures phase == 1 && (exists i :: 0 <= i < |events| && events[i].ConfirmDelay?) ==> phase' == 2
    decreases |events|
  {
    assert phase <= 2;
    phase' := phase;
    if events != [] {
      var e := events[0];
      assert Harmless(e, deal.id.version);
      var next := if phase == 0 && e.PowerOn? then 1 else if phase == 1 && e.ConfirmDelay? then 2 else phase;
      assert InPhase(next, Step(s, e).0, image, deal) by {
        hide InPhase, Step;
        if phase == 0 && e.PowerOn? {
          TrialStarts(s, e, image, deal);
        } else if phase == 1 && e.ConfirmDelay? {
          TrialConfirms(s, e, image, deal);
        } else {
          PhaseStays(phase, s, e, image, deal);
        }
      }
      hide Step, TrialAwaits, Latest, WellFormed;
      phase' := PhaseAdvances(next, Step(s, e).0, events[1..], image, deal);
    }
  }

  /** HELLO and GET_INFO, as the gateway sends them. */
  predicate Probes(req: Request) { (req.command == Hello || req.command == GetInfo) && IsBare(req) }

  /** What the running application answers. */
  function AppAnswer(req: Request, version: u32, state: u16): Response {
    Response(req.command, OK, req.session, req.seqno, 0,
             if req.command == Hello then HelloBody(false, true, MAX_PAYLOAD)
             else InfoBody(PRODUCT_ID, HARDWARE_ID, version, APP_MAX_SIZE, state, false))
  }

  lemma ProbeStep(phase: nat, s: System, req: Request, sent: bool, image: ImageBytes, deal: Deal)
    requires InPhase(phase, s, image, deal) && Probes(req)
    ensures Step(s, Receive(req, sent, NONE_FAIL)) ==
            (s, if phase > 0 && sent
                then Some(AppAnswer(req, deal.id.version, if phase == 2 then CONFIRMED else PENDING_BOOT))
                else None)
  {
    hide Latest, WellFormed, TrialAwaits, AppEnterBoot;
  }

  /** A probe changes nothing; it is answered when it gets through to a running application. */
  lemma ProbeExchange(phase: nat, s: System, req: Request, fate: Fate, image: ImageBytes, deal: Deal)
    returns (phase': nat)
    requires InPhase(phase, s, image, deal) && Runnable(image, deal) && Probes(req) && Helps(fate, deal.id.version)
    ensures phase <= phase' <= 2 && IsSystem(s)
    ensures phase == 0 && Powers(fate) ==> phase' >= 1
    ensures phase == 1 && Confirms(fate) ==> phase' == 2
    ensures var (s', outcome) := Exchange(s, req, fate);
            && InPhase(phase', s', image, deal)
            && outcome == if fate.delivery.Answered? && phase' > 0
                          then Answer(AppAnswer(req, deal.id.version, if phase' == 2 then CONFIRMED else PENDING_BOOT))
                          else NoAnswer(TimedOut)
  {
    phase' := PhaseAdvances(phase, s, fate.before, image, deal);
    var ready := Steps(s, fate.before);
    ProbeStep(phase', ready, req, if fate.delivery.ResponseLost? then fate.delivery.sent else true, image, deal);
    hide Step, Steps, InPhase, AppAnswer, Runnable, IsSystem, Harmless;
  }

  /** On trial with the end of the delay still to come at exchange `due`, or confirmed. */
  ghost predicate Runs(n: nat, s: System, image: ImageBytes, deal: Deal, fates: nat -> Fate, due: nat) {
    (InPhase(1, s, image, deal) && n <= due && Confirms(fates(due))) || InPhase(2, s, image, deal)
  }

  /** GET_INFO tells whether the application is on trial or confirmed. */
  ghost predicate InformedBy(n: nat, s: System, image: ImageBytes, deal: Deal, due: nat, req: Request, r: Response) {
    || (InPhase(1, s, image, deal) && n <= due && r == AppAnswer(req, deal.id.version, PENDING_BOOT))
    || (InPhase(2, s, image, deal) && r == AppAnswer(req, deal.id.version, CONFIRMED))
  }

  lemma InfoExchange(n: nat, s: System, req: Request, image: ImageBytes, deal: Deal, fates: nat -> Fate, due: nat)
    requires Runs(n, s, image, deal, fates, due) && Runnable(image, deal) && Probes(req) && Helps(fates(n), deal.id.version)
    ensures IsSystem(s)
    ensures var (s', outcome) := Exchange(s, req, fates(n));
            if fates(n).delivery.Answered?
            then outcome.Answer? && outcome.response.command == req.command && outcome.response.seqno == req.seqno &&
                 InformedBy(n + 1, s', image, deal, due, req, outcome.response)
            else outcome.NoAnswer? && Runs(n + 1, s', image, deal, fates, due)
  {
    hide InPhase, Exchange, Helps, Confirms, Powers, Probes;
    var phase := if InPhase(2, s, image, deal) then 2 else 1;
    var phase' := ProbeExchange(phase, s, req, fates(n), image, deal);
  }

  lemma RunningIsSystem(n: nat, s: System, image: ImageBytes, deal: Deal, fates: nat -> Fate, due: nat)
    requires Runs(n, s, image, deal, fates, due)
    ensures IsSystem(s)
  {
    hide Latest, WellFormed, TrialAwaits, Confirms;
  }

  lemma InfoSettles(s: System, req: Request, image: ImageBytes, deal: Deal, fates: nat -> Fate, due: nat, clock: nat)
    requires Runs(clock, s, image, deal, fates, due) && Runnable(image, deal) && Probes(req)
    requires AnsweredWithin(fates, clock, MAX_RETRY_COUNT)
    ensures IsSystem(s)
    ensures var (s', clock', result) := Attempts(s, req, fates, clock, MAX_RETRY_COUNT, TimedOut);
            && clock < clock' <= clock + MAX_RETRY_COUNT
            && (Calm(fates, deal.id.version, clock, clock') ==>
                  result.Got? && InformedBy(clock', s', image, deal, due, req, result.response))
  {
    var inv: (nat, System) -> bool := (n: nat, s: System) => Runs(n, s, image, deal, fates, due);
    var good: (nat, System, Response) -> bool := (n: nat, s: System, r: Response) => InformedBy(n, s, image, deal, due, req, r);
    forall n: nat, s: System | inv(n, s)
      ensures IsSystem(s) && (Helps(fates(n), deal.id.version) ==> Settling(inv, good, n, s, req, fates(n)))
    {
      RunningIsSystem(n, s, image, deal, fates, due);
      if Helps(fates(n), deal.id.version) {
        InfoExchange(n, s, req, image, deal, fates, due);
      }
      hide Exchange, Runs, InformedBy, Helps, Probes;
    }
    hide Exchange, Runs, InformedBy, Probes;
    Settles(inv, good, s, req, fates, deal.id.version, clock, MAX_RETRY_COUNT, TimedOut);
  }

  // ---- The upgrade task's calls ----

  /** HELLO, GET_INFO and QUERY change nothing. */
  lemma ReadsAreQuiet(b: Boot, req: Request)
    requires IsBoot(b) && b.ram.activity && b.ram.deferred == NoAction && IsBare(req)
    requires req.command == Hello || req.command == GetInfo || req.command == Query
    ensures Quiet(b, req)
  {
    hide WellFormed;
  }

  /** An admissible START inside a session changes nothing either. */
  lemma StartInSessionIsQuiet(b: Boot, req: Request)
    requires IsBoot(b) && b.ram.activity && b.ram.deferred == NoAction && b.ram.has && InSession(State(b))
    requires req.command == Start && Admissible(req)
    ensures Quiet(b, req) && Dispatch(b, req, NONE_FAIL).1.reply == HandleStart(b, req, NONE_FAIL).reply
  {
    StartInSession(b, req, NONE_FAIL);
    hide HandleStart, Admissible, DecodeManifest, WellFormed;
  }

  /** A transaction that changes nothing, as the upgrade task calls it. */
  lemma QuietCall(w: Wire, b: Boot, fates: nat -> Fate, version: u32, command: Command, session: u32, payload: Payload,
                  attempts: nat)
    requires IsWire(w) && Rests(w.device, b) && Quiet(b, Request(command, session, w.seqno, 0, payload))
    requires AnsweredWithin(fates, w.clock, attempts)
    ensures var (w', result) := Call(w, fates, command, session, 0, payload, attempts);
            && w.clock < w'.clock <= w.clock + attempts
            && (Calm(fates, version, w.clock, w'.clock) ==>
                  Rests(w'.device, b) &&
                  result == Got(Dispatch(b, Request(command, session, w.seqno, 0, payload), NONE_FAIL).1))
  {
    hide Attempts, Dispatch, Rests, Quiet, AnsweredWithin, Calm;
    QuietSettles(w.device, b, Request(command, session, w.seqno, 0, payload), fates, version, w.clock, attempts);
  }

  /** The same with a single attempt: answered or not, it changes nothing. */
  lemma QuietCallOnce(w: Wire, b: Boot, fates: nat -> Fate, version: u32, command: Command)
    requires IsWire(w) && Rests(w.device, b) && Quiet(b, Request(command, 0, w.seqno, 0, []))
    requires Helps(fates(w.clock), version)
    ensures var (w', result) := Call(w, fates, command, 0, 0, [], 1);
            && w'.clock == w.clock + 1 && Rests(w'.device, b)
            && result == if fates(w.clock).delivery.Answered?
                         then Got(Dispatch(b, Request(command, 0, w.seqno, 0, []), NONE_FAIL).1)
                         else Error(TimedOut)
  {
    var req := Request(command, 0, w.seqno, 0, []);
    QuietExchange(w.device, b, req, fates(w.clock), version);
    hide Exchange, Dispatch, Rests, Helps, IsSystem;
    var (s1, outcome) := Exchange(w.device, req, fates(w.clock));
    assert Attempts(s1, req, fates, w.clock + 1, 0, TimedOut) == (s1, w.clock + 1, Error(TimedOut));
  }

  /** An exchange that is answered is due within any five. */
  lemma {:induction false} AnswerIsDue(fates: nat -> Fate, clock: nat, attempts: nat) returns (due: nat)
    requires AnsweredWithin(fates, clock, attempts)
    ensures clock <= due < clock + attempts && fates(due).delivery.Answered?
    decreases attempts
  {
    if fates(clock).delivery.Answered? {
      due := clock;
    } else {
      due := AnswerIsDue(fates, clock + 1, attempts - 1);
    }
  }

  /** The device is somewhere between this update's START and its ACTIVATE, with room for the rest. */
  ghost predicate Deliverable(s: System, image: ImageBytes, deal: Deal) {
    && Serves(s) && deal.id.size == |image| && Crc32.Value(image) == deal.id.crc32
    && var b := Awake(s);
       || Requested(b, deal)
       || (exists high: nat :: Lively(b, image, deal, high, deal.spare))
       || (Checkable(b, image, deal) && State(b) == VERIFYING)
       || Verified(b, image, deal)
  }

  /** Every stage carries the update's identity. */
  lemma DeliverableTells(s: System, image: ImageBytes, deal: Deal)
    requires Deliverable(s, image, deal)
    ensures Serves(s) && IsBoot(Awake(s)) && Awake(s).ram.activity && Awake(s).ram.deferred == NoAction
    ensures Awake(s).ram.has && IdOf(Awake(s).ram.rec) == deal.id && deal.id.size == |image|
  {
    AwakeIsBoot(s);
    hide Latest, FreeCount, WellFormed, Budget, Synced, Written, OnGrid, TrialAwaits, Crc32.Value, Serves, Awake, IsBoot;
  }

  /** An idle bootloader with room for the package, or one that an update of this package left somewhere on its way. */
  ghost predicate Negotiable(s: System, image: ImageBytes, m: Manifest, deal: Deal) {
    && Serves(s) && |image| == m.size && Crc32.Value(image) == m.crc32 && deal.id == IdOfStart(deal.id.session, m)
    && (if InSession(State(Awake(s))) then Deliverable(s, image, deal)
        else Openable(Awake(s), m.size, deal.top, MAX_RETRY_COUNT) && deal.spare <= 3)
  }

  /** Both depend only on the bootloader at rest. */
  lemma SameAtRest(s: System, s': System, image: ImageBytes, m: Manifest, deal: Deal)
    requires Serves(s) && Rests(s', Awake(s))
    ensures Negotiable(s, image, m, deal) ==> Negotiable(s', image, m, deal)
    ensures Deliverable(s, image, deal) ==> Deliverable(s', image, deal)
    ensures RemoteState(s') == RemoteState(s)
  {
    hide Serves, Awake, Requested, Lively, Checkable, Verified, Openable, Crc32.Value;
  }

  /** START is answered OK, or BUSY by a session of this package that erases or verifies. */
  lemma StartCall(w: Wire, image: ImageBytes, m: Manifest, deal: Deal, fates: nat -> Fate)
    requires IsWire(w) && Negotiable(w.device, image, m, deal) && AnsweredWithin(fates, w.clock, MAX_RETRY_COUNT)
    requires Admissible(Request(Start, deal.id.session, w.seqno, 0, EncodeManifest(m)))
    ensures var (w', result) := Call(w, fates, Start, deal.id.session, 0, EncodeManifest(m), MAX_RETRY_COUNT);
            var state := RemoteState(w.device);
            && w.clock < w'.clock
            && (Calm(fates, m.version, w.clock, w'.clock) ==>
                  && result.Got? && Deliverable(w'.device, image, deal)
                  && (result.response.reply == OK ||
                      (result.response.reply == Busy && (state == ERASING || state == VERIFYING))))
  {
    var req := Request(Start, deal.id.session, w.seqno, 0, EncodeManifest(m));
    ManifestRoundTrip(m);
    hide DecodeManifest, EncodeManifest, Admissible, Attempts, Dispatch, Openable, Requested, Lively, Crc32.Value, IsBoot,
         IsSystem, Checkable, Verified, HandleStart, Calm, AnsweredWithin;
    var b := Awake(w.device);
    if InSession(State(b)) {
      DeliverableTells(w.device, image, deal);
      AdmissibleFields(req, m);
      StartInSession(b, req, NONE_FAIL);
      StartInSessionIsQuiet(b, req);
      hide Serves, Awake, Quiet, Call;
      QuietCall(w, b, fates, m.version, Start, deal.id.session, EncodeManifest(m), MAX_RETRY_COUNT);
    } else {
      hide Serves, Awake;
      StartSettles(w.device, req, m, deal, fates, w.clock);
    }
  }

  lemma AdmissibleFields(req: Request, m: Manifest)
    requires Admissible(req) && DecodeManifest(req.payload) == Some(m)
    ensures m.product == 1 && m.hardware == 1
  {
    hide DecodeManifest;
  }

  /** ERASE, called on a requested update or on a transfer in progress, leaves a transfer in progress. */
  lemma EraseCall(w: Wire, image: ImageBytes, deal: Deal, fates: nat -> Fate) returns (high: nat)
    requires IsWire(w) && Serves(w.device) && deal.id.size == |image|
    requires Requested(Awake(w.device), deal) || exists high: nat :: Lively(Awake(w.device), image, deal, high, deal.spare)
    requires AnsweredWithin(fates, w.clock, MAX_RETRY_COUNT)
    ensures var (w', result) := Call(w, fates, Erase, deal.id.session, 0, [], MAX_RETRY_COUNT);
            && w.clock < w'.clock
            && (Calm(fates, deal.id.version, w.clock, w'.clock) ==>
                  && result.Got? && (result.response.reply == OK || result.response.reply == Busy)
                  && Serves(w'.device) && Lively(Awake(w'.device), image, deal, high, deal.spare))
  {
    var req := Request(Erase, deal.id.session, w.seqno, 0, []);
    hide Lively, Requested, Attempts, Dispatch, Serves, Awake, IsSystem, Calm, AnsweredWithin;
    if Requested(Awake(w.device), deal) {
      high := 0;
      EraseSettles(w.device, req, image, deal, fates, deal.id.version, w.clock);
    } else {
      high :| Lively(Awake(w.device), image, deal, high, deal.spare);
      AwakeIsBoot(w.device);
      ReceivingEraseIsQuiet(Awake(w.device), req, image, deal, high);
      hide Call, IsBoot, Quiet;
      QuietCall(w, Awake(w.device), fates, deal.id.version, Erase, deal.id.session, [], MAX_RETRY_COUNT);
    }
  }

  /** What QUERY says of a transfer in progress. */
  lemma LivelyTells(b: Boot, image: ImageBytes, deal: Deal, high: nat, room: nat)
    requires Lively(b, image, deal, high, room)
    ensures IsBoot(b) && State(b) == RECEIVING && b.ram.rec.received <= |image|
    ensures Progress(b) == ProgressBody(RECEIVING, b.ram.rec.received, |image|, b.ram.rec.error)
  {
    hide Latest, FreeCount, WellFormed, Budget, Written, Synced;
  }

  /** VERIFY, called on a complete image, leaves it verified. */
  lemma VerifyCall(w: Wire, image: ImageBytes, deal: Deal, fates: nat -> Fate)
    requires IsWire(w) && Serves(w.device) && Checkable(Awake(w.device), image, deal) && Crc32.Value(image) == deal.id.crc32
    requires AnsweredWithin(fates, w.clock, MAX_RETRY_COUNT)
    ensures var (w', result) := Call(w, fates, VerifyImage, deal.id.session, 0, [], MAX_RETRY_COUNT);
            && w.clock < w'.clock
            && (Calm(fates, deal.id.version, w.clock, w'.clock) ==>
                  && result.Got? && (result.response.reply == OK || result.response.reply == Busy)
                  && Delivered(w'.device, image, deal))
  {
    hide Checkable, Attempts, Serves, Awake, IsSystem, Crc32.Value, Verified, Calm, AnsweredWithin;
    VerifySettles(w.device, Request(VerifyImage, deal.id.session, w.seqno, 0, []), image, deal, fates, deal.id.version, w.clock);
  }

  lemma VerifiedTells(b: Boot, image: ImageBytes, deal: Deal)
    requires Verified(b, image, deal)
    ensures IsBoot(b) && State(b) == PENDING_BOOT && b.ram.has && IdOf(b.ram.rec) == deal.id
  {
    hide Latest, WellFormed;
  }

  /** The state that QUERY reports. */
  ghost function RemoteState(s: System): u16 { if Serves(s) then State(Awake(s)) else EMPTY }

  /** The image is not there yet. */
  ghost predicate AsksErase(s: System) { RemoteState(s) != VERIFYING && RemoteState(s) != PENDING_BOOT }

  /** The state tells the stage. */
  lemma StageTells(s: System, image: ImageBytes, deal: Deal)
    requires Deliverable(s, image, deal)
    ensures RemoteState(s) == PENDING_BOOT ==> Delivered(s, image, deal)
    ensures RemoteState(s) == VERIFYING ==> Serves(s) && Checkable(Awake(s), image, deal)
    ensures AsksErase(s) ==>
              Serves(s) && (Requested(Awake(s), deal) || exists high: nat :: Lively(Awake(s), image, deal, high, deal.spare))
    ensures deal.id.size == |image| && Crc32.Value(image) == deal.id.crc32
  {
    hide Latest, FreeCount, WellFormed, Budget, Synced, Written, OnGrid, Awake, Serves, Crc32.Value;
  }

  /** The update is verified and waits for ACTIVATE in the service loop. */
  ghost predicate Delivered(s: System, image: ImageBytes, deal: Deal) {
    Serves(s) && Verified(Awake(s), image, deal)
  }

  // ---- Waiting for the application ----

  /** Enough polls are left for what is due: the power-on, the end of the confirmation delay, an answer. */
  ghost predicate OnCourse(phase: nat, s: System, clock: nat, due: nat, left: nat, image: ImageBytes, deal: Deal,
                           fates: nat -> Fate, patience: nat) {
    && InPhase(phase, s, image, deal) && clock <= due
    && match phase
       case 0 => Powers(fates(due)) && left > due - clock + patience + MAX_RETRY_COUNT
       case 1 => Confirms(fates(due)) && left > due - clock + MAX_RETRY_COUNT
       case _ => fates(due).delivery.Answered? && left > due - clock
  }

  /** What is due next, from this exchange on. */
  lemma NextIsDue(phase: nat, s: System, clock: nat, left: nat, image: ImageBytes, deal: Deal, fates: nat -> Fate, patience: nat)
    returns (due: nat)
    requires InPhase(phase, s, image, deal) && phase <= 2 && Fair(fates, patience)
    requires left >= (2 - phase) * patience + MAX_RETRY_COUNT
    ensures OnCourse(phase, s, clock, due, left, image, deal, fates, patience)
  {
    hide InPhase, Powers, Confirms, AnsweredWithin;
    if phase == 0 {
      assert PowersSoon(fates, clock, patience);
      due :| clock <= due < clock + patience && Powers(fates(due));
    } else if phase == 1 {
      assert ConfirmsSoon(fates, clock, patience);
      due :| clock <= due < clock + patience && Confirms(fates(due));
    } else {
      due := AnswerIsDue(fates, clock, MAX_RETRY_COUNT);
    }
  }

  /** One HELLO: unanswered, the task stays on course with a poll less; answered, the application runs. */
  lemma HelloRound(phase: nat, w: Wire, due: nat, left: nat, image: ImageBytes, deal: Deal, fates: nat -> Fate, patience: nat)
    returns (phase': nat, due': nat)
    requires IsWire(w) && OnCourse(phase, w.device, w.clock, due, left, image, deal, fates, patience)
    requires Runnable(image, deal) && Fair(fates, patience) && Helps(fates(w.clock), deal.id.version)
    ensures var (w', result) := Call(w, fates, Hello, 0, 0, [], 1);
            && (result.Error? ==> OnCourse(phase', w'.device, w'.clock, due', left - 1, image, deal, fates, patience))
            && (result.Got? ==>
                  && result.response.reply == OK && result.response.body == HelloBody(false, true, MAX_PAYLOAD)
                  && Runs(w'.clock, w'.device, image, deal, fates, due')
                  && (InPhase(1, w'.device, image, deal) ==> left - 1 > due' - w'.clock + MAX_RETRY_COUNT))
  {
    var req := Request(Hello, 0, w.seqno, 0, []);
    var fate := fates(w.clock);
    assert phase <= 2;
    hide Fair;
    phase' := ProbeExchange(phase, w.device, req, fate, image, deal);
    PhasesDiffer(Exchange(w.device, req, fate).0, image, deal);
    hide Exchange, InPhase, Powers, Confirms, Helps, IsSystem, Runnable;
    var (s', outcome) := Exchange(w.device, req, fate);
    assert Attempts(s', req, fates, w.clock + 1, 0, TimedOut) == (s', w.clock + 1, Error(TimedOut));
    if phase' == phase && due > w.clock {
      due' := due;
    } else if phase' == phase {
      due' := due;
      assert phase == 2 && fate.delivery.Answered?;
    } else {
      due' := NextIsDue(phase', s', w.clock + 1, left - 1, image, deal, fates, patience);
    }
  }

  lemma PhasesDiffer(s: System, image: ImageBytes, deal: Deal)
    ensures !(InPhase(1, s, image, deal) && InPhase(2, s, image, deal))
  {
    hide Latest, WellFormed, TrialAwaits;
  }

  lemma TrialIsPhase(s: System, image: ImageBytes, deal: Deal)
    ensures IsSystem(s) && s.mode.Off? && TrialAwaits(s.log, s.flash, image, deal) ==> InPhase(0, s, image, deal)
  {
  }

  // ---- Looking for the bootloader ----

  /** An application that has not been asked yet. */
  ghost predicate AppReady(s: System, size: u32, top: nat) {
    AppOpen(s, size, top, 2 * MAX_RETRY_COUNT) && !s.mode.resetPending
  }

  /** The search is on its way: enough polls are left for the answer that is due, and for asking the application. */
  ghost predicate Searching(entered: bool, s: System, clock: nat, due: nat, left: nat, size: u32, top: nat, fates: nat -> Fate) {
    && clock <= due && fates(due).delivery.Answered?
    && if entered then Entered(s, size, top) && left > due - clock
       else AppReady(s, size, top) && left > due - clock + MAX_RETRY_COUNT
  }

  lemma SearchBegins(s: System, clock: nat, polls: nat, size: u32, top: nat, fates: nat -> Fate)
    returns (due: nat)
    requires AppReady(s, size, top) && AnsweredWithin(fates, clock, MAX_RETRY_COUNT) && polls >= 2 * MAX_RETRY_COUNT
    ensures Searching(false, s, clock, due, polls, size, top, fates)
  {
    hide AppReady;
    due := AnswerIsDue(fates, clock, MAX_RETRY_COUNT);
  }

  /** One HELLO of the search: unanswered, it costs a poll; answered, it tells bootloader from application. */
  lemma SearchRound(entered: bool, w: Wire, due: nat, left: nat, size: u32, top: nat, fates: nat -> Fate, version: u32)
    requires IsWire(w) && Searching(entered, w.device, w.clock, due, left, size, top, fates)
    requires Helps(fates(w.clock), version) && PromptPower(fates)
    ensures var (w', result) := Call(w, fates, Hello, 0, 0, [], 1);
            && (result.Error? ==> Searching(entered, w'.device, w'.clock, due, left - 1, size, top, fates))
            && (result.Got? ==>
                  && result.response.reply == OK
                  && if entered
                     then result.response.body == HelloBody(true, false, MAX_PAYLOAD) &&
                          Serves(w'.device) && Openable(Awake(w'.device), size, top, MAX_RETRY_COUNT)
                     else result.response.body == HelloBody(false, true, MAX_PAYLOAD) &&
                          AppReady(w'.device, size, top) && left - 1 >= MAX_RETRY_COUNT)
  {
    assert Powers(fates(w.clock));
    hide Call, Helps, Powers, AppOpen, IsSystem, Openable, Serves, Awake;
    if entered {
      EnteredHello(w, size, top, fates, version);
    } else {
      AppHello(w, size, top, 2 * MAX_RETRY_COUNT, fates, version);
    }
  }

  /** ENTER_BOOT puts the search on the way to the bootloader. */
  lemma EnterCall(w: Wire, session: u32, left: nat, size: u32, top: nat, fates: nat -> Fate, version: u32, patience: nat)
    returns (due: nat)
    requires IsWire(w) && AppReady(w.device, size, top) && left >= MAX_RETRY_COUNT
    requires Fair(fates, patience) && PromptPower(fates)
    ensures var (w', result) := Call(w, fates, EnterBoot, session, 0, [], MAX_RETRY_COUNT);
            && w.clock < w'.clock
            && (Calm(fates, version, w.clock, w'.clock) ==>
                  && result.Got? && result.response.reply == OK
                  && Searching(true, w'.device, w'.clock, due, left, size, top, fates))
  {
    var req := Request(EnterBoot, session, w.seqno, 0, []);
    EnterSettles(w.device, req, size, top, fates, version, w.clock);
    hide Attempts, Entered, AppOpen, Calm, IsSystem;
    var clock' := Attempts(w.device, req, fates, w.clock, MAX_RETRY_COUNT, TimedOut).1;
    due := AnswerIsDue(fates, clock', MAX_RETRY_COUNT);
  }
}
