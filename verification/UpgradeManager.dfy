/** The gateway's upgrade task, from discovery to the confirmation of the new application. */
module UpgradeManager {
  import opened Types
  import opened Messages
  import opened Device
  import opened Link
  import opened UpgradeClient
  import opened Soundness
  import opened Transfer
  import opened Journey
  import opened ByteOrder
  import opened Admission
  import opened ExactlyOnce
  import opened TransferProgress
  import opened Completion
  import MetadataLog
  import Cache = FirmwareStore

  const NODE_ADDRESS: byte := 1

  /** What START says about the cached package. */
  function LocalManifest(h: Cache.Raw): Manifest {
    Manifest(Cache.Version(h), Cache.ImageSize(h), Cache.ImageCrc32(h),
             [Read32(h, 24), Read32(h, 28), Read32(h, 32), Read32(h, 36),
              Read32(h, 40), Read32(h, 44), Read32(h, 48), Read32(h, 52)],
             Cache.Product(h), Cache.Hardware(h))
  }

  /** START carries the header's own bytes: version, size and CRC-32, then the SHA-256, then product and hardware. */
  lemma StartCarriesTheHeader(h: Cache.Raw)
    ensures EncodeManifest(LocalManifest(h)) == h[8..20] + h[24..56] + h[20..24]
  {
    var m := LocalManifest(h);
    var ws := [m.version, m.size, m.crc32] + m.sha;
    var data := EncodeManifest(m);
    hide Words, Write16, Read16, Read32;
    WordsOfHeader(h, ws);
    Write16Read16(h, 20);
    Write16Read16(h, 22);
    assert h[20..24] == h[20..22] + h[22..24];
    assert data == h[8..20] + h[24..56] + (h[20..22] + h[22..24]);
  }

  lemma WordsOfHeader(h: Cache.Raw, ws: seq<u32>)
    requires ws == [Read32(h, 8), Read32(h, 12), Read32(h, 16), Read32(h, 24), Read32(h, 28), Read32(h, 32),
                    Read32(h, 36), Read32(h, 40), Read32(h, 44), Read32(h, 48), Read32(h, 52)]
    ensures Words(ws) == h[8..20] + h[24..56]
  {
    hide Read32, Write32;
    var bytes := h[8..20] + h[24..56];
    forall k: nat | k < 11
      ensures Write32(ws[k]) == bytes[4 * k..4 * k + 4]
    {
      if k < 3 {
        Write32Read32(h, 8 + 4 * k);
        SliceOfSlice(h, 8, 12, 4 * k, 4 * k + 4);
        assert bytes[4 * k..4 * k + 4] == h[8..20][4 * k..4 * k + 4];
      } else {
        Write32Read32(h, 12 + 4 * k);
        SliceOfSlice(h, 24, 32, 4 * k - 12, 4 * k - 8);
        assert bytes[4 * k..4 * k + 4] == h[24..56][4 * k - 12..4 * k - 8];
      }
    }
    WordsAreTheirBytes(ws, bytes);
  }

  lemma WordsAreTheirBytes(ws: seq<u32>, bytes: seq<byte>)
    requires |bytes| == 4 * |ws|
    requires forall k: nat | k < |ws| :: Write32(ws[k]) == bytes[4 * k..4 * k + 4]
    ensures Words(ws) == bytes
  {
    hide ByteOf;
    forall i: nat | i < |bytes|
      ensures Words(ws)[i] == bytes[i]
    {
      var k := i / 4;
      assert Write32(ws[k])[i % 4] == bytes[4 * k..4 * k + 4][i % 4];
    }
  }

  /** Every package that passes the header checks makes an admissible START. */
  lemma CheckedPackageIsAdmissible(h: Cache.Raw, partitionSize: nat, session: u32, seqno: u32)
    requires Cache.CheckManifest(h, partitionSize) == Cache.Ok && session != 0
    ensures Admissible(Request(Command.Start, session, seqno, 0, EncodeManifest(LocalManifest(h))))
  {
    hide EncodeManifest, Read32, Read16, Cache.Crc32.Value;
    assert FitsDevice(LocalManifest(h));
    EncodedIsAdmissible(LocalManifest(h), session, seqno);
  }

  /** So a device outside a session whose journal takes the update answers it OK. */
  lemma CheckedPackageIsAccepted(h: Cache.Raw, partitionSize: nat, session: u32, seqno: u32, b: Boot, f: Faults)
    requires Cache.CheckManifest(h, partitionSize) == Cache.Ok && session != 0
    requires IsBoot(b) && !InSession(State(b)) && JournalTakes(b.log, Cache.ImageSize(h), f)
    ensures HandleStart(b, Request(Command.Start, session, seqno, 0, EncodeManifest(LocalManifest(h))), f).reply == OK
  {
    CheckedPackageIsAdmissible(h, partitionSize, session, seqno);
    ManifestRoundTrip(LocalManifest(h));
    hide DecodeManifest, EncodeManifest, Admissible, Cache.CheckManifest, HandleStart;
    StartAcceptedExactly(b, Request(Command.Start, session, seqno, 0, EncodeManifest(LocalManifest(h))), f);
  }

  function StoreStatus(status: Cache.Status): Status {
    match status
    case Ok => Done
    case NotFound => Fail
    case InvalidState => InvalidState
    case InvalidSize => InvalidSize
    case InvalidResponse => InvalidResponse
    case NotSupported => NotSupported
    case InvalidCrc => InvalidCrc
    case FlashFailed => Fail
    case Failed => Fail
  }

  predicate RemoteIsActive(state: u16) {
    state == ERASING || state == RECEIVING || state == VERIFYING || state == PENDING_BOOT
  }

  /** The device is sound and, once a START was answered OK, on that update's journey. */
  ghost predicate Travels(s: System, id: Option<Identity>) {
    Sound(s) && (id.Some? ==> OnJourney(s, id.value))
  }

  lemma TransactionTravels(s: System, id: Option<Identity>, req: Request, fates: nat -> Fate, clock: nat, attempts: nat)
    requires Travels(s, id) && AllRelock(fates)
    requires id.Some? ==> Follows(Receive(req, true, NONE_FAIL))
    ensures var (s', _, result) := Attempts(s, req, fates, clock, attempts, TimedOut);
            && Travels(s', id)
            && (id.Some? && req.command == GetInfo && SaysConfirmed(result) ==> Confirmed(s', id.value))
  {
    AnyTransaction(s, req, fates, clock, attempts);
    if id.Some? {
      JourneyTransaction(s, id.value, req, fates, clock, attempts);
    }
    hide Sound, OnJourney, Attempts;
  }

  lemma TravelsIsSound(s: System, id: Option<Identity>)
    requires Travels(s, id)
    ensures Sound(s)
  {
  }

  const NO_RESPONSE: Response := Response(Hello, BadFrame, 0, 0, 0, NoBody)

  /** What the task makes of the result of a HELLO, a GET_INFO and a QUERY. */
  function HelloVerdict(result: Result): Option<Body> {
    if result.Error? || result.response.reply != OK || !result.response.body.HelloBody? then None
    else Some(result.response.body)
  }

  function InfoVerdict(result: Result): (Status, Response) {
    if result.Error? then (StatusOf(result.failure), NO_RESPONSE)
    else if result.response.reply == OK && !result.response.body.InfoBody? then (InvalidResponse, NO_RESPONSE)
    else (Done, result.response)
  }

  function QueryVerdict(result: Result): (Status, Response) {
    if result.Error? then (StatusOf(result.failure), NO_RESPONSE)
    else if result.response.reply != OK && result.response.reply != Busy then (InvalidResponse, result.response)
    else if !result.response.body.ProgressBody? then (InvalidResponse, result.response)
    else (Done, result.response)
  }

  // ---- What the service loop tells ----

  lemma ServiceAnswers(b: Boot, seqno: u32)
    requires IsBoot(b)
    ensures HelloVerdict(Got(Dispatch(b, Request(Hello, 0, seqno, 0, []), NONE_FAIL).1)) ==
            Some(HelloBody(true, false, MAX_PAYLOAD))
    ensures InfoVerdict(Got(Dispatch(b, Request(Command.GetInfo, 0, seqno, 0, []), NONE_FAIL).1)) ==
            (Done, Response(Command.GetInfo, OK, 0, seqno, Received(b),
                            InfoBody(PRODUCT_ID, HARDWARE_ID, if b.ram.has then b.ram.rec.version else 0, APP_MAX_SIZE,
                                     State(b), true)))
    ensures QueryVerdict(Got(Dispatch(b, Request(Command.Query, 0, seqno, 0, []), NONE_FAIL).1)) ==
            (Done, Response(Command.Query, if State(b) == ERASING then Busy else OK,
                            if b.ram.has then b.ram.rec.session else 0, seqno, Received(b), Progress(b)))
  {
    hide MetadataLog.WellFormed;
  }

  /** A poll of a resting bootloader: one exchange, answered or silent, and nothing changed. */
  lemma HelloPolled(w: Wire, b: Boot, fates: nat -> Fate, version: u32)
    requires IsWire(w) && Rests(w.device, b) && Helps(fates(w.clock), version)
    ensures var (w', result) := Call(w, fates, Hello, 0, 0, [], 1);
            && w'.clock == w.clock + 1 && Rests(w'.device, b)
            && HelloVerdict(result) == if fates(w.clock).delivery.Answered? then Some(HelloBody(true, false, MAX_PAYLOAD)) else None
  {
    AwakeIsBoot(w.device);
    ReadsAreQuiet(b, Request(Hello, 0, w.seqno, 0, []));
    ServiceAnswers(b, w.seqno);
    hide IsBoot, Dispatch, Call, Helps, Serves, Awake, Quiet, IsSystem;
    QuietCallOnce(w, b, fates, version, Hello);
  }

  lemma QueryPolled(w: Wire, b: Boot, fates: nat -> Fate, version: u32)
    requires IsWire(w) && Rests(w.device, b) && Helps(fates(w.clock), version)
    ensures IsBoot(b)
    ensures var (w', result) := Call(w, fates, Command.Query, 0, 0, [], 1);
            var (status, response) := QueryVerdict(result);
            && w'.clock == w.clock + 1 && Rests(w'.device, b)
            && (if fates(w.clock).delivery.Answered? then status == Done && response.body == Progress(b)
                else status == TimedOutStatus)
  {
    AwakeIsBoot(w.device);
    ReadsAreQuiet(b, Request(Command.Query, 0, w.seqno, 0, []));
    ServiceAnswers(b, w.seqno);
    hide IsBoot, Dispatch, Call, Helps, Serves, Awake, Quiet, IsSystem;
    QuietCallOnce(w, b, fates, version, Command.Query);
  }

  lemma QueryAnswered(w: Wire, b: Boot, fates: nat -> Fate, version: u32)
    requires IsWire(w) && Rests(w.device, b) && AnsweredWithin(fates, w.clock, MAX_RETRY_COUNT)
    requires Calm(fates, version, w.clock, Call(w, fates, Command.Query, 0, 0, [], MAX_RETRY_COUNT).0.clock)
    ensures IsBoot(b)
    ensures var (w', result) := Call(w, fates, Command.Query, 0, 0, [], MAX_RETRY_COUNT);
            var (status, response) := QueryVerdict(result);
            && w.clock < w'.clock && Rests(w'.device, b)
            && status == Done && response.body == Progress(b) && response.session == if b.ram.has then b.ram.rec.session else 0
  {
    AwakeIsBoot(w.device);
    ReadsAreQuiet(b, Request(Command.Query, 0, w.seqno, 0, []));
    ServiceAnswers(b, w.seqno);
    hide IsBoot, Dispatch, Call, Calm, Serves, Awake, Quiet, IsSystem, AnsweredWithin;
    QuietCall(w, b, fates, version, Command.Query, 0, [], MAX_RETRY_COUNT);
  }

  lemma InfoAnswered(w: Wire, b: Boot, fates: nat -> Fate, version: u32)
    requires IsWire(w) && Rests(w.device, b) && AnsweredWithin(fates, w.clock, MAX_RETRY_COUNT)
    requires Calm(fates, version, w.clock, Call(w, fates, Command.GetInfo, 0, 0, [], MAX_RETRY_COUNT).0.clock)
    ensures IsBoot(b)
    ensures var (w', result) := Call(w, fates, Command.GetInfo, 0, 0, [], MAX_RETRY_COUNT);
            var (status, response) := InfoVerdict(result);
            && w.clock < w'.clock && Rests(w'.device, b)
            && status == Done && response.reply == OK
            && response.body == InfoBody(PRODUCT_ID, HARDWARE_ID, if b.ram.has then b.ram.rec.version else 0, APP_MAX_SIZE,
                                         State(b), true)
  {
    AwakeIsBoot(w.device);
    ReadsAreQuiet(b, Request(Command.GetInfo, 0, w.seqno, 0, []));
    ServiceAnswers(b, w.seqno);
    hide IsBoot, Dispatch, Call, Calm, Serves, Awake, Quiet, IsSystem, AnsweredWithin;
    QuietCall(w, b, fates, version, Command.GetInfo, 0, [], MAX_RETRY_COUNT);
  }

  /** GET_INFO to a running application tells whether it is confirmed. */
  lemma InfoFromApp(w: Wire, image: ImageBytes, deal: Deal, fates: nat -> Fate, due: nat)
    requires IsWire(w) && Runs(w.clock, w.device, image, deal, fates, due) && Runnable(image, deal)
    requires AnsweredWithin(fates, w.clock, MAX_RETRY_COUNT)
    requires Calm(fates, deal.id.version, w.clock, Call(w, fates, Command.GetInfo, 0, 0, [], MAX_RETRY_COUNT).0.clock)
    ensures var (w', result) := Call(w, fates, Command.GetInfo, 0, 0, [], MAX_RETRY_COUNT);
            var (status, response) := InfoVerdict(result);
            && w.clock < w'.clock && status == Done && response.reply == OK
            && (exists state: u16 ::
                  && response.body == InfoBody(PRODUCT_ID, HARDWARE_ID, deal.id.version, APP_MAX_SIZE, state, false)
                  && (state == CONFIRMED || state == PENDING_BOOT)
                  && (state == CONFIRMED ==> InPhase(2, w'.device, image, deal))
                  && (state == PENDING_BOOT ==>
                        InPhase(1, w.device, image, deal) && InPhase(1, w'.device, image, deal) && w'.clock <= due))
  {
    hide Attempts, Runnable, Calm, InPhase, IsSystem, AnsweredWithin;
    var end := if InPhase(2, w.device, image, deal) then 0 else due;
    assert Runs(w.clock, w.device, image, deal, fates, end);
    hide Runs;
    InfoSettles(w.device, Request(Command.GetInfo, 0, w.seqno, 0, []), image, deal, fates, end, w.clock);
  }

  class Manager {
    const world: World
    const client: Client
    const store: Cache.Store
    /** How often the upgrade task still looks at the abort flag before an operator sets it. */
    var checksLeft: nat
    var sessionId: u32
    var transferredBytes: u32

    ghost predicate Valid()
      reads world, store
    {
      && world.Valid() && store.Valid() && client.address == NODE_ADDRESS
    }

    /** The cache was validated: it holds this package. */
    ghost predicate Validated()
      requires store.Valid()
      reads store, store.partition
    {
      && store.manifestValid && 0 < Cache.ImageSize(store.manifest) <= APP_MAX_SIZE
      && Cache.ImageMatches(store.Flash(), store.manifest)
    }

    ghost function CachedImage(): (image: ImageBytes)
      requires store.Valid() && Validated()
      reads store, store.partition
      ensures |image| == Cache.ImageSize(store.manifest)
    {
      store.Flash()[Cache.IMAGE_OFFSET..Cache.IMAGE_OFFSET + Cache.ImageSize(store.manifest)]
    }

    /** The last transaction up to here was a GET_INFO, answered for product and hardware 1: this version, CONFIRMED. */
    ghost predicate Heard(now: Wire, version: u32) {
      exists w: Wire :: IsWire(w) && SaysSo(Call(w, world.fates, Command.GetInfo, 0, 0, [], MAX_RETRY_COUNT), now, version)
    }

    static predicate SaysSo(said: (Wire, Result), now: Wire, version: u32) {
      && said.0 == now && said.1.Got? && said.1.response.reply == OK && said.1.response.body.InfoBody?
      && var body := said.1.response.body;
         body.product == 1 && body.hardware == 1 && body.version == version && body.state == CONFIRMED
    }

    /** The last transaction up to here was a QUERY, answered with this state. */
    ghost predicate HeardState(now: Wire, state: u16) {
      exists w: Wire ::
        IsWire(w) && SaysState(Call(w, world.fates, Command.Query, 0, 0, [], MAX_RETRY_COUNT), now, state)
    }

    static predicate SaysState(said: (Wire, Result), now: Wire, state: u16) {
      said.0 == now && said.1.Got? && said.1.response.body.ProgressBody? && said.1.response.body.bootState == state
    }

    /**
     * No transaction of this session runs out of attempts, and no exchange shows more than the resets
     * and the interrupted journal appends that a transfer bears, up to the last of them.
     */
    ghost predicate Prospect(session: u32, deal: Deal, patience: nat, last: nat) {
      && session == deal.id.session && Fair(world.fates, patience)
      && Friendly(world.fates, last) && TornAppends(world.fates, 0, last) <= deal.spare
    }

    /** The rounds that a transfer of this image may take. */
    ghost function RoundsFor(image: ImageBytes, last: nat): nat {
      Rounds(Troubles(world.fates, 0, last), |image|)
    }

    /** Nothing but frames failed between these clocks. */
    ghost predicate WasCalm(version: u32, from: nat, to: nat) { Calm(world.fates, version, from, to) }

    lemma CalmSplits(version: u32, from: nat, middle: nat, to: nat)
      requires from <= middle <= to
      ensures WasCalm(version, from, to) ==> WasCalm(version, from, middle) && WasCalm(version, middle, to)
    {
      CalmParts(world.fates, version, from, to, from, middle);
      CalmParts(world.fates, version, from, to, middle, to);
    }

    ghost function W(): (w: Wire)
      requires Valid()
      reads this, world, client, store
      ensures IsWire(w) && w.device == world.device && w.clock == world.clock
    {
      Wire(world.device, world.clock, client.nextSequence)
    }

    constructor (world: World, store: Cache.Store, checks: nat)
      requires world.Valid() && store.Valid()
      ensures Valid() && this.world == world && this.store == store && fresh(client)
      ensures checksLeft == checks && sessionId == 0
    {
      this.world, this.store := world, store;
      client := new Client(NODE_ADDRESS);
      checksLeft, sessionId, transferredBytes := checks, 0, 0;
    }

    method IsAborted() returns (aborted: bool)
      modifies this`checksLeft
      ensures aborted <==> old(checksLeft) == 0
      ensures checksLeft == if old(checksLeft) == 0 then 0 else old(checksLeft) - 1
    {
      aborted := checksLeft == 0;
      if !aborted { checksLeft := checksLeft - 1; }
    }

    method Transact(command: Command, session: u32, offset: u32, payload: Payload, attempts: nat) returns (result: Result)
      requires Valid() && attempts > 0
      modifies world, client
      ensures Valid()
      ensures (W(), result) == Call(old(W()), world.fates, command, session, offset, payload, attempts)
      ensures old(world.clock) < world.clock
    {
      hide Attempts, IsSystem, CanSend;
      AttemptsTick(world.device, Request(command, session, client.nextSequence, offset, payload), world.fates, world.clock,
                   attempts, TimedOut);
      ValidAddressCanSend(client.address, Request(command, session, client.nextSequence, offset, payload), attempts);
      result := client.Transact(world, command, session, offset, payload, attempts);
    }

    /** A transaction of the upgrade task: what Transact does, and where it leaves the update. */
    method Ask(command: Command, session: u32, payload: Payload, attempts: nat, ghost id: Option<Identity>)
      returns (result: Result)
      requires Valid() && attempts > 0 && AllRelock(world.fates) && Travels(world.device, id)
      requires id.Some? ==> command != Command.Start && command != EnterBoot && command != Abort && command != Data
      modifies world, client
      ensures Valid() && Travels(world.device, id)
      ensures (W(), result) == Call(old(W()), world.fates, command, session, 0, payload, attempts)
      ensures old(world.clock) < world.clock
      ensures id.Some? && command == Command.GetInfo && SaysConfirmed(result) ==> Confirmed(world.device, id.value)
      ensures command == Hello && SaysBootloader(result) ==> world.device.mode.Service?
      ensures command == Command.GetInfo ==> TellsKind(result)
      ensures result.Got? ==> result.response.command == command
    {
      hide Attempts, IsSystem, Travels, Confirmed, AllRelock, SaysBootloader, TellsKind;
      ghost var req := Request(command, session, client.nextSequence, 0, payload);
      TransactionTravels(world.device, id, req, world.fates, world.clock, attempts);
      AnswersMatch(world.device, req, world.fates, world.clock, attempts, TimedOut);
      TravelsIsSound(world.device, id);
      if command == Hello {
        HelloTransaction(world.device, req, world.fates, world.clock, attempts);
      } else if command == Command.GetInfo {
        InfoTransaction(world.device, req, world.fates, world.clock, attempts);
      }
      result := Transact(command, session, 0, payload, attempts);
    }

    method SendHello(ghost id: Option<Identity>) returns (hello: Option<Body>)
      requires Valid() && AllRelock(world.fates) && Travels(world.device, id)
      modifies world, client
      ensures Valid() && Travels(world.device, id) && old(world.clock) < world.clock
      ensures var (w, result) := Call(old(W()), world.fates, Hello, 0, 0, [], 1); W() == w && hello == HelloVerdict(result)
      ensures hello.Some? ==> hello.value.HelloBody? && (hello.value.bootloader ==> world.device.mode.Service?)
    {
      hide Travels, AllRelock, Attempts, IsSystem;
      var result := Ask(Hello, 0, [], 1, id);
      if result.Error? || result.response.reply != OK || !result.response.body.HelloBody? { return None; }
      return Some(result.response.body);
    }

    method GetInfo(ghost id: Option<Identity>) returns (status: Status, response: Response)
      requires Valid() && AllRelock(world.fates) && Travels(world.device, id)
      modifies world, client
      ensures Valid() && Travels(world.device, id) && old(world.clock) < world.clock
      ensures var (w, result) := Call(old(W()), world.fates, Command.GetInfo, 0, 0, [], MAX_RETRY_COUNT);
              W() == w && (status, response) == InfoVerdict(result)
      ensures status == Done && response.reply == OK ==> response.body.InfoBody?
      ensures status == Done && response.body.InfoBody? ==>
                response.body.product == PRODUCT_ID && response.body.hardware == HARDWARE_ID &&
                response.body.maxSize == APP_MAX_SIZE
      ensures id.Some? && status == Done && response.body.InfoBody? && response.body.state == CONFIRMED ==>
                Confirmed(world.device, id.value)
    {
      hide Travels, AllRelock, Attempts, IsSystem, Confirmed;
      var result := Ask(Command.GetInfo, 0, [], MAX_RETRY_COUNT, id);
      if result.Error? { return StatusOf(result.failure), NO_RESPONSE; }
      if result.response.reply == OK && !result.response.body.InfoBody? { return InvalidResponse, NO_RESPONSE; }
      return Done, result.response;
    }

    method Query(attempts: nat, ghost id: Option<Identity>) returns (status: Status, response: Response)
      requires Valid() && attempts > 0 && AllRelock(world.fates) && Travels(world.device, id)
      modifies world, client
      ensures Valid() && Travels(world.device, id) && old(world.clock) < world.clock
      ensures var (w, result) := Call(old(W()), world.fates, Command.Query, 0, 0, [], attempts);
              W() == w && (status, response) == QueryVerdict(result)
      ensures status == Done ==> response.body.ProgressBody?
    {
      hide Travels, AllRelock, Attempts, IsSystem;
      var result := Ask(Command.Query, 0, [], attempts, id);
      if result.Error? { return StatusOf(result.failure), NO_RESPONSE; }
      response := result.response;
      if response.reply != OK && response.reply != Busy { return InvalidResponse, response; }
      if !response.body.ProgressBody? { return InvalidResponse, response; }
      return Done, response;
    }

    /** Asks an application to make way; one that is ready for it is then on its way to the bootloader. */
    method EnterBootloader(session: u32, ghost version: u32, ghost patience: nat, ghost left: nat, ghost size: u32, ghost top: nat)
      returns (status: Status, ghost due: nat)
      requires Valid() && AllRelock(world.fates) && Travels(world.device, None)
      modifies world, client
      ensures Valid() && Travels(world.device, None) && old(world.clock) < world.clock
      ensures old(AppReady(world.device, size, top)) && Fair(world.fates, patience) && PromptPower(world.fates) &&
              WasCalm(version, old(world.clock), world.clock) && left >= MAX_RETRY_COUNT ==>
                status == Done && Searching(true, world.device, world.clock, due, left, size, top, world.fates)
    {
      hide Travels, AllRelock, Valid, W, IsWire, Call, AppReady, Fair, PromptPower, WasCalm, Searching;
      ghost var w := W();
      ghost var live := AppReady(world.device, size, top) && Fair(world.fates, patience) && PromptPower(world.fates) &&
                        left >= MAX_RETRY_COUNT;
      due := 0;
      if live { due := EnterCall(w, session, left, size, top, world.fates, version, patience); }
      var result := Ask(EnterBoot, session, [], MAX_RETRY_COUNT, None);
      if live && WasCalm(version, w.clock, world.clock) { EnteredHere(w, session, version, result); }
      status := if result.Error? then StatusOf(result.failure) else if result.response.reply != OK then InvalidResponse else Done;
    }

    /**
     * Looks for a bootloader; an application is asked once to enter it.  Under ordinary conditions the
     * search ends well within five polls from a bootloader, which it leaves alone, and within ten from
     * an application whose journal has room, if the device is back from its reset before the next request.
     */
    method FindBootloader(enterSession: u32, polls: nat, ghost version: u32, ghost patience: nat, ghost size: u32, ghost top: nat)
      returns (status: Status)
      requires Valid() && AllRelock(world.fates) && Travels(world.device, None)
      modifies this, world, client
      ensures Valid() && Travels(world.device, None) && sessionId == old(sessionId) && old(world.clock) <= world.clock
      ensures status == Done ==> world.device.mode.Service?
      ensures old(Serves(world.device)) && Fair(world.fates, patience) && WasCalm(version, old(world.clock), world.clock) &&
              polls >= MAX_RETRY_COUNT && old(checksLeft) >= polls ==>
                && status == Done && Serves(world.device) && Awake(world.device) == old(Awake(world.device))
                && checksLeft + polls >= old(checksLeft)
      ensures old(AppReady(world.device, size, top)) && Fair(world.fates, patience) && PromptPower(world.fates) &&
              WasCalm(version, old(world.clock), world.clock) && polls >= 2 * MAX_RETRY_COUNT && old(checksLeft) >= polls ==>
                && status == Done && Serves(world.device) && Openable(Awake(world.device), size, top, MAX_RETRY_COUNT)
                && checksLeft + polls >= old(checksLeft)
    {
      hide Travels, AllRelock, Valid, W, IsWire, Serves, Awake, HelloVerdict, Call, Openable, AppReady, Fair, PromptPower,
           WasCalm, StatusOf;
      ghost var w := W();
      ghost var start := w.clock;
      ghost var rested := Serves(world.device) && Fair(world.fates, patience) && polls >= MAX_RETRY_COUNT && checksLeft >= polls;
      ghost var asked := AppReady(world.device, size, top) && Fair(world.fates, patience) && PromptPower(world.fates) &&
                         polls >= 2 * MAX_RETRY_COUNT && checksLeft >= polls;
      ghost var resting, asking := rested, asked;
      ghost var due: nat, heard: nat := start, start;
      if resting { heard := HearsBy(polls, patience); }
      if asking { due := FirstAnswer(w, polls, size, top, patience); }
      var enterRequested := false;
      var left := polls;
      while left > 0
        invariant Valid() && Travels(world.device, None) && sessionId == old(sessionId) && start <= world.clock
        invariant rested || asked ==> checksLeft >= left && checksLeft + polls >= old(checksLeft) + left
        invariant rested && WasCalm(version, start, world.clock) ==> resting
        invariant asked && WasCalm(version, start, world.clock) ==> asking
        invariant resting ==> rested && Hearing(W(), old(Awake(world.device)), heard, left)
        invariant asking ==> asked && Searching(enterRequested, world.device, world.clock, due, left, size, top, world.fates)
      {
        hide Searching, Hearing;
        left := left - 1;
        var aborted := IsAborted();
        if aborted { return InvalidState; }
        w := W();
        var hello := SendHello(None);
        CalmSplits(version, start, w.clock, world.clock);
        resting, asking := resting && WasCalm(version, w.clock, world.clock), asking && WasCalm(version, w.clock, world.clock);
        if resting { RestingRound(w, old(Awake(world.device)), heard, left + 1, version, hello); }
        if asking { AskingRound(enterRequested, w, due, left + 1, size, top, version, hello); }
        if hello.Some? {
          if hello.value.maxPayload != MAX_PAYLOAD { return NotSupported; }
          if hello.value.bootloader { return Done; }
          if !hello.value.enterBoot { return NotSupported; }
          if !enterRequested {
            ghost var found := world.clock;
            status, due := EnterBootloader(enterSession, version, patience, left, size, top);
            CalmSplits(version, start, found, world.clock);
            resting, asking := false, asking && WasCalm(version, found, world.clock);
            if status != Done { return; }
            enterRequested := true;
          }
        }
      }
      return TimedOutStatus;
    }

    // ---- The rounds of the search ----

    /** A bootloader rests, and enough polls are left for the answer that is due. */
    ghost predicate Hearing(w: Wire, b: Boot, heard: nat, left: nat) {
      Rests(w.device, b) && w.clock <= heard < w.clock + left && world.fates(heard).delivery.Answered?
    }

    lemma HearsBy(left: nat, patience: nat) returns (heard: nat)
      requires Valid() && Serves(world.device) && Fair(world.fates, patience) && left >= MAX_RETRY_COUNT
      ensures Hearing(W(), Awake(world.device), heard, left)
    {
      hide Serves, Awake;
      heard := AnswerIsDue(world.fates, world.clock, MAX_RETRY_COUNT);
    }

    lemma FirstAnswer(w: Wire, polls: nat, size: u32, top: nat, patience: nat) returns (due: nat)
      requires AppReady(w.device, size, top) && Fair(world.fates, patience) && polls >= 2 * MAX_RETRY_COUNT
      ensures Searching(false, w.device, w.clock, due, polls, size, top, world.fates)
    {
      hide AppReady, Searching;
      due := SearchBegins(w.device, w.clock, polls, size, top, world.fates);
    }

    lemma CalmHere(version: u32, clock: nat)
      requires WasCalm(version, clock, clock + 1)
      ensures Helps(world.fates(clock), version)
    {
    }

    lemma EnteredHere(w: Wire, session: u32, version: u32, result: Result)
      requires Valid() && IsWire(w) && WasCalm(version, w.clock, world.clock)
      requires (W(), result) == Call(w, world.fates, EnterBoot, session, 0, [], MAX_RETRY_COUNT)
      ensures Calm(world.fates, version, w.clock, Call(w, world.fates, EnterBoot, session, 0, [], MAX_RETRY_COUNT).0.clock)
    {
      hide Call, Calm, IsSystem;
    }

    lemma RestingRound(w: Wire, b: Boot, heard: nat, left: nat, version: u32, hello: Option<Body>)
      requires Valid() && IsWire(w) && Hearing(w, b, heard, left)
      requires WasCalm(version, w.clock, world.clock) && w.clock < world.clock
      requires var (w', result) := Call(w, world.fates, Hello, 0, 0, [], 1); W() == w' && hello == HelloVerdict(result)
      ensures hello.None? ==> left > 0 && Hearing(W(), b, heard, left - 1)
      ensures hello.Some? ==>
                && hello.value == HelloBody(true, false, MAX_PAYLOAD)
                && Serves(world.device) && Awake(world.device) == b
    {
      CalmSplits(version, w.clock, w.clock + 1, world.clock);
      CalmHere(version, w.clock);
      hide Helps, Call, IsSystem, HelloVerdict, Serves, Awake, WasCalm;
      HelloPolled(w, b, world.fates, version);
    }

    lemma AskingRound(entered: bool, w: Wire, due: nat, left: nat, size: u32, top: nat, version: u32, hello: Option<Body>)
      requires Valid() && IsWire(w) && Searching(entered, w.device, w.clock, due, left, size, top, world.fates)
      requires PromptPower(world.fates) && WasCalm(version, w.clock, world.clock) && w.clock < world.clock
      requires var (w', result) := Call(w, world.fates, Hello, 0, 0, [], 1); W() == w' && hello == HelloVerdict(result)
      ensures hello.None? ==> Searching(entered, world.device, world.clock, due, left - 1, size, top, world.fates)
      ensures hello.Some? && entered ==>
                && hello.value == HelloBody(true, false, MAX_PAYLOAD)
                && Serves(world.device) && Openable(Awake(world.device), size, top, MAX_RETRY_COUNT)
      ensures hello.Some? && !entered ==>
                hello.value == HelloBody(false, true, MAX_PAYLOAD) && AppReady(world.device, size, top) && left - 1 >= MAX_RETRY_COUNT
    {
      CalmSplits(version, w.clock, w.clock + 1, world.clock);
      CalmHere(version, w.clock);
      hide Helps, PromptPower, Call, IsSystem, Serves, Awake, Openable, AppReady, Searching, WasCalm;
      SearchRound(entered, w, due, left, size, top, world.fates, version);
    }

    /** A bootloader at rest whose erase has ended, well or badly. */
    ghost predicate EraseIsOver(s: System) {
      Serves(s) && (State(Awake(s)) == RECEIVING || State(Awake(s)) == FAILED)
    }

    /** Waits until the device says that the erase is over. */
    method PollErase(polls: nat, ghost id: Option<Identity>, ghost version: u32, ghost patience: nat)
      returns (status: Status, remote: Body)
      requires Valid() && AllRelock(world.fates) && Travels(world.device, id)
      modifies this, world, client
      ensures Valid() && Travels(world.device, id) && sessionId == old(sessionId) && old(world.clock) <= world.clock
      ensures status == Done ==> remote.ProgressBody? && remote.bootState == RECEIVING
      ensures old(EraseIsOver(world.device)) && Fair(world.fates, patience) && WasCalm(version, old(world.clock), world.clock) &&
              polls >= MAX_RETRY_COUNT && old(checksLeft) >= polls ==>
                && status == (if old(State(Awake(world.device))) == FAILED then Fail else Done)
                && remote == Progress(old(Awake(world.device)))
                && Serves(world.device) && Awake(world.device) == old(Awake(world.device))
                && checksLeft + polls >= old(checksLeft)
    {
      hide Travels, AllRelock, Valid, W, IsWire, Serves, Awake, QueryVerdict, Fair, Call, WasCalm;
      ghost var start, hoped := world.clock, EraseIsOver(world.device) && Fair(world.fates, patience) &&
                                             polls >= MAX_RETRY_COUNT && checksLeft >= polls;
      ghost var live, heard: nat := hoped, start;
      if live { heard := HearsBy(polls, patience); }
      remote := NoBody;
      var left := polls;
      while left > 0
        invariant Valid() && Travels(world.device, id) && sessionId == old(sessionId) && start <= world.clock
        invariant hoped ==> checksLeft >= left && checksLeft + polls >= old(checksLeft) + left
        invariant hoped && WasCalm(version, start, world.clock) ==> live
        invariant live ==> hoped && Hearing(W(), old(Awake(world.device)), heard, left)
      {
        hide Hearing;
        left := left - 1;
        var aborted := IsAborted();
        if aborted { return InvalidState, remote; }
        ghost var w := W();
        var answer;
        status, answer := Query(1, id);
        CalmSplits(version, start, w.clock, world.clock);
        live := live && WasCalm(version, w.clock, world.clock);
        if live { PollRound(w, old(Awake(world.device)), heard, left + 1, version, status, answer); }
        if status == Done {
          remote := answer.body;
          if remote.bootState == RECEIVING { return Done, remote; }
          if remote.bootState == FAILED { return Fail, remote; }
        } else if status != TimedOutStatus {
          return status, remote;
        }
      }
      return TimedOutStatus, remote;
    }

    lemma PollRound(w: Wire, b: Boot, heard: nat, left: nat, version: u32, status: Status, answer: Response)
      requires Valid() && IsWire(w) && Hearing(w, b, heard, left)
      requires WasCalm(version, w.clock, world.clock) && w.clock < world.clock
      requires var (w', result) := Call(w, world.fates, Command.Query, 0, 0, [], 1);
               W() == w' && (status, answer) == QueryVerdict(result)
      ensures IsBoot(b) && Serves(world.device) && Awake(world.device) == b
      ensures if status == Done then answer.body == Progress(b)
              else status == TimedOutStatus && left > 0 && Hearing(W(), b, heard, left - 1)
    {
      CalmSplits(version, w.clock, w.clock + 1, world.clock);
      CalmHere(version, w.clock);
      hide Helps, Call, IsSystem, QueryVerdict, Serves, Awake, WasCalm;
      QueryPolled(w, b, world.fates, version);
    }

    /** Where the answer to a chunk leads: on, back or ahead to the offset it names, or to an error. */
    static method JudgeAnswer(result: Result, sequence: u32, offset: u32, size: u32) returns (move: Move)
      ensures move == Judge(result, sequence, offset, size)
    {
      if result.Error? { return Stop(StatusOf(result.failure)); }
      var response := result.response;
      if !response.body.AckBody? || response.body.acceptedSeqno != sequence { return Stop(InvalidResponse); }
      var ack := response.body;
      if response.reply != ack.status || ack.next > size { return Stop(InvalidResponse); }
      if response.reply == OK {
        if ack.next <= offset { return Stop(InvalidResponse); }
      } else if response.reply == BadOffset {
        if ack.next == offset { return Stop(InvalidResponse); }
      } else {
        return Stop(InvalidResponse);
      }
      return Goto(ack.next);
    }

    /** One chunk: read from the cache, sent, and its answer judged. */
    method SendChunk(session: u32, offset: u32, ghost id: Option<Identity>) returns (move: Move)
      requires Valid() && Validated() && AllRelock(world.fates) && Travels(world.device, id)
      requires offset < |CachedImage()|
      modifies world, client
      ensures Valid() && Validated() && Travels(world.device, id) && old(world.clock) <= world.clock
      ensures var (w, result) := Transfer.SendChunk(old(W()), world.fates, session, CachedImage(), offset);
              W() == w && move == Judge(result, old(W()).seqno, offset, |CachedImage()|)
    {
      hide Travels, AllRelock, Attempts, IsSystem, NextChunkEnd, Judge, Cache.ImageMatches, Cache.ImageSize, StatusOf, IsWire;
      ghost var image := CachedImage();
      var size := Cache.ImageSize(store.manifest);
      var end := NextChunkEnd(offset, size);
      var read, chunk := store.Read(offset, end - offset);
      if read != Cache.Ok { return Stop(StoreStatus(read)); }
      SliceOfSlice(store.Flash(), Cache.IMAGE_OFFSET, size, offset, end);
      var sequence := client.nextSequence;
      TransactionTravels(world.device, id, Request(Data, session, sequence, offset, chunk),
                         world.fates, world.clock, MAX_RETRY_COUNT);
      var result := Transact(Data, session, offset, chunk, MAX_RETRY_COUNT);
      move := JudgeAnswer(result, sequence, offset, size);
    }

    /** The chunk loop: every round reads the cache and trusts nothing but the offset the device acknowledges. */
    method TransferImage(session: u32, start: u32, ghost id: Option<Identity>) returns (status: Status)
      requires Valid() && Validated() && AllRelock(world.fates) && Travels(world.device, id)
      modifies this, world, client
      ensures Valid() && Validated() && Travels(world.device, id) && sessionId == old(sessionId)
      ensures old(world.clock) <= world.clock
      ensures (W(), checksLeft, status) ==
              TransferRun(old(W()), world.fates, session, CachedImage(), start, old(checksLeft))
    {
      hide Travels, AllRelock, Attempts, IsSystem, Transfer.SendChunk, Judge, Cache.ImageMatches, Cache.ImageSize;
      ghost var image := CachedImage();
      var size := Cache.ImageSize(store.manifest);
      var offset: u32 := start;
      while offset < size
        invariant Valid() && Validated() && Travels(world.device, id) && sessionId == old(sessionId)
        invariant old(world.clock) <= world.clock
        invariant TransferRun(W(), world.fates, session, image, offset, checksLeft) ==
                  TransferRun(old(W()), world.fates, session, image, start, old(checksLeft))
        decreases checksLeft
      {
        var aborted := IsAborted();
        if aborted { return InvalidState; }
        var move := SendChunk(session, offset, id);
        if move.Stop? { return move.status; }
        offset := move.offset;
        transferredBytes := offset;
      }
      return Done;
    }

    /** An application runs, and enough polls are left for the confirmation that is due. */
    ghost predicate Reached(w: Wire, due: nat, left: nat, image: ImageBytes, deal: Deal) {
      && Runs(w.clock, w.device, image, deal, world.fates, due)
      && (InPhase(1, w.device, image, deal) ==> left > due - w.clock + MAX_RETRY_COUNT)
    }

    /** GET_INFO after a HELLO: whether the wait is over, and how. */
    method JudgeInfo(version: u32, bootloader: bool, ghost id: Option<Identity>, ghost due: nat, ghost left: nat,
                     ghost image: ImageBytes, ghost deal: Deal, ghost patience: nat)
      returns (verdict: Option<Status>)
      requires Valid() && AllRelock(world.fates) && Travels(world.device, id)
      modifies world, client
      ensures Valid() && Travels(world.device, id) && old(world.clock) < world.clock
      ensures verdict == Some(Done) && id.Some? ==> Confirmed(world.device, id.value)
      ensures verdict == Some(Done) ==> Heard(W(), version)
      ensures Awaits(version, image, deal, patience) && WasCalm(version, old(world.clock), world.clock) &&
              !bootloader && old(Reached(W(), due, left, image, deal)) ==>
                if verdict.None? then OnCourse(1, world.device, world.clock, due, left, image, deal, world.fates, patience)
                else verdict == Some(Done) && InPhase(2, world.device, image, deal)
      ensures Fair(world.fates, patience) && WasCalm(version, old(world.clock), world.clock) &&
              bootloader && old(Lingers(world.device, version)) ==>
                && (verdict.None? ==> Lingers(world.device, version) && RemoteState(world.device) == old(RemoteState(world.device)))
                && verdict == if old(RemoteState(world.device)) == FAILED then Some(InvalidState) else None
    {
      hide Travels, AllRelock, Valid, W, IsWire, Confirmed, InPhase, Call, InfoVerdict, QueryVerdict, Awaits, Heard, Lingers,
           RemoteState, Fair, WasCalm, OnCourse, Reached;
      ghost var w := W();
      ghost var live := Awaits(version, image, deal, patience) && !bootloader && Reached(w, due, left, image, deal);
      ghost var stuck := Fair(world.fates, patience) && bootloader && Lingers(world.device, version);
      ghost var start := world.clock;
      var status, info := GetInfo(id);
      live, stuck := live && WasCalm(version, start, world.clock), stuck && WasCalm(version, start, world.clock);
      if live { InfoRound(w, due, left, version, image, deal, patience, status, info); }
      if stuck { StuckInfo(w, version, patience, status, info); }
      if status != Done || info.reply != OK { return None; }
      if info.body.product != PRODUCT_ID || info.body.hardware != HARDWARE_ID || info.body.version != version {
        return Some(InvalidVersion);
      }
      if !bootloader {
        if info.body.state == CONFIRMED {
          HeardHere(w, version, info);
          return Some(Done);
        }
        return if info.body.state != PENDING_BOOT then Some(InvalidState) else None;
      }
      if info.body.state != FAILED { return None; }
      var answer;
      w := W();
      status, answer := Query(MAX_RETRY_COUNT, id);
      CalmSplits(version, start, w.clock, world.clock);
      if stuck && WasCalm(version, w.clock, world.clock) { StuckQuery(w, version, patience, status, answer); }
      return Some(if status == Done then InvalidState else status);
    }

    /** One HELLO, and what GET_INFO then says: whether the wait is over, and how. */
    method ProbeApplication(version: u32, ghost id: Option<Identity>, ghost phase: nat, ghost due: nat, ghost left: nat,
                            ghost image: ImageBytes, ghost deal: Deal, ghost patience: nat, ghost failed: bool, ghost heard: nat)
      returns (verdict: Option<Status>, ghost phase': nat, ghost due': nat)
      requires Valid() && AllRelock(world.fates) && Travels(world.device, id) && left > 0
      modifies world, client
      ensures Valid() && Travels(world.device, id) && old(world.clock) < world.clock
      ensures verdict == Some(Done) && id.Some? ==> Confirmed(world.device, id.value)
      ensures verdict == Some(Done) ==> Heard(W(), version)
      ensures Awaits(version, image, deal, patience) && WasCalm(version, old(world.clock), world.clock) &&
              old(OnCourse(phase, world.device, world.clock, due, left, image, deal, world.fates, patience)) ==>
                if verdict.None? then OnCourse(phase', world.device, world.clock, due', left - 1, image, deal, world.fates, patience)
                else verdict == Some(Done) && InPhase(2, world.device, image, deal)
      ensures Fair(world.fates, patience) && WasCalm(version, old(world.clock), world.clock) &&
              old(Stuck(W(), version, failed, heard, left)) ==>
                if verdict.None? then Stuck(W(), version, failed, heard, left - 1)
                else failed && verdict == Some(InvalidState)
    {
      hide Travels, AllRelock, Valid, W, IsWire, Confirmed, InPhase, Call, HelloVerdict, Awaits, Heard, Lingers,
           RemoteState, Fair, WasCalm, Reached, OnCourse, Stuck;
      ghost var w := W();
      ghost var live := Awaits(version, image, deal, patience) &&
                        OnCourse(phase, world.device, world.clock, due, left, image, deal, world.fates, patience);
      ghost var stuck := Fair(world.fates, patience) && Stuck(w, version, failed, heard, left);
      phase', due' := phase, due;
      var hello := SendHello(id);
      ghost var middle := world.clock;
      live, stuck := live && WasCalm(version, w.clock, middle), stuck && WasCalm(version, w.clock, middle);
      if live { phase', due' := ProbeRound(phase, w, due, left, version, image, deal, patience, hello); }
      if stuck { StuckRound(w, version, failed, heard, left, hello); }
      if hello.None? { return None, phase', due'; }
      if hello.value.maxPayload != MAX_PAYLOAD { return Some(NotSupported), phase', due'; }
      if !hello.value.bootloader && !hello.value.enterBoot { return None, phase', due'; }
      verdict := JudgeInfo(version, hello.value.bootloader, id, due', left - 1, image, deal, patience);
      CalmSplits(version, w.clock, middle, world.clock);
      phase' := 1;
      if stuck && verdict.None? && WasCalm(version, middle, world.clock) { StuckOn(version, failed, heard, left - 1); }
    }

    /**
     * Probes until an application reports the new version as confirmed.  From the reset of ACTIVATE it
     * succeeds, under ordinary conditions, within two spells of patience and five polls.  A bootloader
     * with this version's record makes it fail: at once, if that record is FAILED, and with a timeout
     * otherwise, for example when ACTIVATE did not arrive.
     */
    method WaitForApplication(version: u32, polls: nat, ghost id: Option<Identity>, ghost image: ImageBytes, ghost deal: Deal,
                              ghost patience: nat)
      returns (status: Status)
      requires Valid() && AllRelock(world.fates) && Travels(world.device, id)
      modifies this, world, client
      ensures Valid() && Travels(world.device, id) && sessionId == old(sessionId) && old(world.clock) <= world.clock
      ensures status == Done && id.Some? ==> Confirmed(world.device, id.value)
      ensures status == Done ==> Heard(W(), version)
      ensures Awaits(version, image, deal, patience) && WasCalm(version, old(world.clock), world.clock) &&
              old(InPhase(0, world.device, image, deal)) &&
              polls >= 2 * patience + MAX_RETRY_COUNT && old(checksLeft) >= polls ==>
                status == Done && InPhase(2, world.device, image, deal)
      ensures Fair(world.fates, patience) && WasCalm(version, old(world.clock), world.clock) &&
              old(Lingers(world.device, version)) && polls >= MAX_RETRY_COUNT && old(checksLeft) >= polls ==>
                status == if old(RemoteState(world.device)) == FAILED then InvalidState else TimedOutStatus
    {
      hide Travels, AllRelock, Valid, W, IsWire, Confirmed, InPhase, Awaits, Heard, Lingers, RemoteState, Fair, WasCalm;
      ghost var start := world.clock;
      ghost var hoped := Awaits(version, image, deal, patience) && InPhase(0, world.device, image, deal) &&
                         polls >= 2 * patience + MAX_RETRY_COUNT && checksLeft >= polls;
      ghost var held := Fair(world.fates, patience) && Lingers(world.device, version) &&
                        polls >= MAX_RETRY_COUNT && checksLeft >= polls;
      ghost var live, stuck, failed := hoped, held, held && RemoteState(world.device) == FAILED;
      ghost var phase: nat, due: nat, heard: nat := 0, start, start;
      if stuck { heard := LingersBy(version, polls, patience); }
      if live { due := FirstDue(version, polls, image, deal, patience); }
      var left := polls;
      while left > 0
        invariant Valid() && Travels(world.device, id) && sessionId == old(sessionId) && start <= world.clock
        invariant hoped || held ==> checksLeft >= left
        invariant hoped && WasCalm(version, start, world.clock) ==> live
        invariant held && WasCalm(version, start, world.clock) ==> stuck
        invariant live ==> hoped && OnCourse(phase, world.device, world.clock, due, left, image, deal, world.fates, patience)
        invariant stuck ==> held && Stuck(W(), version, failed, heard, left)
      {
        hide OnCourse, Stuck;
        left := left - 1;
        var aborted := IsAborted();
        if aborted { return InvalidState; }
        ghost var now := world.clock;
        var verdict;
        verdict, phase, due := ProbeApplication(version, id, phase, due, left + 1, image, deal, patience, failed, heard);
        CalmSplits(version, start, now, world.clock);
        live, stuck := live && WasCalm(version, now, world.clock), stuck && WasCalm(version, now, world.clock);
        if verdict.Some? { return verdict.value; }
      }
      return TimedOutStatus;
    }

    lemma HeardHere(w: Wire, version: u32, info: Response)
      requires Valid() && IsWire(w)
      requires var (w', result) := Call(w, world.fates, Command.GetInfo, 0, 0, [], MAX_RETRY_COUNT);
               W() == w' && (Done, info) == InfoVerdict(result)
      requires info.reply == OK && info.body.InfoBody? && info.body.product == PRODUCT_ID && info.body.hardware == HARDWARE_ID
      requires info.body.version == version && info.body.state == CONFIRMED
      ensures Heard(W(), version)
    {
      hide Call, IsSystem;
      assert SaysSo(Call(w, world.fates, Command.GetInfo, 0, 0, [], MAX_RETRY_COUNT), W(), version);
    }

    // ---- The rounds of the wait ----

    ghost predicate Awaits(version: u32, image: ImageBytes, deal: Deal, patience: nat) {
      version == deal.id.version && Runnable(image, deal) && Fair(world.fates, patience)
    }

    lemma FirstDue(version: u32, polls: nat, image: ImageBytes, deal: Deal, patience: nat) returns (due: nat)
      requires Awaits(version, image, deal, patience) && InPhase(0, world.device, image, deal)
      requires polls >= 2 * patience + MAX_RETRY_COUNT
      ensures OnCourse(0, world.device, world.clock, due, polls, image, deal, world.fates, patience)
    {
      hide InPhase, Fair, OnCourse, Runnable;
      due := NextIsDue(0, world.device, world.clock, polls, image, deal, world.fates, patience);
    }

    /** After a HELLO the task is on course with a poll less, or an application runs. */
    lemma ProbeRound(phase: nat, w: Wire, due: nat, left: nat, version: u32, image: ImageBytes, deal: Deal, patience: nat,
                     hello: Option<Body>)
      returns (phase': nat, due': nat)
      requires Valid() && IsWire(w) && Awaits(version, image, deal, patience)
      requires WasCalm(version, w.clock, world.clock) && w.clock < world.clock
      requires OnCourse(phase, w.device, w.clock, due, left, image, deal, world.fates, patience)
      requires var (w', result) := Call(w, world.fates, Hello, 0, 0, [], 1); W() == w' && hello == HelloVerdict(result)
      ensures hello.None? ==> OnCourse(phase', world.device, world.clock, due', left - 1, image, deal, world.fates, patience)
      ensures hello.Some? ==>
                hello.value == HelloBody(false, true, MAX_PAYLOAD) && Reached(W(), due', left - 1, image, deal)
    {
      CalmSplits(version, w.clock, w.clock + 1, world.clock);
      CalmHere(version, w.clock);
      hide InPhase, Fair, OnCourse, Runnable, Call, Runs, IsSystem, Helps, WasCalm;
      phase', due' := HelloRound(phase, w, due, left, image, deal, world.fates, patience);
    }

    /** GET_INFO of a running application ends the wait or leaves the task on course. */
    lemma InfoRound(w: Wire, due: nat, left: nat, version: u32, image: ImageBytes, deal: Deal, patience: nat,
                    status: Status, info: Response)
      requires Valid() && IsWire(w) && Awaits(version, image, deal, patience) && WasCalm(version, w.clock, world.clock)
      requires Reached(w, due, left, image, deal)
      requires var (w', result) := Call(w, world.fates, Command.GetInfo, 0, 0, [], MAX_RETRY_COUNT);
               W() == w' && (status, info) == InfoVerdict(result)
      ensures status == Done && info.reply == OK && info.body.InfoBody?
      ensures info.body == InfoBody(PRODUCT_ID, HARDWARE_ID, version, APP_MAX_SIZE, info.body.state, false)
      ensures info.body.state == CONFIRMED || info.body.state == PENDING_BOOT
      ensures info.body.state == CONFIRMED ==> InPhase(2, world.device, image, deal)
      ensures info.body.state == PENDING_BOOT ==>
                OnCourse(1, world.device, world.clock, due, left, image, deal, world.fates, patience)
    {
      FairAt(w.clock, patience);
      hide InPhase, Fair, Runnable, Call, IsSystem, InfoVerdict, Calm, AnsweredWithin;
      PhasesDiffer(w.device, image, deal);
      InfoFromApp(w, image, deal, world.fates, due);
    }

    lemma FairAt(clock: nat, patience: nat)
      requires Fair(world.fates, patience)
      ensures AnsweredWithin(world.fates, clock, MAX_RETRY_COUNT)
    {
    }

    /** A bootloader that stays one, with a record of this version. */
    ghost predicate Lingers(s: System, version: u32) {
      Serves(s) && Awake(s).ram.has && Awake(s).ram.rec.version == version
    }

    /** It stays; if its update failed, enough polls are left for the answer that tells. */
    ghost predicate Stuck(w: Wire, version: u32, failed: bool, heard: nat, left: nat) {
      && Lingers(w.device, version) && failed == (RemoteState(w.device) == FAILED)
      && (failed ==> w.clock <= heard < w.clock + left && world.fates(heard).delivery.Answered?)
    }

    lemma LingersBy(version: u32, left: nat, patience: nat) returns (heard: nat)
      requires Valid() && Lingers(world.device, version) && Fair(world.fates, patience) && left >= MAX_RETRY_COUNT
      ensures Stuck(W(), version, RemoteState(world.device) == FAILED, heard, left)
    {
      hide Serves, Awake, RemoteState;
      heard := AnswerIsDue(world.fates, world.clock, MAX_RETRY_COUNT);
    }

    lemma StuckRound(w: Wire, version: u32, failed: bool, heard: nat, left: nat, hello: Option<Body>)
      requires Valid() && IsWire(w) && Stuck(w, version, failed, heard, left)
      requires WasCalm(version, w.clock, world.clock) && w.clock < world.clock
      requires var (w', result) := Call(w, world.fates, Hello, 0, 0, [], 1); W() == w' && hello == HelloVerdict(result)
      ensures Lingers(world.device, version) && failed == (RemoteState(world.device) == FAILED)
      ensures hello.None? && left > 0 ==> Stuck(W(), version, failed, heard, left - 1)
      ensures hello.Some? ==> hello.value == HelloBody(true, false, MAX_PAYLOAD)
    {
      CalmSplits(version, w.clock, w.clock + 1, world.clock);
      CalmHere(version, w.clock);
      hide Helps, Call, IsSystem, HelloVerdict, Serves, Awake, WasCalm;
      HelloPolled(w, Awake(w.device), world.fates, version);
    }

    lemma StuckOn(version: u32, failed: bool, heard: nat, left: nat)
      requires Valid() && Lingers(world.device, version) && !failed && RemoteState(world.device) != FAILED
      ensures Stuck(W(), version, failed, heard, left)
    {
      hide Lingers, RemoteState;
    }

    lemma StuckInfo(w: Wire, version: u32, patience: nat, status: Status, info: Response)
      requires Valid() && IsWire(w) && Fair(world.fates, patience) && Lingers(w.device, version)
      requires WasCalm(version, w.clock, world.clock)
      requires var (w', result) := Call(w, world.fates, Command.GetInfo, 0, 0, [], MAX_RETRY_COUNT);
               W() == w' && (status, info) == InfoVerdict(result)
      ensures Lingers(world.device, version) && RemoteState(world.device) == RemoteState(w.device)
      ensures status == Done && info.reply == OK
      ensures info.body == InfoBody(PRODUCT_ID, HARDWARE_ID, version, APP_MAX_SIZE, RemoteState(w.device), true)
    {
      FairAt(w.clock, patience);
      hide Fair, Call, IsSystem, InfoVerdict, Serves, Awake, Calm, AnsweredWithin;
      InfoAnswered(w, Awake(w.device), world.fates, version);
    }

    lemma StuckQuery(w: Wire, version: u32, patience: nat, status: Status, answer: Response)
      requires Valid() && IsWire(w) && Fair(world.fates, patience) && Lingers(w.device, version)
      requires WasCalm(version, w.clock, world.clock)
      requires var (w', result) := Call(w, world.fates, Command.Query, 0, 0, [], MAX_RETRY_COUNT);
               W() == w' && (status, answer) == QueryVerdict(result)
      ensures status == Done
    {
      FairAt(w.clock, patience);
      hide Fair, Call, IsSystem, QueryVerdict, Serves, Awake, Calm, AnsweredWithin;
      QueryAnswered(w, Awake(w.device), world.fates, version);
    }

    lemma DeliveredLingers(s: System, image: ImageBytes, deal: Deal)
      requires Delivered(s, image, deal)
      ensures Lingers(s, deal.id.version) && RemoteState(s) == PENDING_BOOT
    {
      hide Serves, Awake, Verified;
      VerifiedTells(Awake(s), image, deal);
    }

    /** START for this package; an OK answer makes the update this package's under this session. */
    method Start(local: Manifest, session: u32) returns (result: Result, ghost id: Option<Identity>)
      requires Valid() && AllRelock(world.fates) && Travels(world.device, None)
      modifies world, client
      ensures Valid() && Travels(world.device, id) && old(world.clock) < world.clock
      ensures (W(), result) ==
              Call(old(W()), world.fates, Command.Start, session, 0, EncodeManifest(local), MAX_RETRY_COUNT)
      ensures result.Got? && result.response.reply == OK ==> id == Some(IdOfStart(session, local))
      ensures !(result.Got? && result.response.reply == OK) ==> id == None
    {
      hide AllRelock, Attempts, IsSystem, OnJourney, Sound, DecodeManifest, EncodeManifest;
      ManifestRoundTrip(local);
      StartTransaction(world.device, Request(Command.Start, session, client.nextSequence, 0, EncodeManifest(local)),
                       world.fates, world.clock, MAX_RETRY_COUNT);
      result := Transact(Command.Start, session, 0, EncodeManifest(local), MAX_RETRY_COUNT);
      id := if result.Got? && result.response.reply == OK then Some(IdOfStart(session, local)) else None;
    }

    /**
     * Discovery, the choice between a resumed and a fresh session, and START.  It succeeds only for a
     * package of this product and hardware that fits, on a device that checks CRC-32; it resumes
     * exactly an active session of the same image size, and takes a BUSY for OK only while that
     * session erases or verifies.
     */
    method Negotiate(local: Manifest, enterSession: u32, freshSession: u32, polls: nat,
                     ghost image: ImageBytes, ghost deal: Deal, ghost patience: nat)
      returns (status: Status, started: bool, remote: Body, kind: Response, before: Response, ghost id: Option<Identity>)
      requires Valid() && AllRelock(world.fates) && Travels(world.device, None)
      modifies this, world, client
      ensures Valid() && Travels(world.device, id) && old(world.clock) <= world.clock
      ensures started ==> id == Some(IdOfStart(sessionId, local))
      ensures status == Done ==>
                && kind.body.InfoBody? && kind.body.crc32
                && local.product == kind.body.product == PRODUCT_ID && local.hardware == kind.body.hardware == HARDWARE_ID
                && local.size <= kind.body.maxSize == APP_MAX_SIZE
      ensures status == Done ==> before.body.ProgressBody? && remote.ProgressBody? && remote.size == local.size
      ensures status == Done ==>
                if RemoteIsActive(before.body.bootState) && before.session != 0
                then sessionId == before.session && before.body.size == local.size &&
                     (started || before.body.bootState == ERASING || before.body.bootState == VERIFYING)
                else sessionId == freshSession && started
      ensures old(Ready(local, freshSession, image, deal, patience)) && WasCalm(local.version, old(world.clock), world.clock) &&
              polls >= 2 * MAX_RETRY_COUNT && old(checksLeft) >= polls ==>
                && status == Done && sessionId == deal.id.session
                && Deliverable(world.device, image, deal) && remote.bootState == RemoteState(world.device)
                && checksLeft + polls >= old(checksLeft)
    {
      hide Travels, AllRelock, Valid, W, Serves, Awake, Rests, Call, InfoVerdict, QueryVerdict, Deliverable,
           RemoteState, EncodeManifest, IdOfStart, Ready, AppReady, Openable, Fair, PromptPower, ReadyFor, ReadyToEnter,
           WasCalm, StatusOf, IsWire;
      ghost var hoped := Ready(local, freshSession, image, deal, patience) && polls >= 2 * MAX_RETRY_COUNT && checksLeft >= polls;
      ghost var start, v, live := world.clock, local.version, hoped;
      ghost var s := world.device;
      if live { ReadyCases(local, freshSession, image, deal, patience); }
      started, remote, kind, before, id := false, NoBody, NO_RESPONSE, NO_RESPONSE, None;
      status := FindBootloader(enterSession, polls, local.version, patience, local.size, deal.top);
      live := live && WasCalm(v, start, world.clock);
      if live { s := EnteredReady(s, local, freshSession, image, deal, patience); }
      if status != Done { return; }
      ghost var w := W();
      status, kind := GetInfo(None);
      CalmSplits(v, start, w.clock, world.clock);
      live := live && WasCalm(v, w.clock, world.clock);
      if live { ReadyInfo(w, s, local, freshSession, image, deal, patience, status, kind); }
      if status != Done { return; }
      if kind.reply != OK {
        status := InvalidResponse;
        return;
      }
      if kind.body.product != local.product || kind.body.hardware != local.hardware ||
         kind.body.maxSize < local.size || !kind.body.crc32 {
        status := NotSupported;
        return;
      }
      w := W();
      status, before := Query(MAX_RETRY_COUNT, None);
      CalmSplits(v, start, w.clock, world.clock);
      live := live && WasCalm(v, w.clock, world.clock);
      if live { ReadyProgress(w, s, local, freshSession, image, deal, patience, status, before); }
      if status != Done { return; }
      var resume := RemoteIsActive(before.body.bootState) && before.session != 0;
      if resume && before.body.size != local.size {
        status := InvalidState;
        return;
      }
      sessionId := if resume then before.session else freshSession;
      var result;
      w := W();
      result, id := Start(local, sessionId);
      CalmSplits(v, start, w.clock, world.clock);
      live := live && WasCalm(v, w.clock, world.clock);
      if live { ReadyStart(w, s, local, freshSession, image, deal, patience, result); }
      if result.Error? {
        status := StatusOf(result.failure);
        return;
      }
      started := result.response.reply == OK;
      if !started && !(result.response.reply == Busy && resume &&
                       (before.body.bootState == ERASING || before.body.bootState == VERIFYING)) {
        status := InvalidResponse;
        return;
      }
      var after;
      w := W();
      status, after := Query(MAX_RETRY_COUNT, id);
      CalmSplits(v, start, w.clock, world.clock);
      live := live && WasCalm(v, w.clock, world.clock);
      if live { StartedProgress(w, local, image, deal, patience, status, after); }
      if status != Done { return; }
      if after.session != sessionId || after.body.size != local.size {
        status := InvalidState;
        return;
      }
      remote := after.body;
    }

    // ---- The steps of the negotiation ----

    /** The device is ready for this package: idle with room for it, or on the way with it. */
    ghost predicate ReadyFor(s: System, local: Manifest, freshSession: u32, image: ImageBytes, deal: Deal, patience: nat) {
      && deal.id.session != 0 && FitsDevice(local) && Negotiable(s, image, local, deal)
      && (InSession(RemoteState(s)) || freshSession == deal.id.session)
      && Fair(world.fates, patience)
    }

    /** It runs an application that can be asked to make way for it. */
    ghost predicate ReadyToEnter(s: System, local: Manifest, freshSession: u32, image: ImageBytes, deal: Deal, patience: nat) {
      && deal.id.session != 0 && FitsDevice(local) && freshSession == deal.id.session
      && |image| == local.size && Cache.Crc32.Value(image) == local.crc32 && deal.id == IdOfStart(deal.id.session, local)
      && AppReady(s, local.size, deal.top) && deal.spare <= 3
      && Fair(world.fates, patience) && PromptPower(world.fates)
    }

    ghost predicate Ready(local: Manifest, freshSession: u32, image: ImageBytes, deal: Deal, patience: nat)
      reads world
    {
      || ReadyFor(world.device, local, freshSession, image, deal, patience)
      || ReadyToEnter(world.device, local, freshSession, image, deal, patience)
    }

    lemma ReadyCases(local: Manifest, freshSession: u32, image: ImageBytes, deal: Deal, patience: nat)
      requires Ready(local, freshSession, image, deal, patience)
      ensures || (ReadyFor(world.device, local, freshSession, image, deal, patience) && Serves(world.device))
              || (ReadyToEnter(world.device, local, freshSession, image, deal, patience) &&
                  AppReady(world.device, local.size, deal.top) && PromptPower(world.fates))
      ensures Fair(world.fates, patience) && |image| == local.size
      ensures deal.id == IdOfStart(deal.id.session, local)
    {
      hide Deliverable, Openable, Serves, Awake, Fair, Cache.Crc32.Value, AppReady, PromptPower;
    }

    /** After the search the bootloader is ready for the package. */
    lemma EnteredReady(s: System, local: Manifest, freshSession: u32, image: ImageBytes, deal: Deal, patience: nat)
      returns (s': System)
      requires Valid() && Serves(world.device)
      requires || (ReadyFor(s, local, freshSession, image, deal, patience) && Serves(s) && Awake(world.device) == Awake(s))
               || (ReadyToEnter(s, local, freshSession, image, deal, patience) &&
                   Openable(Awake(world.device), local.size, deal.top, MAX_RETRY_COUNT))
      ensures s' == world.device && ReadyFor(s', local, freshSession, image, deal, patience) && Rests(s', Awake(s'))
    {
      s' := world.device;
      hide Serves, Awake, Fair, Cache.Crc32.Value, AppReady, PromptPower;
      if ReadyFor(s, local, freshSession, image, deal, patience) && Serves(s) && Awake(world.device) == Awake(s) {
        SameAtRest(s, s', image, local, deal);
        hide Negotiable;
      } else {
        hide Deliverable;
      }
    }

    lemma ReadyInfo(w: Wire, s: System, local: Manifest, freshSession: u32, image: ImageBytes, deal: Deal, patience: nat,
                    status: Status, kind: Response)
      requires Valid() && IsWire(w) && ReadyFor(s, local, freshSession, image, deal, patience)
      requires Serves(s) && Rests(w.device, Awake(s)) && WasCalm(local.version, w.clock, world.clock)
      requires var (w', result) := Call(w, world.fates, Command.GetInfo, 0, 0, [], MAX_RETRY_COUNT);
               W() == w' && (status, kind) == InfoVerdict(result)
      ensures Rests(world.device, Awake(s)) && status == Done && kind.reply == OK
      ensures kind.body.InfoBody? && kind.body.product == local.product && kind.body.hardware == local.hardware
      ensures kind.body.maxSize >= local.size && kind.body.crc32
    {
      FairAt(w.clock, patience);
      hide Deliverable, Openable, Serves, Awake, Fair, Negotiable, Call, InfoVerdict, IsSystem, RemoteState, Calm, AnsweredWithin;
      InfoAnswered(w, Awake(s), world.fates, local.version);
    }

    lemma ReadyProgress(w: Wire, s: System, local: Manifest, freshSession: u32, image: ImageBytes, deal: Deal, patience: nat,
                        status: Status, before: Response)
      requires Valid() && IsWire(w) && ReadyFor(s, local, freshSession, image, deal, patience)
      requires Serves(s) && Rests(w.device, Awake(s)) && WasCalm(local.version, w.clock, world.clock)
      requires var (w', result) := Call(w, world.fates, Command.Query, 0, 0, [], MAX_RETRY_COUNT);
               W() == w' && (status, before) == QueryVerdict(result)
      ensures Rests(world.device, Awake(s)) && status == Done && before.body.ProgressBody?
      ensures before.body.bootState == RemoteState(s)
      ensures RemoteIsActive(before.body.bootState) && before.session != 0 ==>
                before.body.size == local.size && before.session == deal.id.session
      ensures !(RemoteIsActive(before.body.bootState) && before.session != 0) ==> freshSession == deal.id.session
      ensures RemoteIsActive(before.body.bootState) ==> before.session != 0
    {
      FairAt(w.clock, patience);
      hide Openable, Serves, Awake, Fair, Calm, AnsweredWithin, Call, QueryVerdict, IsSystem, Requested, Lively, Checkable, Verified, Cache.Crc32.Value;
      QueryAnswered(w, Awake(s), world.fates, local.version);
      if InSession(State(Awake(s))) {
        DeliverableTells(s, image, deal);
      }
      hide Deliverable;
    }

    lemma ReadyStart(w: Wire, s: System, local: Manifest, freshSession: u32, image: ImageBytes, deal: Deal, patience: nat,
                     result: Result)
      requires Valid() && IsWire(w) && ReadyFor(s, local, freshSession, image, deal, patience)
      requires Serves(s) && Rests(w.device, Awake(s)) && WasCalm(local.version, w.clock, world.clock)
      requires (W(), result) == Call(w, world.fates, Command.Start, deal.id.session, 0, EncodeManifest(local), MAX_RETRY_COUNT)
      ensures result.Got? && Deliverable(world.device, image, deal)
      ensures result.response.reply == OK ||
              (result.response.reply == Busy && (RemoteState(s) == ERASING || RemoteState(s) == VERIFYING))
    {
      EncodedIsAdmissible(local, deal.id.session, w.seqno);
      SameAtRest(s, w.device, image, local, deal);
      FairAt(w.clock, patience);
      hide Deliverable, Serves, Awake, Fair, Calm, AnsweredWithin, Negotiable, Call, IsSystem, RemoteState, Admissible, EncodeManifest, FitsDevice;
      StartCall(w, image, local, deal, world.fates);
    }

    lemma StartedProgress(w: Wire, local: Manifest, image: ImageBytes, deal: Deal, patience: nat, status: Status, after: Response)
      requires Valid() && IsWire(w) && Deliverable(w.device, image, deal) && Fair(world.fates, patience)
      requires WasCalm(local.version, w.clock, world.clock)
      requires var (w', result) := Call(w, world.fates, Command.Query, 0, 0, [], MAX_RETRY_COUNT);
               W() == w' && (status, after) == QueryVerdict(result)
      ensures Deliverable(world.device, image, deal) && status == Done && after.body.ProgressBody?
      ensures after.body.bootState == RemoteState(world.device) && after.session == deal.id.session && after.body.size == |image|
    {
      DeliverableTells(w.device, image, deal);
      FairAt(w.clock, patience);
      hide Serves, Awake, Fair, Calm, AnsweredWithin, Call, QueryVerdict, IsSystem, IsBoot, Deliverable;
      QueryAnswered(w, Awake(w.device), world.fates, local.version);
      SameAtRest(w.device, world.device, image, local, deal);
    }

    /** ERASE, and the wait for its end. */
    method EraseRemote(polls: nat, ghost id: Option<Identity>, ghost image: ImageBytes, ghost deal: Deal, ghost patience: nat)
      returns (status: Status, remote: Body, ghost high: nat)
      requires Valid() && AllRelock(world.fates) && Travels(world.device, id)
      modifies this, world, client
      ensures Valid() && Travels(world.device, id) && sessionId == old(sessionId) && old(world.clock) <= world.clock
      ensures status == Done ==> remote.ProgressBody?
      ensures old(Deliverable(world.device, image, deal) && AsksErase(world.device)) && old(sessionId) == deal.id.session &&
              Fair(world.fates, patience) && WasCalm(deal.id.version, old(world.clock), world.clock) &&
              polls >= MAX_RETRY_COUNT && old(checksLeft) >= polls ==>
                && status == Done && Serves(world.device) && Lively(Awake(world.device), image, deal, high, deal.spare)
                && remote == Progress(Awake(world.device)) && checksLeft + polls >= old(checksLeft)
    {
      hide Travels, AllRelock, Attempts, IsSystem, Call, Fair, Serves, Awake, Requested, Lively, Checkable, Verified,
           Cache.Crc32.Value, WasCalm, Calm;
      ghost var start, w := world.clock, W();
      ghost var live := Deliverable(world.device, image, deal) && AsksErase(world.device) && sessionId == deal.id.session &&
                        Fair(world.fates, patience) && polls >= MAX_RETRY_COUNT && checksLeft >= polls;
      remote, high := NoBody, 0;
      if live {
        StageTells(world.device, image, deal);
        hide Deliverable;
        FairAt(world.clock, patience);
        high := EraseCall(w, image, deal, world.fates);
      }
      var result := Ask(Erase, sessionId, [], MAX_RETRY_COUNT, id);
      ghost var middle := world.clock;
      live := live && WasCalm(deal.id.version, start, middle);
      if live { CalmCall(deal.id.version, start, middle); }
      if result.Error? {
        status := StatusOf(result.failure);
        return;
      }
      if result.response.reply != OK && result.response.reply != Busy {
        status := InvalidResponse;
        return;
      }
      if live { LivelyTells(Awake(world.device), image, deal, high, deal.spare); }
      status, remote := PollErase(polls, id, deal.id.version, patience);
      CalmSplits(deal.id.version, start, middle, world.clock);
    }

    lemma CalmCall(version: u32, from: nat, to: nat)
      requires WasCalm(version, from, to)
      ensures Calm(world.fates, version, from, to)
    {
      hide Calm;
    }

    /**
     * The erase, and the transfer from the offset the device then names.  The transfer, between the
     * exchanges `from` and `to`, bears resets and interrupted journal appends.
     */
    method EraseAndTransfer(erasePolls: nat, ghost id: Option<Identity>, ghost deal: Deal, ghost patience: nat, ghost last: nat)
      returns (status: Status, ghost from: nat, ghost to: nat)
      requires Valid() && AllRelock(world.fates) && Travels(world.device, id) && Validated()
      modifies this, world, client
      ensures Valid() && Validated() && Travels(world.device, id) && sessionId == old(sessionId)
      ensures old(world.clock) <= from <= to == world.clock
      ensures old(Deliverable(world.device, CachedImage(), deal) && AsksErase(world.device)) &&
              Prospect(old(sessionId), deal, patience, last) && WasCalm(deal.id.version, old(world.clock), from) &&
              erasePolls >= MAX_RETRY_COUNT && old(checksLeft) >= erasePolls + RoundsFor(CachedImage(), last) ==>
                && status == Done && Serves(world.device) && Checkable(Awake(world.device), CachedImage(), deal)
                && checksLeft + erasePolls + RoundsFor(CachedImage(), last) >= old(checksLeft)
    {
      hide Travels, AllRelock, Attempts, IsSystem, TransferRun, Cache.ImageMatches, Cache.ImageSize, Call, Fair, Friendly,
           Serves, Awake, Lively, Checkable, Deliverable, AsksErase, WasCalm, Rounds, TornAppends, Troubles;
      ghost var image := CachedImage();
      ghost var live := Deliverable(world.device, image, deal) && AsksErase(world.device) &&
                        Prospect(sessionId, deal, patience, last) &&
                        erasePolls >= MAX_RETRY_COUNT && checksLeft >= erasePolls + RoundsFor(image, last);
      ghost var start := world.clock;
      if live { StageTells(world.device, image, deal); }
      var size := Cache.ImageSize(store.manifest);
      var remote;
      ghost var high;
      status, remote, high := EraseRemote(erasePolls, id, image, deal, patience);
      from, to := world.clock, world.clock;
      live := live && WasCalm(deal.id.version, start, from);
      if status != Done { return; }
      if live { LivelyTells(Awake(world.device), image, deal, high, deal.spare); }
      if remote.size != size || remote.received > size { return InvalidSize, from, to; }
      if live { TransferSettles(W(), image, deal, high, world.fates, last, checksLeft); }
      status := TransferImage(sessionId, remote.received, id);
      to := world.clock;
    }

    /** VERIFY and the question whether it found the image good; a lost answer is not yet an error. */
    method VerifyRemote(ghost id: Option<Identity>, ghost deal: Deal, ghost patience: nat) returns (status: Status)
      requires Valid() && AllRelock(world.fates) && Travels(world.device, id) && Validated()
      modifies world, client
      ensures Valid() && Validated() && Travels(world.device, id) && old(world.clock) <= world.clock
      ensures status == Done ==> HeardState(W(), PENDING_BOOT)
      ensures old(Serves(world.device) && Checkable(Awake(world.device), CachedImage(), deal)) &&
              Cache.Crc32.Value(CachedImage()) == deal.id.crc32 && sessionId == deal.id.session &&
              Fair(world.fates, patience) && WasCalm(deal.id.version, old(world.clock), world.clock) ==>
                status == Done && Delivered(world.device, CachedImage(), deal)
    {
      hide Travels, AllRelock, Attempts, IsSystem, Cache.ImageMatches, Cache.ImageSize, Call, Fair, StatusOf,
           Serves, Awake, Checkable, Verified, Cache.Crc32.Value, QueryVerdict, HeardState, WasCalm, Calm, Delivered, Validated, CachedImage;
      ghost var image := CachedImage();
      ghost var start, w := world.clock, W();
      ghost var live := Serves(world.device) && Checkable(Awake(world.device), image, deal) &&
                        Cache.Crc32.Value(image) == deal.id.crc32 && sessionId == deal.id.session && Fair(world.fates, patience);
      if live {
        FairAt(start, patience);
        VerifyCall(w, image, deal, world.fates);
      }
      var result := Ask(VerifyImage, sessionId, [], MAX_RETRY_COUNT, id);
      live := live && WasCalm(deal.id.version, start, world.clock);
      if live { CalmCall(deal.id.version, start, world.clock); }
      if result.Error? && result.failure != TimedOut { return StatusOf(result.failure); }
      if result.Got? && result.response.reply != OK && result.response.reply != Busy { return InvalidCrc; }
      var after;
      w := W();
      status, after := Query(MAX_RETRY_COUNT, id);
      CalmSplits(deal.id.version, start, w.clock, world.clock);
      live := live && WasCalm(deal.id.version, w.clock, world.clock);
      if live { DeliveredTells(w, image, deal, patience, status, after); }
      if status == Done && after.body.bootState != PENDING_BOOT { return InvalidCrc; }
      if status == Done { StateHeardHere(w, after, PENDING_BOOT); }
    }

    lemma DeliveredTells(w: Wire, image: ImageBytes, deal: Deal, patience: nat, status: Status, after: Response)
      requires Valid() && IsWire(w) && Delivered(w.device, image, deal) && Fair(world.fates, patience)
      requires WasCalm(deal.id.version, w.clock, world.clock)
      requires var (w', result) := Call(w, world.fates, Command.Query, 0, 0, [], MAX_RETRY_COUNT);
               W() == w' && (status, after) == QueryVerdict(result)
      ensures Delivered(world.device, image, deal) && status == Done
      ensures after.body.ProgressBody? && after.body.bootState == PENDING_BOOT
    {
      FairAt(w.clock, patience);
      hide Fair, Calm, AnsweredWithin, Call, QueryVerdict, IsSystem, Serves, Awake, Verified;
      VerifiedTells(Awake(w.device), image, deal);
      QueryAnswered(w, Awake(w.device), world.fates, deal.id.version);
    }

    lemma StateHeardHere(w: Wire, after: Response, state: u16)
      requires Valid() && IsWire(w)
      requires var (w', result) := Call(w, world.fates, Command.Query, 0, 0, [], MAX_RETRY_COUNT);
               W() == w' && (Done, after) == QueryVerdict(result)
      requires after.body.ProgressBody? && after.body.bootState == state
      ensures HeardState(W(), state)
    {
      hide Call, IsSystem;
      assert SaysState(Call(w, world.fates, Command.Query, 0, 0, [], MAX_RETRY_COUNT), W(), state);
    }

    /**
     * Erase, transfer and VERIFY, as far as the device's state still asks for them.  From any state
     * between this package's START and its ACTIVATE, with resets and interrupted journal appends only
     * while the image is transferred, from exchange `from` to exchange `to`, and with polls and rounds
     * enough before an operator's abort, it ends well: the device waits for ACTIVATE with the cached
     * image in flash.
     */
    method Deliver(remoteState: u16, erasePolls: nat, ghost id: Option<Identity>, ghost deal: Deal, ghost patience: nat,
                   ghost last: nat)
      returns (status: Status, ghost from: nat, ghost to: nat)
      requires Valid() && AllRelock(world.fates) && Travels(world.device, id) && Validated()
      modifies this, world, client
      ensures Valid() && Validated() && Travels(world.device, id) && sessionId == old(sessionId)
      ensures old(world.clock) <= from <= to <= world.clock
      ensures status == Done && remoteState != PENDING_BOOT ==> HeardState(W(), PENDING_BOOT)
      ensures old(Deliverable(world.device, CachedImage(), deal)) && remoteState == old(RemoteState(world.device)) &&
              Prospect(old(sessionId), deal, patience, last) &&
              WasCalm(deal.id.version, old(world.clock), from) && WasCalm(deal.id.version, to, world.clock) &&
              erasePolls >= MAX_RETRY_COUNT && old(checksLeft) >= erasePolls + RoundsFor(CachedImage(), last) ==>
                && status == Done && Delivered(world.device, CachedImage(), deal)
                && checksLeft + erasePolls + RoundsFor(CachedImage(), last) >= old(checksLeft)
    {
      hide Travels, AllRelock, Attempts, IsSystem, TransferRun, Cache.ImageMatches, Cache.ImageSize, Call, Delivered,
           Cache.Crc32.Value, Validated, WasCalm, RoundsFor, Friendly, Fair;
      if Deliverable(world.device, CachedImage(), deal) {
        StageTells(world.device, CachedImage(), deal);
      }
      hide Deliverable, Serves, Awake, Checkable, Verified, RemoteState, HeardState;
      from, to := world.clock, world.clock;
      if remoteState == PENDING_BOOT { return Done, from, to; }
      if remoteState != VERIFYING {
        status, from, to := EraseAndTransfer(erasePolls, id, deal, patience, last);
        if status != Done { return; }
      }
      status := VerifyRemote(id, deal, patience);
    }

    /**
     * ACTIVATE is sent once, at exchange `at`; an ambiguous answer is resolved by probing the
     * application.  Under ordinary conditions it succeeds if and only if that one request arrives.
     */
    method ActivateAndWait(version: u32, polls: nat, ghost id: Option<Identity>, ghost image: ImageBytes, ghost deal: Deal,
                           ghost patience: nat)
      returns (status: Status, ghost at: nat)
      requires Valid() && AllRelock(world.fates) && Travels(world.device, id)
      modifies this, world, client
      ensures Valid() && Travels(world.device, id) && sessionId == old(sessionId) && at == old(world.clock) < world.clock
      ensures status == Done && id.Some? ==> Confirmed(world.device, id.value)
      ensures status == Done ==> Heard(W(), version)
      ensures Awaits(version, image, deal, patience) && WasCalm(version, at, world.clock) &&
              old(Delivered(world.device, image, deal)) &&
              old(sessionId) == deal.id.session && polls >= 2 * patience + MAX_RETRY_COUNT && old(checksLeft) >= polls ==>
                if Arrives(world.fates(at)) then status == Done && InPhase(2, world.device, image, deal)
                else status == TimedOutStatus
    {
      hide Travels, AllRelock, Attempts, IsSystem, Confirmed, InPhase, Delivered, Call, Heard, WasCalm;
      at := world.clock;
      ghost var w := W();
      ghost var live := Awaits(version, image, deal, patience) && Delivered(world.device, image, deal) &&
                        sessionId == deal.id.session;
      hide Awaits, Arrives;
      var result := Ask(Activate, sessionId, [], 1, id);
      ghost var middle := world.clock;
      live := live && WasCalm(version, at, middle);
      if live { ActivateCall(w, version, image, deal, patience, result); }
      if Delivered(world.device, image, deal) { DeliveredLingers(world.device, image, deal); }
      if result.Got? {
        if result.response.reply != OK {
          status := InvalidResponse;
          return;
        }
      } else if result.failure != TimedOut && result.failure != BadResponse {
        status := StatusOf(result.failure);
        return;
      }
      status := WaitForApplication(version, polls, id, image, deal, patience);
      CalmSplits(version, at, middle, world.clock);
    }

    lemma ActivateCall(w: Wire, version: u32, image: ImageBytes, deal: Deal, patience: nat, result: Result)
      requires Valid() && IsWire(w) && Awaits(version, image, deal, patience) && Delivered(w.device, image, deal)
      requires WasCalm(version, w.clock, world.clock) && w.clock < world.clock
      requires (W(), result) == Call(w, world.fates, Activate, deal.id.session, 0, [], 1)
      ensures result.Got? ==> result.response.reply == OK
      ensures result.Error? ==> result.failure == TimedOut
      ensures if Arrives(world.fates(w.clock)) then InPhase(0, world.device, image, deal) else Delivered(world.device, image, deal)
    {
      CalmSplits(version, w.clock, w.clock + 1, world.clock);
      CalmHere(version, w.clock);
      hide Attempts, Serves, Awake, Verified, TrialAwaits, Helps, Runnable, Fair, WasCalm, Arrives;
      ActivateSettles(w.device, Request(Activate, deal.id.session, w.seqno, 0, []), image, deal, world.fates, version, w.clock);
      TrialIsPhase(world.device, image, deal);
    }

    /** The image of the stored package. */
    ghost function PackageImage(): (image: ImageBytes)
      requires store.Valid()
      reads store, store.partition
    {
      var h := Cache.HeaderIn(store.Flash());
      if Cache.ImageSize(h) <= APP_MAX_SIZE then store.Flash()[Cache.IMAGE_OFFSET..Cache.IMAGE_OFFSET + Cache.ImageSize(h)] else []
    }

    /** The cache holds a good package. */
    ghost predicate HasPackage()
      requires store.Valid()
      reads store, store.partition
    {
      && store.found && Cache.CheckManifest(Cache.HeaderIn(store.Flash()), store.partition.Length) == Cache.Ok
      && Cache.ImageMatches(store.Flash(), Cache.HeaderIn(store.Flash()))
    }

    /**
     * The upgrade can go through: the cache holds a good package with an image that can run, the
     * device is ready for it, no transaction runs out of attempts, and the operator leaves time enough.
     */
    ghost predicate CanSucceed(freshSession: u32, discoverPolls: nat, erasePolls: nat, confirmPolls: nat, deal: Deal,
                               patience: nat, last: nat)
      requires Valid()
      reads this, world, store, store.partition
    {
      && HasPackage()
      && Ready(LocalManifest(Cache.HeaderIn(store.Flash())), freshSession, PackageImage(), deal, patience)
      && Runnable(PackageImage(), deal) && Prospect(deal.id.session, deal, patience, last)
      && discoverPolls >= 2 * MAX_RETRY_COUNT && erasePolls >= MAX_RETRY_COUNT
      && confirmPolls >= 2 * patience + MAX_RETRY_COUNT
      && checksLeft >= discoverPolls + erasePolls + RoundsFor(PackageImage(), last) + confirmPolls
    }

    lemma SuccessNeeds(freshSession: u32, discoverPolls: nat, erasePolls: nat, confirmPolls: nat, deal: Deal, patience: nat,
                       last: nat)
      requires Valid() && CanSucceed(freshSession, discoverPolls, erasePolls, confirmPolls, deal, patience, last)
      ensures HasPackage()
      ensures var local := LocalManifest(Cache.HeaderIn(store.Flash()));
              && Ready(local, freshSession, PackageImage(), deal, patience) && Prospect(deal.id.session, deal, patience, last)
              && Awaits(local.version, PackageImage(), deal, patience) && deal.id.version == local.version
      ensures discoverPolls >= 2 * MAX_RETRY_COUNT && erasePolls >= MAX_RETRY_COUNT
      ensures confirmPolls >= 2 * patience + MAX_RETRY_COUNT
      ensures checksLeft >= discoverPolls + erasePolls + RoundsFor(PackageImage(), last) + confirmPolls
    {
      hide Ready, Fair, Friendly, LocalManifest, Runnable, RoundsFor, TornAppends;
      ReadyCases(LocalManifest(Cache.HeaderIn(store.Flash())), freshSession, PackageImage(), deal, patience);
    }

    /**
     * The upgrade task.  A success means that the package was validated and that the last thing heard
     * was its version as CONFIRMED; if its START was answered OK, the device has confirmed exactly the
     * cached package under this session, and both its flash and the cache have the package's CRC-32.
     * When the upgrade can go through, with resets and interrupted journal appends only while the image
     * is transferred, from exchange `from` to exchange `to`, it does so if and only if its one ACTIVATE,
     * sent at exchange `at`, arrives: then the device runs the package's image, confirmed, and
     * otherwise the task times out.
     */
    method Run(enterSession: u32, freshSession: u32, discoverPolls: nat, erasePolls: nat, confirmPolls: nat,
               ghost deal: Deal, ghost patience: nat, ghost last: nat)
      returns (status: Status, started: bool, ghost from: nat, ghost to: nat, ghost at: nat, ghost end: nat)
      requires Valid() && AllRelock(world.fates) && Sound(world.device)
      modifies this, world, client, store`manifest, store`manifestValid
      ensures Valid() && Sound(world.device)
      ensures status == Done ==>
                && Validated() && store.manifest == Cache.HeaderIn(store.Flash())
                && Heard(W(), LocalManifest(store.manifest).version)
      ensures status == Done && started ==>
                && Validated() && store.manifest == Cache.HeaderIn(store.Flash())
                && Confirmed(world.device, IdOfStart(sessionId, LocalManifest(store.manifest)))
      ensures old(world.clock) <= from <= to <= at <= end <= world.clock
      ensures old(CanSucceed(freshSession, discoverPolls, erasePolls, confirmPolls, deal, patience, last)) &&
              WasCalm(deal.id.version, old(world.clock), from) && WasCalm(deal.id.version, to, end) ==>
                && sessionId == deal.id.session
                && if Arrives(world.fates(at)) then status == Done && InPhase(2, world.device, old(PackageImage()), deal)
                   else status == TimedOutStatus
    {
      hide AllRelock, Attempts, IsSystem, OnJourney, Sound, Confirmed, Cache.ImageMatches, Cache.CheckManifest, LocalManifest,
           InPhase, Arrives, Deliverable, Delivered, RemoteState, Ready, Cache.HeaderIn, CanSucceed, Prospect, Awaits, Heard,
           WasCalm, RoundsFor, Call;
      ghost var live := CanSucceed(freshSession, discoverPolls, erasePolls, confirmPolls, deal, patience, last);
      ghost var image := PackageImage();
      if live { SuccessNeeds(freshSession, discoverPolls, erasePolls, confirmPolls, deal, patience, last); }
      ghost var start, v := world.clock, deal.id.version;
      sessionId, started := 0, false;
      from, to, at, end := start, start, start, start;
      var validated := store.Validate();
      if validated != Cache.Ok {
        status := StoreStatus(validated);
        return;
      }
      Cache.CheckedSizeFits(store.manifest, store.partition.Length);
      assert CachedImage() == PackageImage() == image;
      hide Cache.ImageSize;
      var local := LocalManifest(store.manifest);
      var remote, kind, before;
      ghost var id;
      status, started, remote, kind, before, id :=
        Negotiate(local, enterSession, freshSession, discoverPolls, image, deal, patience);
      ghost var met := world.clock;
      from, to, at, end := met, met, met, met;
      if status == Done {
        status, from, to := Deliver(remote.bootState, erasePolls, id, deal, patience, last);
        at, end := world.clock, world.clock;
        CalmSplits(v, start, met, from);
      }
      if status == Done {
        status, at := ActivateAndWait(local.version, confirmPolls, id, image, deal, patience);
        end := world.clock;
        CalmSplits(v, to, at, end);
      }
      if status != Done && checksLeft == 0 && sessionId != 0 {
        var ignored := Ask(Abort, sessionId, [], MAX_RETRY_COUNT, None);
      }
    }
  }

  /** A transaction only ever returns an answer to its own command and sequence number. */
  lemma {:induction false} AnswersMatch(s: System, req: Request, fates: nat -> Fate, clock: nat, left: nat, last: Failure)
    requires IsSystem(s)
    ensures var result := Attempts(s, req, fates, clock, left, last).2;
            result.Got? ==> result.response.command == req.command && result.response.seqno == req.seqno
    decreases left
  {
    hide Exchange, IsSystem;
    if left > 0 {
      var (s', outcome) := Exchange(s, req, fates(clock));
      AnswersMatch(s', req, fates, clock + 1, left - 1, if outcome.NoAnswer? then outcome.failure else BadResponse);
    }
  }
}
