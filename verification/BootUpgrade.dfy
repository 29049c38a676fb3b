/** The bootloader's upgrade service: its static variables, its handlers and its poll loop. */
module BootUpgrade {
  import opened Types
  import opened ByteOrder
  import opened Messages
  import opened MetadataLog
  import opened BootMetadata
  import opened FlashIf
  import opened Device
  import Flash = FlashImage
  import Crc32
  import ModbusRtu
  import UpgradeProtocol

  const NODE_ADDRESS: byte := 1
  const ILLEGAL_FUNCTION: byte := 1
  const ILLEGAL_DATA_VALUE: byte := 3

  /** What one poll of the transport finds. */
  datatype Incoming =
    | Nothing
    | NotForThisNode
    | ForeignFunction(func: byte, sent: bool)
    | BadMessage(sent: bool)
    | Upgrade(req: Request, sent: bool, faults: Faults)

  function EventsOf(incoming: Incoming): seq<Event> {
    match incoming
    case Nothing => []
    case NotForThisNode => []
    case ForeignFunction(_, _) => [Addressed]
    case BadMessage(_) => [Addressed]
    case Upgrade(req, sent, f) => [Receive(req, sent, f)]
  }

  function AfterPoll(s: System, incoming: Incoming): (r: System)
    requires IsSystem(s)
    ensures IsSystem(r)
  {
    var events := EventsOf(incoming);
    if events == [] then s else Step(s, events[0]).0
  }

  /** The recovery window: polls until something is addressed to this node. */
  function WindowRun(s: System, window: seq<Incoming>): (r: System)
    requires IsSystem(s)
    ensures IsSystem(r)
    decreases |window|
  {
    if window == [] || !s.mode.Window? then s else WindowRun(AfterPoll(s, window[0]), window[1..])
  }

  /** A power-on up to the jump or the service loop. */
  function BootRun(s: System, transportUp: bool, image: Image, window: seq<Incoming>, f: Faults): (r: System)
    requires IsSystem(s)
    ensures IsSystem(r)
  {
    var started := Step(s, PowerOn(transportUp, image, f)).0;
    if !started.mode.Window? then started
    else Step(WindowRun(started, window), WindowEnds(image, f)).0
  }

  lemma DispatchKeepsActivity(b: Boot, req: Request, f: Faults)
    requires IsBoot(b)
    ensures Dispatch(b, req, f).0.ram.activity == b.ram.activity
  {
    hide AppendState, HandleStart, HandleData, HandleVerify, WellFormed;
    match req.command {
      case Start => StartKeepsFlags(b, req, f);
      case Erase => AppendStateKeepsFlags(b, ERASING, 0, f.first);
      case Data => DataKeepsFlags(b, req, f);
      case VerifyImage => VerifyKeepsFlags(b, req, f);
      case Abort => AppendStateKeepsFlags(b, FAILED, 0, f.first);
      case _ =>
    }
  }

  /** A handled request ends the recovery window for good. */
  lemma PollSetsActivity(b: Boot, req: Request, sent: bool, f: Faults)
    requires IsBoot(b)
    ensures Device.Poll(b, req, sent, f).0.ram.activity
  {
    var active := b.(ram := b.ram.(activity := true));
    DispatchKeepsActivity(active, req, f);
    var b1 := Dispatch(active, req, f).0;
    hide Dispatch;
    if b1.ram.deferred == EraseApp {
      var erased := b1.(ram := b1.ram.(deferred := NoAction), flash := Flash.Erase(b1.flash, b1.ram.rec.size, f.flash).0);
      AppendStateKeepsFlags(erased.(ram := erased.ram.(rec := erased.ram.rec.(received := 0))), RECEIVING, 0, f.second);
      AppendStateKeepsFlags(erased, FAILED, FLASH_ERROR_CODE, f.second);
      hide AppendState, Flash.Erase;
    }
  }

  class Bootloader {
    const journal: Journal
    const app: AppFlash
    var rec: Record
    var hasRecord: bool
    var metadataCorrupt: bool
    var activity: bool
    var decisionMade: bool
    var decisionAllows: bool
    var deferred: Deferred

    ghost predicate Valid()
      reads this
    {
      && journal.Valid() && app.Valid()
      && (journal.words as object) != app.bytes
      && rec.size <= APP_MAX_SIZE
    }

    ghost function View(): (b: Boot)
      requires Valid()
      reads this, journal.words, app.bytes
      ensures IsBoot(b)
    {
      LogOfIsWellFormed(journal.words[..]);
      Boot(journal.Log(), app.bytes[..],
           Ram(rec, hasRecord, metadataCorrupt, activity, decisionMade, decisionAllows, deferred))
    }

    constructor (journal: Journal, app: AppFlash)
      requires journal.Valid() && app.Valid() && (journal.words as object) != app.bytes
      ensures this.journal == journal && this.app == app
      ensures Valid() && View() == Boot(old(journal.Log()), old(app.bytes[..]), InitRam(old(journal.Log())))
    {
      this.journal, this.app := journal, app;
      rec, hasRecord, metadataCorrupt := InitRecord(EMPTY), false, false;
      activity, decisionMade, decisionAllows, deferred := false, false, false, NoAction;
      new;
      Init();
    }

    method Init()
      requires Valid()
      modifies this
      ensures Valid() && View() == Boot(old(journal.Log()), old(app.bytes[..]), InitRam(old(journal.Log())))
    {
      hasRecord, metadataCorrupt, activity := false, false, false;
      decisionMade, decisionAllows, deferred := false, false, NoAction;
      LogOfIsWellFormed(journal.words[..]);
      LatestIsValid(journal.Log());
      hide LogOf, Latest, HasUsed, WellFormed;
      var status, latest := journal.LoadLatest();
      if status == Ok {
        rec := latest.value;
        hasRecord := true;
      } else if status == Corrupt {
        rec := InitRecord(FAILED).(error := FLASH_ERROR_CODE);
        metadataCorrupt := true;
      } else {
        rec := InitRecord(EMPTY);
      }
    }

    method CurrentState() returns (state: u16)
      requires Valid()
      ensures state == State(View())
    {
      state := if hasRecord then rec.state else EMPTY;
    }

    method AppendState(state: u16, error: u32, plan: Plan) returns (reply: Reply)
      requires Valid()
      modifies this, journal.words
      ensures Valid() && (View(), reply) == Device.AppendState(old(View()), state, error, plan)
    {
      hide LogOf, MetadataLog.Append;
      if metadataCorrupt { return FlashError; }
      var desired := if hasRecord then rec else InitRecord(state);
      desired := desired.(state := state, error := error);
      var status, written := journal.Append(desired, plan);
      if status != Ok { return FlashError; }
      rec := written;
      hasRecord := true;
      return OK;
    }

    method ManifestMatches(m: Manifest) returns (matches: bool)
      requires Valid()
      ensures matches <==> Device.ManifestMatches(View().ram, m)
    {
      if !hasRecord || rec.version != m.version || rec.size != m.size || rec.crc32 != m.crc32 {
        return false;
      }
      var index := 0;
      while index < |m.sha|
        invariant 0 <= index <= |m.sha|
        invariant rec.sha[..index] == m.sha[..index]
      {
        if rec.sha[index] != m.sha[index] { return false; }
        index := index + 1;
      }
      assert rec.sha[..index] == rec.sha && m.sha[..index] == m.sha;
      return true;
    }

    /** The CRC-32 of the image as it lies in flash, one byte and one bit at a time. */
    method Crc32App(size: u32) returns (crc: u32)
      requires Valid() && size <= APP_MAX_SIZE
      ensures crc == ImageCrc(app.bytes[..], size)
    {
      hide Crc32.Register, Crc32.Finish;
      var register := Crc32.UpdateLoop(Crc32.INITIAL, app.bytes[..size]);
      assert app.bytes[..][..size] == app.bytes[..size];
      crc := Crc32.Finish(register);
    }

    method HandleStart(req: Request, f: Faults) returns (reply: Reply, offset: u32)
      requires Valid()
      modifies this, journal.words
      ensures Valid() && Handled(View(), reply, offset) == Device.HandleStart(old(View()), req, f)
    {
      hide LogOf, MetadataLog.Append, MetadataLog.CompactIfNeeded, DecodeManifest, WellFormed;
      offset := if hasRecord then rec.received else 0;
      var decoded := DecodeManifest(req.payload);
      if req.session == 0 || req.offset != 0 || decoded.None? { return BadFrame, offset; }
      var m := decoded.value;
      if m.size == 0 || m.size > APP_MAX_SIZE { return BadImageSize, offset; }
      if m.product != PRODUCT_ID { return BadProduct, offset; }
      if m.hardware != HARDWARE_ID { return BadHardware, offset; }
      if m.version == 0 { return VersionRejected, offset; }

      var state := CurrentState();
      if state == ERASING || state == RECEIVING || state == VERIFYING || state == PENDING_BOOT {
        var matches := ManifestMatches(m);
        if rec.session != req.session || !matches { return Busy, offset; }
        return if state == ERASING || state == VERIFYING then Busy else OK, rec.received;
      }

      var status := journal.CompactIfNeeded((m.size + CHECKPOINT_SIZE - 1) / CHECKPOINT_SIZE + STATE_RECORD_OVERHEAD, f.first);
      if status != Ok && status != Empty { return FlashError, offset; }
      var desired := InitRecord(UPDATE_REQUESTED).(
        session := req.session, version := m.version, size := m.size, crc32 := m.crc32, sha := m.sha);
      var written;
      status, written := journal.Append(desired, f.second);
      if status != Ok { return FlashError, offset; }
      rec := written;
      hasRecord := true;
      metadataCorrupt := false;
      return OK, 0;
    }

    method HandleErase(req: Request, f: Faults) returns (reply: Reply)
      requires Valid()
      modifies this, journal.words
      ensures Valid() && (View(), reply) == Device.HandleErase(old(View()), req, f)
    {
      hide LogOf, Device.AppendState;
      if !IsBare(req) { return BadFrame; }
      if !hasRecord || req.session != rec.session { return BadSession; }
      var state := CurrentState();
      if state == RECEIVING { return OK; }
      if state != UPDATE_REQUESTED && state != ERASING { return Busy; }
      if state == UPDATE_REQUESTED {
        reply := AppendState(ERASING, 0, f.first);
        if reply != OK { return; }
      }
      deferred := EraseApp;
      return Busy;
    }

    /** The RAM offset moves first; a checkpoint that fails to become durable moves it back. */
    method Advance(length: nat, plan: Plan) returns (reply: Reply)
      requires Valid() && rec.received + length < 0x1_0000_0000
      modifies this, journal.words
      ensures Valid() && (View(), reply) == Device.Advance(old(View()), length, plan)
    {
      hide LogOf, Device.AppendState;
      var oldOffset := rec.received;
      var newOffset := oldOffset + length;
      var previous := rec;
      rec := rec.(received := newOffset);
      reply := OK;
      if oldOffset / CHECKPOINT_SIZE != newOffset / CHECKPOINT_SIZE || newOffset == rec.size {
        reply := AppendState(RECEIVING, 0, plan);
        if reply != OK {
          rec := previous;
        }
      }
    }

    method AcceptChunk(data: Payload, final: bool, f: Faults) returns (reply: Reply)
      requires Valid() && rec.received + |data| <= APP_MAX_SIZE
      modifies this, journal.words, app.bytes
      ensures Valid() && (View(), reply) == Device.AcceptChunk(old(View()), data, final, f)
    {
      hide LogOf, Device.Advance, Flash.Write, Flash.Verify;
      assert app.bytes[..][rec.received..rec.received + |data|] == app.bytes[rec.received..rec.received + |data|];
      var erased := app.RangeIsErased(rec.received, |data|);
      var status: Flash.Status;
      if !erased {
        status := app.Verify(rec.received, data);
      } else {
        status := app.Write(rec.received, data, final, f.flash);
      }
      if status != Flash.Ok { return FlashError; }
      reply := Advance(|data|, f.second);
    }

    method HandleData(req: Request, f: Faults) returns (reply: Reply)
      requires Valid()
      modifies this, journal.words, app.bytes
      ensures Valid() && (View(), reply) == Device.HandleData(old(View()), req, f)
    {
      hide LogOf, Device.AcceptChunk, Flash.Verify;
      if !hasRecord || req.session != rec.session { return BadSession; }
      var state := CurrentState();
      if state != RECEIVING { return Busy; }
      var check := ValidateChunk(req.offset, |req.payload|, rec.size);
      if check == ChunkMisaligned { return BadOffset; }
      if check == ChunkRejected { return BadImageSize; }
      var action := ClassifyOffset(req.offset, rec.received);
      if action == RejectGap { return BadOffset; }
      if action == Duplicate {
        if |req.payload| > rec.received - req.offset { return BadOffset; }
        var status := app.Verify(req.offset, req.payload);
        return if status != Flash.Ok then FlashError else OK;
      }
      reply := AcceptChunk(req.payload, check.final, f);
    }

    method HandleVerify(req: Request, f: Faults) returns (reply: Reply)
      requires Valid()
      modifies this, journal.words
      ensures Valid() && (View(), reply) == Device.HandleVerify(old(View()), req, f)
    {
      hide LogOf, Device.AppendState, ImageCrc;
      if !IsBare(req) { return BadFrame; }
      if !hasRecord || req.session != rec.session { return BadSession; }
      var state := CurrentState();
      if state != RECEIVING && state != VERIFYING { return Busy; }
      if rec.received != rec.size { return BadOffset; }
      if state == RECEIVING {
        reply := AppendState(VERIFYING, 0, f.first);
        if reply != OK { return; }
      }
      var crc := Crc32App(rec.size);
      if crc != rec.crc32 {
        var ignored := AppendState(FAILED, VERIFY_FAILED_CODE, f.second);
        return VerifyFailed;
      }
      reply := AppendState(PENDING_BOOT, 0, f.second);
    }

    method HandleActivate(req: Request) returns (reply: Reply)
      requires Valid()
      modifies this
      ensures Valid() && (View(), reply) == Device.HandleActivate(old(View()), req)
    {
      hide LogOf;
      if !IsBare(req) { return BadFrame; }
      if !hasRecord || req.session != rec.session { return BadSession; }
      var state := CurrentState();
      if state != PENDING_BOOT { return Busy; }
      deferred := ResetDevice;
      return OK;
    }

    method HandleAbort(req: Request, f: Faults) returns (reply: Reply)
      requires Valid()
      modifies this, journal.words
      ensures Valid() && (View(), reply) == Device.HandleAbort(old(View()), req, f)
    {
      hide LogOf, Device.AppendState;
      if !IsBare(req) { return BadFrame; }
      if !hasRecord || req.session != rec.session { return BadSession; }
      reply := AppendState(FAILED, 0, f.first);
    }

    method HandleQuery(req: Request, response: Response) returns (filled: Response)
      requires Valid()
      ensures filled == if !IsBare(req) then response.(reply := BadFrame)
                        else response.(reply := if State(View()) == ERASING then Busy else OK,
                                       session := if View().ram.has then View().ram.rec.session else 0,
                                       offset := Received(View()), body := Progress(View()))
    {
      if !IsBare(req) { return response.(reply := BadFrame); }
      var state := CurrentState();
      var received, size, error := 0, 0, 0;
      filled := response.(reply := if state == ERASING then Busy else OK, session := 0);
      if hasRecord {
        received, size, error := rec.received, rec.size, rec.error;
        filled := filled.(session := rec.session);
      }
      filled := filled.(offset := received, body := ProgressBody(state, received, size, error));
    }

    method Dispatch(req: Request, f: Faults) returns (response: Response)
      requires Valid()
      modifies this, journal.words, app.bytes
      ensures Valid() && (View(), response) == Device.Dispatch(old(View()), req, f)
    {
      hide LogOf, Device.HandleStart, Device.HandleErase, Device.HandleData, Device.HandleVerify, Device.HandleActivate,
           Device.HandleAbort, Progress, WellFormed, Flash.IsFlash;
      response := Response(req.command, OK, req.session, req.seqno, if hasRecord then rec.received else 0, NoBody);
      var reply: Reply;
      match req.command {
        case Hello =>
          if !IsBare(req) { return response.(reply := BadFrame); }
          return response.(body := HelloBody(true, false, MAX_PAYLOAD));
        case GetInfo =>
          if !IsBare(req) { return response.(reply := BadFrame); }
          var state := CurrentState();
          var version := if hasRecord then rec.version else 0;
          return response.(body := InfoBody(PRODUCT_ID, HARDWARE_ID, version, APP_MAX_SIZE, state, true));
        case EnterBoot =>
          return response.(reply := if IsBare(req) then OK else BadFrame);
        case Start =>
          var offset;
          reply, offset := HandleStart(req, f);
          return response.(reply := reply, offset := offset);
        case Erase =>
          reply := HandleErase(req, f);
          return response.(reply := reply);
        case Data =>
          reply := HandleData(req, f);
          var next := if hasRecord then rec.received else 0;
          return response.(reply := reply, offset := next, body := AckBody(reply, req.seqno, next));
        case Query =>
          response := HandleQuery(req, response);
        case VerifyImage =>
          reply := HandleVerify(req, f);
          return response.(reply := reply);
        case Activate =>
          reply := HandleActivate(req);
          return response.(reply := reply);
        case Abort =>
          reply := HandleAbort(req, f);
          return response.(reply := reply);
        case GetLog =>
          return response.(reply := BadFrame);
      }
    }

    method RunDeferred(f: Faults) returns (reset: bool)
      requires Valid()
      modifies this, journal.words, app.bytes
      ensures Valid() && (View(), reset) == Device.RunDeferred(old(View()), f)
    {
      hide LogOf, Device.AppendState, Flash.Erase;
      var action := deferred;
      deferred := NoAction;
      reset := false;
      if action == EraseApp {
        var status := app.Erase(rec.size, f.flash);
        if status == Flash.Ok {
          rec := rec.(received := 0);
          var ignored := AppendState(RECEIVING, 0, f.second);
        } else {
          var ignored := AppendState(FAILED, FLASH_ERROR_CODE, f.second);
        }
      } else if action == ResetDevice {
        reset := true;
      }
    }

    method ApplicationIsPending() returns (pending: bool)
      requires Valid()
      ensures pending <==> IsPending(View().ram)
    {
      var state := CurrentState();
      pending := !metadataCorrupt && hasRecord && state == PENDING_BOOT;
    }

    method PrepareApplicationBoot(plan: Plan) returns (go: bool)
      requires Valid()
      modifies this, journal.words
      ensures Valid() && (View(), go) == Prepare(old(View()), plan)
    {
      hide LogOf, Device.AppendState;
      if decisionMade { return decisionAllows; }
      decisionMade := true;
      var state := CurrentState();
      if metadataCorrupt {
        decisionAllows := true;
        return true;
      }
      if state == PENDING_BOOT {
        if rec.error >= PENDING_BOOT_MAX_ATTEMPTS {
          var ignored := AppendState(FAILED, TIMEOUT_CODE, plan);
          return false;
        }
        var reply := AppendState(PENDING_BOOT, rec.error + 1, plan);
        if reply != OK { return false; }
        decisionAllows := true;
        return true;
      }
      decisionAllows := state == EMPTY || state == APP_VALID || state == CONFIRMED;
      return decisionAllows;
    }

    /** One frame at most: an upgrade request is handled and answered, anything else for this node gets an exception. */
    method Poll(incoming: Incoming)
      returns (response: Option<Response>, exception: Option<ModbusRtu.Frame>, reset: bool)
      requires Valid()
      modifies this, journal.words, app.bytes
      ensures Valid()
      ensures match incoming
              case Nothing => View() == old(View()) && response.None? && exception.None? && !reset
              case NotForThisNode => View() == old(View()) && response.None? && exception.None? && !reset
              case ForeignFunction(func, sent) =>
                && View() == old(View()).(ram := old(View()).ram.(activity := true)) && response.None? && !reset
                && exception == if sent then ModbusRtu.ExceptionFrame(NODE_ADDRESS, func, ILLEGAL_FUNCTION) else None
              case BadMessage(sent) =>
                && View() == old(View()).(ram := old(View()).ram.(activity := true)) && response.None? && !reset
                && exception == if sent
                                then ModbusRtu.ExceptionFrame(NODE_ADDRESS, UpgradeProtocol.FUNCTION_CODE, ILLEGAL_DATA_VALUE)
                                else None
              case Upgrade(req, sent, f) =>
                var (b, answer, resets) := Device.Poll(old(View()), req, sent, f);
                View() == b && reset == resets && exception.None? && response == if sent then Some(answer) else None
    {
      hide LogOf, Device.Dispatch, Device.RunDeferred;
      response, exception, reset := None, None, false;
      if incoming.Nothing? || incoming.NotForThisNode? { return; }
      activity := true;
      if incoming.ForeignFunction? {
        if incoming.sent { exception := ModbusRtu.ExceptionFrame(NODE_ADDRESS, incoming.func, ILLEGAL_FUNCTION); }
        return;
      }
      if incoming.BadMessage? {
        if incoming.sent {
          exception := ModbusRtu.ExceptionFrame(NODE_ADDRESS, UpgradeProtocol.FUNCTION_CODE, ILLEGAL_DATA_VALUE);
        }
        return;
      }
      assert View() == old(View()).(ram := old(View()).ram.(activity := true));
      var answer := Dispatch(incoming.req, incoming.faults);
      if incoming.sent {
        reset := RunDeferred(incoming.faults);
        response := Some(answer);
      } else {
        deferred := NoAction;
      }
    }

    /** The vector table of the image: an initial stack in SRAM or CCM, a Thumb entry inside the APP partition. */
    method IsAppValid() returns (ok: bool)
      requires Valid()
      ensures ok <==> Device.IsAppValid(app.bytes[..])
    {
      var sp := Read32(app.bytes[..8], 0);
      var entry := Read32(app.bytes[..8], 4);
      if !((0x2000_0000 <= sp <= 0x2002_0000) || (0x1000_0000 <= sp <= 0x1001_0000)) { return false; }
      if sp % 8 != 0 { return false; }
      if entry % 2 != 1 { return false; }
      return 0x0802_0000 <= entry - 1 < 0x0810_0000;
    }

    ghost function Machine(mode: Mode): System
      requires Valid()
      reads this, journal.words, app.bytes
    {
      System(journal.Log(), app.bytes[..], mode)
    }

    method WaitInWindow(window: seq<Incoming>) returns (reset: bool)
      requires Valid() && !activity
      modifies this, journal.words, app.bytes
      ensures Valid()
      ensures Machine(if reset then Off else if activity then Service(View().ram) else Window(View().ram)) ==
              WindowRun(old(Machine(Window(View().ram))), window)
      ensures !reset && !activity ==> View() == old(View())
    {
      hide LogOf, Device.Poll;
      reset := false;
      var tick := 0;
      assert window[0..] == window;
      while tick < |window| && !activity && !reset
        invariant 0 <= tick <= |window| && Valid()
        invariant !reset && !activity ==> View() == old(View())
        invariant IsSystem(Machine(if reset then Off else if activity then Service(View().ram) else Window(View().ram)))
        invariant WindowRun(old(Machine(Window(View().ram))), window) ==
                  WindowRun(Machine(if reset then Off else if activity then Service(View().ram) else Window(View().ram)), window[tick..])
      {
        ghost var before := Machine(Window(View().ram));
        assert window[tick..][0] == window[tick] && window[tick..][1..] == window[tick + 1..];
        var response, exception;
        if window[tick].Upgrade? {
          PollSetsActivity(View(), window[tick].req, window[tick].sent, window[tick].faults);
        }
        response, exception, reset := Poll(window[tick]);
        assert AfterPoll(before, window[tick]) ==
               Machine(if reset then Off else if activity then Service(View().ram) else Window(View().ram));
        tick := tick + 1;
      }
    }

    /**
     * The boot block after reset: load the metadata, check the vectors, then a pending image
     * gets its attempt at once, any other bootable image after a silent recovery window.
     */
    method BootBlock(transportUp: bool, image: Image, window: seq<Incoming>, f: Faults) returns (jump: bool, reset: bool)
      requires Valid()
      modifies this, journal.words, app.bytes
      ensures Valid() && !(jump && reset)
      ensures var mode := if jump then App(image.version, AppInit(View().log, image.transportUp, image.version), false)
                          else if reset then Off
                          else if transportUp then Service(View().ram) else Silent(View().ram);
              Machine(mode) == BootRun(old(Machine(Off)), transportUp, image, window, f)
    {
      hide LogOf, Prepare, Latest, HasUsed, Device.IsAppValid, WindowRun, AppInit;
      jump, reset := false, false;
      LogOfIsWellFormed(journal.words[..]);
      var status, latest := journal.LoadLatest();
      var allows := if status == Ok then AllowsBoot(latest.value.state) else true;
      var valid := IsAppValid();
      Init();
      if allows && valid {
        var pending := ApplicationIsPending();
        if transportUp && !pending {
          reset := WaitInWindow(window);
          if reset || activity { return; }
        }
        jump := PrepareApplicationBoot(f.first);
      }
    }
  }
}
