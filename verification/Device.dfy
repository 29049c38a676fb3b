/**
 * The STM32 side as a state machine on values: the bootloader's request handlers, its
 * boot decision, and the application's confirmation and ENTER_BOOT service.  Every flash
 * and journal primitive takes the faults the hardware shows during it.
 */
module Device {
  import opened Types
  import opened ByteOrder
  import opened Messages
  import opened MetadataLog
  import Flash = FlashImage
  import Crc32

  const PENDING_BOOT_MAX_ATTEMPTS: nat := 3
  const STATE_RECORD_OVERHEAD: nat := 8
  const APP_MAX_REQUIRED_RECORDS: nat := 232

  datatype Deferred = NoAction | EraseApp | ResetDevice

  datatype Ram = Ram(
    rec: Record,
    has: bool,
    corrupt: bool,
    activity: bool,
    decided: bool,
    allowed: bool,
    deferred: Deferred)

  /** The bootloader: its journal, the APP partition and its static variables. */
  datatype Boot = Boot(log: Log, flash: seq<byte>, ram: Ram)

  /** What fails during one event: up to two journal operations and one APP flash operation. */
  datatype Faults = Faults(first: Plan, second: Plan, flash: Hal)

  const NONE_FAIL: Faults := Faults(NO_FAULTS, NO_FAULTS, HEALTHY)

  predicate IsBoot(b: Boot) { WellFormed(b.log) && Flash.IsFlash(b.flash) && b.ram.rec.size <= APP_MAX_SIZE }

  function State(b: Boot): u16 { if b.ram.has then b.ram.rec.state else EMPTY }

  function Received(b: Boot): u32 { if b.ram.has then b.ram.rec.received else 0 }

  function ImageCrc(flash: seq<byte>, size: u32): u32
    requires size <= |flash|
  {
    Crc32.Value(flash[..size])
  }

  // ---- Journal access ----

  function AppendState(b: Boot, state: u16, error: u32, plan: Plan): (r: (Boot, Reply))
    requires IsBoot(b)
    ensures IsBoot(r.0) && r.0.flash == b.flash
  {
    if b.ram.corrupt then (b, FlashError)
    else
      var current := if b.ram.has then b.ram.rec else InitRecord(state);
      var r := Append(b.log, current.(state := state, error := error), plan);
      if r.status != Ok then (b.(log := r.log), FlashError)
      else (b.(log := r.log, ram := b.ram.(rec := r.written, has := true)), OK)
  }

  predicate ManifestMatches(ram: Ram, m: Manifest) {
    ram.has && ram.rec.version == m.version && ram.rec.size == m.size && ram.rec.crc32 == m.crc32 &&
    ram.rec.sha == m.sha
  }

  // ---- Request handlers ----

  function RequiredRecords(size: u32): nat {
    (size + CHECKPOINT_SIZE - 1) / CHECKPOINT_SIZE + STATE_RECORD_OVERHEAD
  }

  function StartRecord(session: u32, m: Manifest): Record {
    Record(UPDATE_REQUESTED, 0, session, m.version, m.size, 0, m.crc32, m.sha, 0)
  }

  predicate InSession(state: u16) {
    state == ERASING || state == RECEIVING || state == VERIFYING || state == PENDING_BOOT
  }

  /** What START answers before it looks at the session state. */
  function StartRefusal(req: Request): Reply {
    var m := DecodeManifest(req.payload);
    if req.session == 0 || req.offset != 0 || m.None? then BadFrame
    else if m.value.size == 0 || m.value.size > APP_MAX_SIZE then BadImageSize
    else if m.value.product != PRODUCT_ID then BadProduct
    else if m.value.hardware != HARDWARE_ID then BadHardware
    else if m.value.version == 0 then VersionRejected
    else OK
  }

  /** The handled request: new state, status, and the response offset. */
  datatype Handled = Handled(b: Boot, reply: Reply, offset: u32)

  function HandleStart(b: Boot, req: Request, f: Faults): (r: Handled)
    requires IsBoot(b)
    ensures IsBoot(r.b)
  {
    if StartRefusal(req) != OK then Handled(b, StartRefusal(req), Received(b))
    else
      var m := DecodeManifest(req.payload).value;
      if InSession(State(b)) then
        if b.ram.rec.session != req.session || !ManifestMatches(b.ram, m) then Handled(b, Busy, Received(b))
        else Handled(b, if State(b) == ERASING || State(b) == VERIFYING then Busy else OK, b.ram.rec.received)
      else
        var (log1, status) := CompactIfNeeded(b.log, RequiredRecords(m.size), f.first);
        if status != Ok && status != Empty then Handled(b.(log := log1), FlashError, Received(b))
        else
          var r := Append(log1, StartRecord(req.session, m), f.second);
          if r.status != Ok then Handled(b.(log := r.log), FlashError, Received(b))
          else Handled(b.(log := r.log, ram := b.ram.(rec := r.written, has := true, corrupt := false)), OK, 0)
  }

  function HandleErase(b: Boot, req: Request, f: Faults): (r: (Boot, Reply))
    requires IsBoot(b)
    ensures IsBoot(r.0)
  {
    if !IsBare(req) then (b, BadFrame)
    else if !b.ram.has || req.session != b.ram.rec.session then (b, BadSession)
    else if State(b) == RECEIVING then (b, OK)
    else if State(b) != UPDATE_REQUESTED && State(b) != ERASING then (b, Busy)
    else if State(b) == UPDATE_REQUESTED then
      var (b1, reply) := AppendState(b, ERASING, 0, f.first);
      if reply != OK then (b1, reply) else (b1.(ram := b1.ram.(deferred := EraseApp)), Busy)
    else (b.(ram := b.ram.(deferred := EraseApp)), Busy)
  }

  // ---- DATA ----

  datatype ChunkCheck = ChunkOk(final: bool) | ChunkMisaligned | ChunkRejected

  function ValidateChunk(offset: u32, length: nat, size: u32): ChunkCheck {
    if size == 0 || size > APP_MAX_SIZE then ChunkRejected
    else if length == 0 || length > MAX_PAYLOAD then ChunkRejected
    else if offset % Flash.WORD != 0 then ChunkMisaligned
    else if offset >= size || length > size - offset then ChunkRejected
    else if length != size - offset && length % Flash.WORD != 0 then ChunkMisaligned
    else ChunkOk(length == size - offset)
  }

  datatype DataAction = AcceptNew | Duplicate | RejectGap

  function ClassifyOffset(offset: u32, expected: u32): DataAction {
    if offset == expected then AcceptNew else if offset < expected then Duplicate else RejectGap
  }

  predicate RangeErased(flash: seq<byte>, offset: nat, length: nat)
    requires offset + length <= |flash|
  {
    Flash.AllErased(flash[offset..offset + length])
  }

  /** A new chunk goes to erased flash, or is compared with what an earlier attempt left there. */
  function StoreChunk(flash: seq<byte>, offset: u32, data: Payload, final: bool, hal: Hal): (r: (seq<byte>, Flash.Status))
    requires Flash.IsFlash(flash) && offset + |data| <= |flash|
    ensures Flash.IsFlash(r.0)
  {
    if !RangeErased(flash, offset, |data|) then (flash, Flash.Verify(flash, offset, data))
    else Flash.Write(flash, offset, data, final, hal)
  }

  predicate IsCheckpoint(oldOffset: u32, newOffset: u32, size: u32) {
    oldOffset / CHECKPOINT_SIZE != newOffset / CHECKPOINT_SIZE || newOffset == size
  }

  /** A verified chunk advances the offset; a checkpoint is durable or the advance is undone. */
  function Advance(b: Boot, length: nat, plan: Plan): (r: (Boot, Reply))
    requires IsBoot(b) && b.ram.rec.received + length < 0x1_0000_0000
    ensures IsBoot(r.0)
  {
    var next := b.ram.rec.received + length;
    var moved := b.(ram := b.ram.(rec := b.ram.rec.(received := next)));
    if !IsCheckpoint(b.ram.rec.received, next, b.ram.rec.size) then (moved, OK)
    else
      var (b1, reply) := AppendState(moved, RECEIVING, 0, plan);
      if reply == OK then (b1, OK) else (b1.(ram := b1.ram.(rec := b.ram.rec)), reply)
  }

  function AcceptChunk(b: Boot, data: Payload, final: bool, f: Faults): (r: (Boot, Reply))
    requires IsBoot(b) && b.ram.rec.received + |data| <= APP_MAX_SIZE
    ensures IsBoot(r.0)
  {
    var (flash', status) := StoreChunk(b.flash, b.ram.rec.received, data, final, f.flash);
    if status != Flash.Ok then (b.(flash := flash'), FlashError)
    else Advance(b.(flash := flash'), |data|, f.second)
  }

  function CompareChunk(b: Boot, offset: u32, data: Payload): Reply
    requires IsBoot(b) && offset <= b.ram.rec.received
  {
    if |data| > b.ram.rec.received - offset then BadOffset
    else if Flash.Verify(b.flash, offset, data) != Flash.Ok then FlashError
    else OK
  }

  function HandleData(b: Boot, req: Request, f: Faults): (r: (Boot, Reply))
    requires IsBoot(b)
    ensures IsBoot(r.0)
  {
    if !b.ram.has || req.session != b.ram.rec.session then (b, BadSession)
    else if State(b) != RECEIVING then (b, Busy)
    else
      match ValidateChunk(req.offset, |req.payload|, b.ram.rec.size)
      case ChunkMisaligned => (b, BadOffset)
      case ChunkRejected => (b, BadImageSize)
      case ChunkOk(final) =>
        match ClassifyOffset(req.offset, b.ram.rec.received)
        case RejectGap => (b, BadOffset)
        case Duplicate => (b, CompareChunk(b, req.offset, req.payload))
        case AcceptNew => AcceptChunk(b, req.payload, final, f)
  }

  // ---- QUERY, VERIFY, ACTIVATE, ABORT ----

  function Progress(b: Boot): Body {
    ProgressBody(State(b), Received(b), if b.ram.has then b.ram.rec.size else 0, if b.ram.has then b.ram.rec.error else 0)
  }

  function HandleVerify(b: Boot, req: Request, f: Faults): (r: (Boot, Reply))
    requires IsBoot(b)
    ensures IsBoot(r.0)
  {
    if !IsBare(req) then (b, BadFrame)
    else if !b.ram.has || req.session != b.ram.rec.session then (b, BadSession)
    else if State(b) != RECEIVING && State(b) != VERIFYING then (b, Busy)
    else if b.ram.rec.received != b.ram.rec.size then (b, BadOffset)
    else
      var (b1, reply) := if State(b) == RECEIVING then AppendState(b, VERIFYING, 0, f.first) else (b, OK);
      if reply != OK then (b1, reply)
      else if ImageCrc(b1.flash, b1.ram.rec.size) == b1.ram.rec.crc32 then
        AppendState(b1, PENDING_BOOT, 0, f.second)
      else
        (AppendState(b1, FAILED, VERIFY_FAILED_CODE, f.second).0, VerifyFailed)
  }

  function HandleActivate(b: Boot, req: Request): (r: (Boot, Reply))
    requires IsBoot(b)
    ensures IsBoot(r.0)
  {
    if !IsBare(req) then (b, BadFrame)
    else if !b.ram.has || req.session != b.ram.rec.session then (b, BadSession)
    else if State(b) != PENDING_BOOT then (b, Busy)
    else (b.(ram := b.ram.(deferred := ResetDevice)), OK)
  }

  function HandleAbort(b: Boot, req: Request, f: Faults): (r: (Boot, Reply))
    requires IsBoot(b)
    ensures IsBoot(r.0)
  {
    if !IsBare(req) then (b, BadFrame)
    else if !b.ram.has || req.session != b.ram.rec.session then (b, BadSession)
    else AppendState(b, FAILED, 0, f.first)
  }

  // ---- Flags the handlers leave alone ----

  ghost predicate SameFlags(b: Boot, b': Boot) {
    b'.ram.deferred == b.ram.deferred && b'.ram.activity == b.ram.activity
  }

  lemma AppendStateKeepsFlags(b: Boot, state: u16, error: u32, plan: Plan)
    requires IsBoot(b)
    ensures SameFlags(b, AppendState(b, state, error, plan).0)
  {
    hide Append, WellFormed;
  }

  lemma StartKeepsFlags(b: Boot, req: Request, f: Faults)
    requires IsBoot(b)
    ensures SameFlags(b, HandleStart(b, req, f).b)
  {
    hide DecodeManifest, CompactIfNeeded, Append, ManifestMatches, StartRefusal, WellFormed;
  }

  lemma DataKeepsFlags(b: Boot, req: Request, f: Faults)
    requires IsBoot(b)
    ensures SameFlags(b, HandleData(b, req, f).0)
  {
    hide Append, WellFormed, StoreChunk, CompareChunk, ValidateChunk, IsCheckpoint;
  }

  lemma VerifyKeepsFlags(b: Boot, req: Request, f: Faults)
    requires IsBoot(b)
    ensures SameFlags(b, HandleVerify(b, req, f).0)
  {
    hide AppendState, ImageCrc, WellFormed;
    AppendStateKeepsFlags(b, VERIFYING, 0, f.first);
    var b1 := if State(b) == RECEIVING then AppendState(b, VERIFYING, 0, f.first).0 else b;
    AppendStateKeepsFlags(b1, PENDING_BOOT, 0, f.second);
    AppendStateKeepsFlags(b1, FAILED, VERIFY_FAILED_CODE, f.second);
  }

  /** One request through the dispatcher, with the response that goes out. */
  function Dispatch(b: Boot, req: Request, f: Faults): (r: (Boot, Response))
    requires IsBoot(b)
    ensures IsBoot(r.0)
  {
    var bare := (reply: Reply, body: Body) => Response(req.command, reply, req.session, req.seqno, Received(b), body);
    match req.command
    case Hello => (b, if IsBare(req) then bare(OK, HelloBody(true, false, MAX_PAYLOAD)) else bare(BadFrame, NoBody))
    case GetInfo =>
      (b, if IsBare(req)
          then bare(OK, InfoBody(PRODUCT_ID, HARDWARE_ID, if b.ram.has then b.ram.rec.version else 0, APP_MAX_SIZE,
                                 State(b), true))
          else bare(BadFrame, NoBody))
    case EnterBoot => (b, bare(if IsBare(req) then OK else BadFrame, NoBody))
    case Start =>
      var h := HandleStart(b, req, f);
      (h.b, Response(Start, h.reply, req.session, req.seqno, h.offset, NoBody))
    case Erase =>
      var (b', reply) := HandleErase(b, req, f);
      (b', bare(reply, NoBody))
    case Data =>
      var (b', reply) := HandleData(b, req, f);
      (b', Response(Data, reply, req.session, req.seqno, Received(b'), AckBody(reply, req.seqno, Received(b'))))
    case Query =>
      if !IsBare(req) then (b, bare(BadFrame, NoBody))
      else
        (b, Response(Query, if State(b) == ERASING then Busy else OK,
                     if b.ram.has then b.ram.rec.session else 0, req.seqno, Received(b), Progress(b)))
    case VerifyImage =>
      var (b', reply) := HandleVerify(b, req, f);
      (b', bare(reply, NoBody))
    case Activate =>
      var (b', reply) := HandleActivate(b, req);
      (b', bare(reply, NoBody))
    case Abort =>
      var (b', reply) := HandleAbort(b, req, f);
      (b', bare(reply, NoBody))
    case GetLog => (b, bare(BadFrame, NoBody))
  }

  /** The action a response postponed: the sector erase, or the reset after ACTIVATE. */
  function RunDeferred(b: Boot, f: Faults): (r: (Boot, bool))
    requires IsBoot(b)
    ensures IsBoot(r.0)
  {
    var idle := b.(ram := b.ram.(deferred := NoAction));
    match b.ram.deferred
    case NoAction => (idle, false)
    case ResetDevice => (idle, true)
    case EraseApp =>
      var (flash', status) := Flash.Erase(b.flash, b.ram.rec.size, f.flash);
      var erased := idle.(flash := flash');
      if status == Flash.Ok then
        (AppendState(erased.(ram := erased.ram.(rec := erased.ram.rec.(received := 0))), RECEIVING, 0, f.second).0, false)
      else
        (AppendState(erased, FAILED, FLASH_ERROR_CODE, f.second).0, false)
  }

  /** One poll with a decodable request: dispatch, send, then the deferred action if the send worked. */
  function Poll(b: Boot, req: Request, sent: bool, f: Faults): (r: (Boot, Response, bool))
    requires IsBoot(b)
    ensures IsBoot(r.0)
  {
    var (b1, response) := Dispatch(b.(ram := b.ram.(activity := true)), req, f);
    if sent then
      var (b2, reset) := RunDeferred(b1, f);
      (b2, response, reset)
    else (b1.(ram := b1.ram.(deferred := NoAction)), response, false)
  }

  // ---- Boot decision ----

  function InitRam(log: Log): (ram: Ram)
    requires WellFormed(log)
    ensures ram.rec.size <= APP_MAX_SIZE
  {
    LatestIsValid(log);
    match Load(log)
    case (_, Some(latest)) => Ram(latest, true, false, false, false, false, NoAction)
    case (status, None) =>
      if status == Corrupt
      then Ram(InitRecord(FAILED).(error := FLASH_ERROR_CODE), false, true, false, false, false, NoAction)
      else Ram(InitRecord(EMPTY), false, false, false, false, false, NoAction)
  }

  predicate IsPending(ram: Ram) { !ram.corrupt && ram.has && ram.rec.state == PENDING_BOOT }

  function Prepare(b: Boot, plan: Plan): (r: (Boot, bool))
    requires IsBoot(b)
    ensures IsBoot(r.0) && r.0.flash == b.flash
  {
    if b.ram.decided then (b, b.ram.allowed)
    else
      var d := b.(ram := b.ram.(decided := true));
      if b.ram.corrupt then (d.(ram := d.ram.(allowed := true)), true)
      else if State(b) == PENDING_BOOT then
        if b.ram.rec.error >= PENDING_BOOT_MAX_ATTEMPTS then (AppendState(d, FAILED, TIMEOUT_CODE, plan).0, false)
        else
          var (d1, reply) := AppendState(d, PENDING_BOOT, b.ram.rec.error + 1, plan);
          if reply != OK then (d1, false) else (d1.(ram := d1.ram.(allowed := true)), true)
      else
        var allows := State(b) == EMPTY || State(b) == APP_VALID || State(b) == CONFIRMED;
        (d.(ram := d.ram.(allowed := allows)), allows)
  }

  /** The vector check of the image: initial stack pointer and reset handler. */
  predicate IsAppValid(flash: seq<byte>)
    requires Flash.IsFlash(flash)
  {
    var sp := Read32(flash, 0);
    var reset := Read32(flash, 4);
    && ((0x2000_0000 <= sp <= 0x2002_0000) || (0x1000_0000 <= sp <= 0x1001_0000)) && sp % 8 == 0
    && reset % 2 == 1 && 0x0802_0000 <= reset - 1 < 0x0810_0000
  }

  // ---- The application ----

  datatype Confirm = NotRequired | Waiting | Complete | Blocked

  predicate Compatible(r: Record, version: u32) {
    r.state == PENDING_BOOT && r.session != 0 && r.version == version && r.size != 0 && r.received == r.size
  }

  function AppInit(log: Log, transportUp: bool, version: u32): Confirm
    requires WellFormed(log)
  {
    var (status, latest) := Load(log);
    if !transportUp then Blocked
    else if latest.Some? && latest.value.state == PENDING_BOOT then
      if Compatible(latest.value, version) then Waiting else Blocked
    else NotRequired
  }

  function ConfirmPending(log: Log, version: u32, plan: Plan): (r: (Log, bool))
    requires WellFormed(log)
    ensures WellFormed(r.0)
  {
    var (status, latest) := Load(log);
    if latest.None? || !Compatible(latest.value, version) then (log, false)
    else
      var r := Append(log, latest.value.(state := CONFIRMED, error := 0), plan);
      (r.log, r.status == Ok)
  }

  function AppEnterBoot(log: Log, req: Request, f: Faults): (r: (Log, Reply))
    requires WellFormed(log)
    ensures WellFormed(r.0)
  {
    if !IsBare(req) then (log, BadFrame)
    else if Load(log).0 == Corrupt then (log, FlashError)
    else
      var (log1, status) := CompactIfNeeded(log, APP_MAX_REQUIRED_RECORDS, f.first);
      if status != Ok && status != Empty then (log1, FlashError)
      else
        var r := Append(log1, InitRecord(UPDATE_REQUESTED).(session := req.session), f.second);
        (r.log, if r.status == Ok then OK else FlashError)
  }

  function AppDispatch(log: Log, version: u32, req: Request, f: Faults): (r: (Log, Response))
    requires WellFormed(log)
    ensures WellFormed(r.0)
  {
    var answer := (reply: Reply, body: Body) => Response(req.command, reply, req.session, req.seqno, 0, body);
    match req.command
    case Hello => (log, if IsBare(req) then answer(OK, HelloBody(false, true, MAX_PAYLOAD)) else answer(BadFrame, NoBody))
    case GetInfo =>
      (log, if IsBare(req)
            then answer(OK, InfoBody(PRODUCT_ID, HARDWARE_ID, version, APP_MAX_SIZE,
                                     if Latest(log).Some? then Latest(log).value.state else EMPTY, false))
            else answer(BadFrame, NoBody))
    case EnterBoot =>
      var (log', reply) := AppEnterBoot(log, req, f);
      (log', answer(reply, NoBody))
    case _ => (log, answer(Busy, NoBody))
  }

  // ---- The whole device ----

  datatype Mode =
    | Off
    | Window(ram: Ram)
    | Service(ram: Ram)
    | Silent(ram: Ram)
    | App(version: u32, confirm: Confirm, resetPending: bool)

  datatype System = System(log: Log, flash: seq<byte>, mode: Mode)

  /** The build of the image that would run, and whether its transport comes up. */
  datatype Image = Image(version: u32, transportUp: bool)

  datatype Event =
    | PowerOn(transportUp: bool, image: Image, faults: Faults)
    | Cut
    | WindowEnds(image: Image, faults: Faults)
    | Addressed
    | Receive(req: Request, sent: bool, faults: Faults)
    | ConfirmDelay(faults: Faults)

  predicate IsSystem(s: System) {
    && WellFormed(s.log) && Flash.IsFlash(s.flash)
    && (s.mode.Window? || s.mode.Service? || s.mode.Silent? ==> s.mode.ram.rec.size <= APP_MAX_SIZE)
  }

  function BootOf(s: System): Boot
    requires s.mode.Window? || s.mode.Service? || s.mode.Silent?
  {
    Boot(s.log, s.flash, s.mode.ram)
  }

  /** The end of a boot decision: the jump, or the service loop. */
  function Decide(b: Boot, transportUp: bool, image: Image, plan: Plan): (r: System)
    requires IsBoot(b)
    ensures IsSystem(r) && r.flash == b.flash
  {
    var (d, go) := Prepare(b, plan);
    if go && IsAppValid(d.flash) then System(d.log, d.flash, App(image.version, AppInit(d.log, image.transportUp, image.version), false))
    else System(d.log, d.flash, if transportUp then Service(d.ram) else Silent(d.ram))
  }

  predicate MetadataAllowsBoot(log: Log)
    requires WellFormed(log)
  {
    match Load(log)
    case (_, Some(latest)) => AllowsBoot(latest.state)
    case (status, None) => status == Empty || status == Corrupt
  }

  function Start0(s: System, transportUp: bool, image: Image, f: Faults): (r: System)
    requires IsSystem(s)
    ensures IsSystem(r) && r.flash == s.flash
  {
    var b := Boot(s.log, s.flash, InitRam(s.log));
    var bootable := MetadataAllowsBoot(s.log) && IsAppValid(s.flash);
    if transportUp then
      if !bootable then s.(mode := Service(b.ram))
      else if IsPending(b.ram) then Decide(b, true, image, f.first)
      else s.(mode := Window(b.ram))
    else if bootable then Decide(b, false, image, f.first)
    else s.(mode := Silent(b.ram))
  }

  function Step(s: System, e: Event): (r: (System, Option<Response>))
    requires IsSystem(s)
    ensures IsSystem(r.0)
  {
    match e
    case Cut => (s.(mode := Off), None)
    case PowerOn(transportUp, image, f) =>
      if s.mode.Off? then (Start0(s, transportUp, image, f), None) else (s, None)
    case WindowEnds(image, f) =>
      if s.mode.Window? && !s.mode.ram.activity then (Decide(BootOf(s), true, image, f.first), None) else (s, None)
    case Addressed =>
      if s.mode.Window? || s.mode.Service? then (s.(mode := Service(s.mode.ram.(activity := true))), None) else (s, None)
    case Receive(req, sent, f) =>
      (match s.mode
       case Window(_) => BootReceive(s, req, sent, f)
       case Service(_) => BootReceive(s, req, sent, f)
       case App(version, confirm, resetPending) =>
         if confirm == Blocked then (s, None)
         else
           var (log', response) := AppDispatch(s.log, version, req, f);
           var reset := resetPending || (req.command == EnterBoot && response.reply == OK);
           (System(log', s.flash, if sent && reset then Off else App(version, confirm, reset)),
            if sent then Some(response) else None)
       case _ => (s, None))
    case ConfirmDelay(f) =>
      if s.mode.App? && s.mode.confirm == Waiting then
        var (log', ok) := ConfirmPending(s.log, s.mode.version, f.first);
        (System(log', s.flash, s.mode.(confirm := if ok then Complete else Blocked)), None)
      else (s, None)
  }

  function BootReceive(s: System, req: Request, sent: bool, f: Faults): (r: (System, Option<Response>))
    requires IsSystem(s) && (s.mode.Window? || s.mode.Service?)
    ensures IsSystem(r.0)
  {
    var (b, response, reset) := Poll(BootOf(s), req, sent, f);
    (System(b.log, b.flash, if reset then Off else Service(b.ram)), if sent then Some(response) else None)
  }
}
