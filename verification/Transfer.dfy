/** The gateway's transfer loop: chunk boundaries, resynchronisation, and what it does to the device. */
module Transfer {
  import opened Types
  import opened Messages
  import opened MetadataLog
  import opened Device
  import opened BootSafety
  import opened DataPrefix
  import opened Link
  import opened UpgradeClient
  import opened Soundness

  /** The gateway's own verdicts, after the error codes of its platform. */
  datatype Status =
    | Done | InvalidState | InvalidResponse | TimedOutStatus | InvalidSize | InvalidCrc | InvalidVersion
    | NotSupported | Fail | InvalidArg

  function StatusOf(failure: Failure): (status: Status)
    ensures status != Done
  {
    match failure
    case TimedOut => TimedOutStatus
    case BadResponse => InvalidResponse
    case PortFailed => Fail
    case BadArgument => InvalidArg
  }

  // ---- Calls ----

  /** The device, the gateway's clock of exchanges and its next sequence number. */
  datatype Wire = Wire(device: System, clock: nat, seqno: u32)

  predicate IsWire(w: Wire) { IsSystem(w.device) }

  /** One transaction of the client over the wire. */
  function Call(w: Wire, fates: nat -> Fate, command: Command, session: u32, offset: u32, payload: Payload, attempts: nat)
    : (r: (Wire, Result))
    requires IsWire(w)
    ensures IsWire(r.0)
  {
    var (device, clock, result) :=
      Attempts(w.device, Request(command, session, w.seqno, offset, payload), fates, w.clock, attempts, TimedOut);
    (Wire(device, clock, if result.Got? then (w.seqno + 1) % 0x1_0000_0000 else w.seqno), result)
  }

  // ---- The loop ----

  function NextChunkEnd(offset: u32, size: u32): (end: u32)
    requires offset < size <= APP_MAX_SIZE
    ensures offset < end <= size && end - offset <= MAX_PAYLOAD
  {
    var end := offset + MAX_PAYLOAD;
    var checkpointEnd := (offset / CHECKPOINT_SIZE + 1) * CHECKPOINT_SIZE;
    var bounded := if end > checkpointEnd then checkpointEnd else end;
    if bounded > size then size else bounded
  }

  /** The offset an answer sends the loop to next, or the status it ends with. */
  datatype Move = Goto(offset: u32) | Stop(status: Status)

  function Judge(result: Result, seqno: u32, offset: u32, size: u32): Move {
    if result.Error? then Stop(StatusOf(result.failure))
    else
      var response := result.response;
      if !response.body.AckBody? || response.body.acceptedSeqno != seqno then Stop(InvalidResponse)
      else if response.reply != response.body.status || response.body.next > size then Stop(InvalidResponse)
      else if response.reply == OK then
        if response.body.next <= offset then Stop(InvalidResponse) else Goto(response.body.next)
      else if response.reply == BadOffset then
        if response.body.next == offset then Stop(InvalidResponse) else Goto(response.body.next)
      else Stop(InvalidResponse)
  }

  type ImageBytes = image: seq<byte> | |image| <= APP_MAX_SIZE witness []

  function SendChunk(w: Wire, fates: nat -> Fate, session: u32, image: ImageBytes, offset: u32): (r: (Wire, Result))
    requires IsWire(w) && offset < |image|
    ensures IsWire(r.0)
  {
    Call(w, fates, Data, session, offset, image[offset..NextChunkEnd(offset, |image|)], MAX_RETRY_COUNT)
  }

  /** The transfer from an offset on; `checks` is how often the loop runs before an operator's abort. */
  function TransferRun(w: Wire, fates: nat -> Fate, session: u32, image: ImageBytes, offset: u32, checks: nat)
    : (r: (Wire, nat, Status))
    requires IsWire(w)
    ensures IsWire(r.0) && r.1 <= checks
    decreases checks
  {
    if offset >= |image| then (w, checks, Done)
    else if checks == 0 then (w, 0, InvalidState)
    else
      var (w', result) := SendChunk(w, fates, session, image, offset);
      match Judge(result, w.seqno, offset, |image|)
      case Stop(status) => (w', checks - 1, status)
      case Goto(next) => TransferRun(w', fates, session, image, next, checks - 1)
  }

  // ---- What a completed transfer means ----

  /** The received bytes are the image's, so far. */
  ghost predicate HoldsImage(s: System, image: seq<byte>) {
    && IsSystem(s) && Kept(s) <= |s.flash| && Kept(s) <= |image|
    && Prefixed(s, s.flash[..Kept(s)])
    && s.flash[..Kept(s)] == image[..Kept(s)]
  }

  /** A DATA event of this gateway carries the image's bytes. */
  predicate Slices(e: Event, image: seq<byte>) {
    e.Receive? && e.req.command == Data ==>
      e.req.offset + |e.req.payload| <= |image| &&
      e.req.payload == image[e.req.offset..e.req.offset + |e.req.payload|]
  }

  lemma SliceExtends(acc: seq<byte>, payload: seq<byte>, image: seq<byte>)
    requires acc <= image && |acc| + |payload| <= |image|
    requires payload == image[|acc|..|acc| + |payload|]
    ensures acc + payload <= image
  {
    assert acc + payload == image[..|acc|] + image[|acc|..|acc| + |payload|];
  }

  lemma AcceptedInImage(acc: seq<byte>, s: System, e: Event, image: seq<byte>)
    requires Prefixed(s, acc) && acc <= image && Slices(e, image)
    ensures AcceptedAfter(acc, s, e) <= image
  {
    hide Step, HandleData, WellFormed, Synced, Latest;
    if Handles(s, e) && Accepts(BootOf(s), e.req, e.faults) {
      SliceExtends(acc, e.req.payload, image);
    }
    hide Prefixed, Accepts, Slices;
  }

  lemma StepHoldsImage(s: System, e: Event, image: seq<byte>)
    requires HoldsImage(s, image) && EventRelocks(e) && Slices(e, image)
    ensures HoldsImage(Step(s, e).0, image)
  {
    hide Step, Prefixed, AcceptedAfter, Slices, EventRelocks;
    var acc := s.flash[..Kept(s)];
    StepPrefixed(s, acc, e);
    PrefixIsFlash(Step(s, e).0, AcceptedAfter(acc, s, e));
    AcceptedInImage(acc, s, e, image);
  }

  /** A DATA answer with an acknowledgement tells exactly what the device now counts as received. */
  lemma AckTellsReceived(s: System, acc: seq<byte>, req: Request, f: Faults)
    requires Prefixed(s, acc) && req.command == Data
    ensures var (s', response) := Step(s, Receive(req, true, f));
            response.Some? && response.value.body.AckBody? ==>
              Kept(s') == response.value.body.next && response.value.body.status == response.value.reply
  {
    hide HandleData, AppEnterBoot, WellFormed, Synced, Latest;
    if s.mode.Window? || s.mode.Service? {
      DataKeepsFlags(BootOf(s).(ram := s.mode.ram.(activity := true)), req, f);
    }
  }

  lemma HoldsImageIsInvariant(image: seq<byte>)
    ensures Invariant(s => HoldsImage(s, image), e => EventRelocks(e) && Slices(e, image))
  {
    hide Step, HoldsImage, Slices, EventRelocks;
    forall s: System, e: Event | HoldsImage(s, image) && EventRelocks(e) && Slices(e, image)
      ensures IsSystem(s) && HoldsImage(Step(s, e).0, image)
    {
      HoldingIsSystem(s, image);
      StepHoldsImage(s, e, image);
    }
    forall s: System | HoldsImage(s, image)
      ensures IsSystem(s)
    {
      HoldingIsSystem(s, image);
    }
  }

  lemma HoldingIsSystem(s: System, image: seq<byte>)
    requires HoldsImage(s, image)
    ensures IsSystem(s)
  {
  }

  /** The hardware assumption of the data theorems, for every exchange to come. */
  ghost predicate AllRelock(fates: nat -> Fate) {
    forall n: nat :: RelockedFate(fates(n))
  }

  predicate RelockedFate(fate: Fate) {
    IsFate(fate) && Relocks(fate.faults) && forall i | 0 <= i < |fate.before| :: EventRelocks(fate.before[i])
  }

  ghost predicate EndsOnImage(r: (System, nat, Result), image: seq<byte>) {
    HoldsImage(r.0, image) && (r.2.Got? ==> Tells(r.0, r.2.response))
  }

  /** Whatever the link does, a chunk transaction keeps the flash on the image, and an answer tells the truth. */
  lemma {:induction false} AttemptsHoldImage(s: System, req: Request, fates: nat -> Fate, clock: nat, left: nat,
                                             last: Failure, image: seq<byte>)
    requires IsSystem(s) && HoldsImage(s, image) && AllRelock(fates)
    requires req.command == Data && Slices(Receive(req, true, NONE_FAIL), image)
    ensures EndsOnImage(Attempts(s, req, fates, clock, left, last), image)
    decreases left
  {
    hide Exchange, HoldsImage, RelockedFate, IsSystem, Slices, Tells;
    if left > 0 {
      var fate := fates(clock);
      assert RelockedFate(fate);
      ExchangeHoldsImage(s, req, fate, image);
      var (s', outcome) := Exchange(s, req, fate);
      HoldingIsSystem(s', image);
      AttemptsHoldImage(s', req, fates, clock + 1, left - 1,
                        if outcome.NoAnswer? then outcome.failure else BadResponse, image);
    }
  }

  /** An acknowledgement tells what the device has received. */
  predicate Tells(s: System, response: Response) {
    response.body.AckBody? ==> IsSystem(s) && Kept(s) == response.body.next
  }

  lemma ExchangeHoldsImage(s: System, req: Request, fate: Fate, image: seq<byte>)
    requires HoldsImage(s, image) && RelockedFate(fate)
    requires req.command == Data && Slices(Receive(req, true, NONE_FAIL), image)
    ensures var (s', outcome) := Exchange(s, req, fate);
            && HoldsImage(s', image)
            && (outcome.Answer? ==> Tells(s', outcome.response))
  {
    var inv: System -> bool := s => HoldsImage(s, image);
    var allowed: Event -> bool := e => EventRelocks(e) && Slices(e, image);
    HoldsImageIsInvariant(image);
    assert Invariant(inv, allowed);
    StepsKeep(inv, allowed, s, fate.before);
    var ready := Steps(s, fate.before);
    StepHoldsImage(ready, Receive(req, true, fate.faults), image);
    if fate.delivery.ResponseLost? {
      StepHoldsImage(ready, Receive(req, fate.delivery.sent, fate.faults), image);
    }
    AckTellsReceived(ready, ready.flash[..Kept(ready)], req, fate.faults);
    hide Step, Prefixed, Steps, Slices;
  }

  /**
   * Safety of the transfer: under any losses, resets, interrupted appends and interrupted
   * programming, a transfer that ends well leaves the whole image received and in flash.
   */
  lemma {:induction false} TransferDelivers(w: Wire, fates: nat -> Fate, session: u32, image: ImageBytes, offset: u32, checks: nat)
    requires HoldsImage(w.device, image) && AllRelock(fates)
    requires offset >= |image| ==> Kept(w.device) == |image|
    ensures var (w', _, status) := TransferRun(w, fates, session, image, offset, checks);
            && HoldsImage(w'.device, image)
            && (status == Done ==> Kept(w'.device) == |image| && w'.device.flash[..|image|] == image)
    decreases checks
  {
    hide Step, Prefixed, Attempts, AllRelock;
    if offset < |image| && checks > 0 {
      var end := NextChunkEnd(offset, |image|);
      hide NextChunkEnd;
      var req := Request(Data, session, w.seqno, offset, image[offset..end]);
      AttemptsHoldImage(w.device, req, fates, w.clock, MAX_RETRY_COUNT, TimedOut, image);
      var (w', result) := SendChunk(w, fates, session, image, offset);
      var move := Judge(result, w.seqno, offset, |image|);
      hide SendChunk;
      if move.Goto? {
        TransferDelivers(w', fates, session, image, move.offset, checks - 1);
      }
    }
  }
}
