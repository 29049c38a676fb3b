/** Retransmitted DATA has the effect of one handling. */
module ExactlyOnce {
  import opened Types
  import opened Messages
  import opened MetadataLog
  import opened Device
  import opened Link
  import opened Padding
  import opened DataPrefix
  import opened Soundness
  import Flash = FlashImage

  /** During a transfer the bytes that pad the last word of the image are still erased. */
  predicate PadErased(b: Boot)
    requires IsBoot(b)
  {
    b.ram.has && b.ram.rec.state == RECEIVING ==> PadOf(b.flash, b.ram.rec.size)
  }

  function Handle(b: Boot, req: Request): (Boot, Reply)
    requires IsBoot(b)
  {
    HandleData(b, req, NONE_FAIL)
  }

  /** An append that fails on working hardware has touched nothing. */
  lemma FailureWithoutFaultsKeepsTheLog(log: Log, desired: Record)
    requires WellFormed(log)
    ensures var r := Append(log, desired, NO_FAULTS);
            r.status != Ok ==> r.log == log
  {
    LatestIsValid(log);
    hide Latest, FirstErased, HasUsed;
  }

  /** A valid chunk over erased flash is stored completely. */
  lemma ErasedChunkIsStored(flash: seq<byte>, offset: u32, data: Payload, size: u32, final: bool)
    requires Flash.IsFlash(flash) && ValidateChunk(offset, |data|, size) == ChunkOk(final)
    requires RangeErased(flash, offset, |data|) && Flash.AllErased(flash[size..Flash.RoundUp(size)])
    ensures var (flash', status) := Flash.Write(flash, offset, data, final, HEALTHY);
            && status == Flash.Ok
            && (forall j | 0 <= j < |flash| && (j < offset || j >= offset + |data|) :: flash'[j] == flash[j])
            && (forall j | offset <= j < offset + |data| :: flash'[j] == data[j - offset])
  {
    PaddedEnd(offset, |data|, size);
    hide Flash.Program, Flash.RoundUp, ValidateChunk;
    var top, end := offset + Flash.RoundUp(|data|), Flash.RoundUp(size);
    forall j | offset <= j < top
      ensures flash[j] == Flash.ERASED
    {
      if j < offset + |data| {
        assert flash[j] == flash[offset..offset + |data|][j - offset];
      } else {
        assert flash[j] == flash[size..end][j - size];
      }
    }
    Flash.ProgramErased(flash, offset, data, 0, HEALTHY.ops);
  }

  /** The padding of a chunk stays within the padding of the image. */
  lemma PaddedEnd(offset: u32, length: nat, size: u32)
    requires ValidateChunk(offset, length, size).ChunkOk?
    ensures offset % Flash.WORD == 0 && offset + Flash.RoundUp(length) <= Flash.RoundUp(size) <= APP_MAX_SIZE
    ensures Flash.RoundUp(length) == length || offset + length == size
    ensures 0 < length <= MAX_PAYLOAD && offset + length <= size
    ensures ValidateChunk(offset, length, size).final || length % Flash.WORD == 0
  {
  }

  /** What one fault-free handling of DATA at the expected offset does to the flash: all of the chunk. */
  lemma AcceptedChunkIsInFlash(b: Boot, req: Request)
    requires IsBoot(b) && PadErased(b) && b.ram.has && State(b) == RECEIVING
    requires req.offset == b.ram.rec.received && ValidateChunk(req.offset, |req.payload|, b.ram.rec.size).ChunkOk?
    ensures var final := ValidateChunk(req.offset, |req.payload|, b.ram.rec.size).final;
            var (flash', status) := StoreChunk(b.flash, req.offset, req.payload, final, HEALTHY);
            && (forall j | 0 <= j < |flash'| && (j < req.offset || j >= req.offset + |req.payload|) :: flash'[j] == b.flash[j])
            && (status == Flash.Ok <==> RangeErased(b.flash, req.offset, |req.payload|) ||
                                        b.flash[req.offset..req.offset + |req.payload|] == req.payload)
            && (status == Flash.Ok ==> flash'[req.offset..req.offset + |req.payload|] == req.payload)
            && (status != Flash.Ok ==> flash' == b.flash)
  {
    if RangeErased(b.flash, req.offset, |req.payload|) {
      ErasedChunkIsStored(b.flash, req.offset, req.payload, b.ram.rec.size,
                          ValidateChunk(req.offset, |req.payload|, b.ram.rec.size).final);
    }
    hide Flash.Write, Flash.AllErased;
  }

  /** Handling an acknowledged DATA again changes nothing and is acknowledged again. */
  lemma ReplayOfSuccess(b: Boot, req: Request)
    requires IsBoot(b) && PadErased(b)
    requires Handle(b, req).1 == OK
    ensures Handle(Handle(b, req).0, req) == Handle(b, req)
  {
    hide Append, WellFormed;
    if req.offset == b.ram.rec.received {
      AcceptedChunkIsInFlash(b, req);
      hide StoreChunk, RangeErased;
    }
  }

  lemma FailedAdvanceChangesNothing(b: Boot, length: nat)
    requires IsBoot(b) && b.ram.rec.received + length < 0x1_0000_0000
    ensures Advance(b, length, NO_FAULTS).1 != OK ==> Advance(b, length, NO_FAULTS).0 == b
  {
    hide Append, WellFormed;
    var moved := b.ram.rec.(received := b.ram.rec.received + length);
    FailureWithoutFaultsKeepsTheLog(b.log, moved.(state := RECEIVING, error := 0));
    FailureWithoutFaultsKeepsTheLog(b.log, InitRecord(RECEIVING).(state := RECEIVING, error := 0));
  }

  /** A chunk that is in flash is accepted by the store step without another change. */
  lemma StoredChunkIsStable(b: Boot, req: Request, flash: seq<byte>)
    requires IsBoot(b) && PadErased(b) && b.ram.has && State(b) == RECEIVING
    requires req.offset == b.ram.rec.received && ValidateChunk(req.offset, |req.payload|, b.ram.rec.size).ChunkOk?
    requires Flash.IsFlash(flash) && flash[req.offset..req.offset + |req.payload|] == req.payload
    requires Flash.AllErased(flash[b.ram.rec.size..Flash.RoundUp(b.ram.rec.size)])
    ensures var final := ValidateChunk(req.offset, |req.payload|, b.ram.rec.size).final;
            StoreChunk(flash, req.offset, req.payload, final, HEALTHY) == (flash, Flash.Ok)
  {
    hide Flash.Write, Flash.Verify, WellFormed;
    AcceptedChunkIsInFlash(b.(flash := flash), req);
    var final := ValidateChunk(req.offset, |req.payload|, b.ram.rec.size).final;
    var (flash', status) := StoreChunk(flash, req.offset, req.payload, final, HEALTHY);
    hide StoreChunk, Flash.AllErased, ValidateChunk, RangeErased;
    assert status == Flash.Ok;
    SameOutsideAndInside(flash, flash', req.offset, |req.payload|);
  }

  lemma SameOutsideAndInside(flash: seq<byte>, flash': seq<byte>, offset: nat, length: nat)
    requires |flash| == |flash'| && offset + length <= |flash|
    requires flash'[offset..offset + length] == flash[offset..offset + length]
    requires forall j | 0 <= j < |flash'| && (j < offset || j >= offset + length) :: flash'[j] == flash[j]
    ensures flash' == flash
  {
    forall j | 0 <= j < |flash|
      ensures flash'[j] == flash[j]
    {
      if offset <= j < offset + length {
        assert flash'[offset..offset + length][j - offset] == flash[offset..offset + length][j - offset];
      }
    }
  }

  /** A DATA that failed without a fault keeps failing. */
  lemma ReplayOfFailure(b: Boot, req: Request)
    requires IsBoot(b) && PadErased(b)
    requires Handle(b, req).1 != OK
    ensures var b' := Handle(b, req).0;
            PadErased(b') && Handle(b', req).1 != OK
  {
    hide Append, WellFormed, Advance, StoreChunk, CompareChunk;
    if b.ram.has && req.session == b.ram.rec.session && State(b) == RECEIVING && req.offset == b.ram.rec.received &&
       ValidateChunk(req.offset, |req.payload|, b.ram.rec.size).ChunkOk? {
      AcceptedChunkIsInFlash(b, req);
      var final := ValidateChunk(req.offset, |req.payload|, b.ram.rec.size).final;
      var (flash', status) := StoreChunk(b.flash, req.offset, req.payload, final, HEALTHY);
      if status == Flash.Ok {
        assert flash'[b.ram.rec.size..Flash.RoundUp(b.ram.rec.size)] == b.flash[b.ram.rec.size..Flash.RoundUp(b.ram.rec.size)];
        StoredChunkIsStable(b, req, flash');
        FailedAdvanceChangesNothing(b.(flash := flash'), |req.payload|);
      }
      hide RangeErased, Flash.AllErased;
    }
    hide ValidateChunk;
  }

  // ---- Transactions ----

  /** The link may lose requests and responses; the device keeps running and its hardware works. */
  predicate OnlyLoses(fate: Fate) { fate.before == [] && fate.faults == NONE_FAIL }

  /** One handling of the request, without any loss. */
  function Once(s: System, req: Request): (System, Option<Response>)
    requires IsSystem(s)
  {
    Step(s, Receive(req, true, NONE_FAIL))
  }

  predicate Serves(s: System) {
    IsSystem(s) && s.mode.Service? && s.mode.ram.deferred == NoAction
  }

  function InService(b: Boot): System { System(b.log, b.flash, Service(b.ram)) }

  function AnswerTo(b: Boot, req: Request, reply: Reply): Response {
    Response(Data, reply, req.session, req.seqno, Received(b), AckBody(reply, req.seqno, Received(b)))
  }

  function Awake(s: System): Boot
    requires Serves(s)
  {
    BootOf(s).(ram := s.mode.ram.(activity := true))
  }

  /** A DATA request in the service loop is one call of the handler and one acknowledgement. */
  lemma DataStep(s: System, req: Request, sent: bool, f: Faults)
    requires Serves(s) && req.command == Data
    ensures var (b', reply) := HandleData(Awake(s), req, f);
            && Step(s, Receive(req, sent, f)) == (InService(b'), if sent then Some(AnswerTo(b', req, reply)) else None)
            && Serves(InService(b')) && b'.ram.activity
  {
    DataKeepsFlags(Awake(s), req, f);
    hide HandleData, WellFormed;
  }

  lemma HandlingOnce(s: System, req: Request, sent: bool)
    requires Serves(s) && req.command == Data
    ensures var (b', reply) := Handle(Awake(s), req);
            && Step(s, Receive(req, sent, NONE_FAIL)).0 == Once(s, req).0 == InService(b')
            && Serves(Once(s, req).0) && b'.ram.activity
            && Once(s, req).1 == Some(AnswerTo(b', req, reply))
  {
    DataStep(s, req, sent, NONE_FAIL);
    DataStep(s, req, true, NONE_FAIL);
    hide HandleData, Step, WellFormed;
  }

  /** One exchange over a lossy link either does not reach the device or is one handling. */
  lemma LossyExchange(s: System, req: Request, fate: Fate)
    requires Serves(s) && req.command == Data && OnlyLoses(fate)
    ensures var (b', reply) := Handle(Awake(s), req);
            Exchange(s, req, fate) ==
            match fate.delivery
            case RequestLost(noticed) => (s, NoAnswer(noticed))
            case ResponseLost(_, noticed) => (InService(b'), NoAnswer(noticed))
            case Answered => (InService(b'), Answer(AnswerTo(b', req, reply)))
    ensures Serves(InService(Handle(Awake(s), req).0)) && Handle(Awake(s), req).0.ram.activity
  {
    HandlingOnce(s, req, if fate.delivery.ResponseLost? then fate.delivery.sent else true);
    hide Step, Handle, IsSystem, WellFormed;
  }

  lemma {:induction false} RetryAfterSuccess(b: Boot, req: Request, fates: nat -> Fate, clock: nat, left: nat, last: Failure)
    requires Serves(InService(b)) && b.ram.activity && req.command == Data
    requires Handle(b, req) == (b, OK)
    requires forall n | clock <= n < clock + left :: OnlyLoses(fates(n))
    ensures var (s', _, result) := Attempts(InService(b), req, fates, clock, left, last);
            result.Got? ==> s' == InService(b) && result.response == AnswerTo(b, req, OK)
    decreases left
  {
    if left > 0 {
      assert Awake(InService(b)) == b;
      hide Handle, Exchange, WellFormed, OnlyLoses, IsSystem, Serves, Awake, InService, AnswerTo;
      var outcome := Exchange(InService(b), req, fates(clock)).1;
      LossyExchange(InService(b), req, fates(clock));
      if outcome.NoAnswer? {
        RetryAfterSuccess(b, req, fates, clock + 1, left - 1, outcome.failure);
      }
    }
  }

  /** The device refuses the request, and goes on refusing it. */
  ghost predicate Refuses(b: Boot, req: Request) {
    Serves(InService(b)) && b.ram.activity && req.command == Data && PadErased(b) && Handle(b, req).1 != OK
  }

  ghost predicate RefusesIn(s: System, req: Request) {
    s.mode.Service? && s == InService(BootOf(s)) && Refuses(BootOf(s), req)
  }

  lemma RefusedExchange(b: Boot, req: Request, fate: Fate)
    requires Refuses(b, req) && OnlyLoses(fate)
    ensures var (s', outcome) := Exchange(InService(b), req, fate);
            match outcome
            case NoAnswer(_) => RefusesIn(s', req)
            case Answer(response) =>
              response.command == req.command && response.seqno == req.seqno && response.reply != OK
  {
    assert Awake(InService(b)) == b;
    ReplayOfFailure(b, req);
    hide Handle, Exchange, WellFormed, PadErased, IsSystem;
    LossyExchange(InService(b), req, fate);
    hide OnlyLoses;
  }

  lemma {:induction false} RetryAfterFailure(b: Boot, req: Request, fates: nat -> Fate, clock: nat, left: nat, last: Failure)
    requires Refuses(b, req)
    requires forall n | clock <= n < clock + left :: OnlyLoses(fates(n))
    ensures var result := Attempts(InService(b), req, fates, clock, left, last).2;
            result.Got? ==> result.response.reply != OK
    decreases left
  {
    assert IsSystem(InService(b));
    hide Refuses, Exchange, OnlyLoses, IsSystem, InService;
    if left > 0 {
      var (s', outcome) := Exchange(InService(b), req, fates(clock));
      RefusedExchange(b, req, fates(clock));
      if outcome.NoAnswer? {
        RetryAfterFailure(BootOf(s'), req, fates, clock + 1, left - 1, outcome.failure);
      }
    }
  }

  /** If the transaction ends in an OK, it ends in the state and the answer of one handling. */
  ghost predicate ActsOnce(b: Boot, req: Request, s': System, result: Result)
    requires IsBoot(b)
  {
    result.Got? && result.response.reply == OK ==>
      && Handle(b, req).1 == OK
      && s' == InService(Handle(b, req).0) && result.response == AnswerTo(Handle(b, req).0, req, OK)
  }

  lemma {:induction false} RetriesActOnce(s: System, req: Request, fates: nat -> Fate, clock: nat, left: nat, last: Failure)
    requires Serves(s) && PadErased(Awake(s)) && req.command == Data
    requires forall n | clock <= n < clock + left :: OnlyLoses(fates(n))
    ensures var (s', _, result) := Attempts(s, req, fates, clock, left, last);
            ActsOnce(Awake(s), req, s', result)
    decreases left
  {
    hide Handle, Exchange, WellFormed, PadErased, OnlyLoses;
    if left > 0 {
      var fate := fates(clock);
      var b := Awake(s);
      var (b1, reply) := Handle(b, req);
      LossyExchange(s, req, fate);
      if fate.delivery.RequestLost? {
        RetriesActOnce(s, req, fates, clock + 1, left - 1, fate.delivery.noticed);
      } else if fate.delivery.ResponseLost? {
        RetryActsOnce(b, req, fates, clock + 1, left - 1, fate.delivery.noticed);
      }
      hide Serves, IsSystem, Awake;
    }
  }

  lemma RetryActsOnce(b: Boot, req: Request, fates: nat -> Fate, clock: nat, left: nat, last: Failure)
    requires IsBoot(b) && PadErased(b) && req.command == Data
    requires Serves(InService(Handle(b, req).0)) && Handle(b, req).0.ram.activity
    requires forall n | clock <= n < clock + left :: OnlyLoses(fates(n))
    ensures var (s', _, result) := Attempts(InService(Handle(b, req).0), req, fates, clock, left, last);
            ActsOnce(b, req, s', result)
  {
    hide Handle, PadErased, OnlyLoses, Attempts, WellFormed;
    var (b1, reply) := Handle(b, req);
    if reply == OK {
      ReplayOfSuccess(b, req);
      RetryAfterSuccess(b1, req, fates, clock, left, last);
    } else {
      ReplayOfFailure(b, req);
      RetryAfterFailure(b1, req, fates, clock, left, last);
    }
    hide Serves;
  }

  /**
   * At-least-once delivery, exactly-once effect: whatever requests and responses get lost
   * within the attempts, a DATA transaction that ends in an OK leaves the device, flash, journal
   * and RAM alike, as one handling of it would, and returns the same acknowledged offset.
   */
  lemma ExactlyOnce(s: System, req: Request, fates: nat -> Fate, clock: nat, left: nat, last: Failure)
    requires Serves(s) && PadErased(BootOf(s)) && req.command == Data
    requires forall n | clock <= n < clock + left :: OnlyLoses(fates(n))
    ensures var (s', _, result) := Attempts(s, req, fates, clock, left, last);
            result.Got? && result.response.reply == OK ==>
              s' == Once(s, req).0 && Some(result.response) == Once(s, req).1
  {
    assert PadErased(Awake(s));
    hide Handle, PadErased, OnlyLoses, Attempts, WellFormed;
    RetriesActOnce(s, req, fates, clock, left, last);
    HandlingOnce(s, req, true);
    hide Step, Once;
  }

  /** The padding is as the transaction theorem wants it in every reachable state. */
  lemma SoundIsPadded(s: System)
    requires Sound(s) && Serves(s)
    ensures PadErased(BootOf(s))
  {
    hide Latest, WellFormed, PadOf;
  }

  /** The exactly-once effect holds in every state a device can reach from a sound start. */
  lemma ExactlyOnceWhenReached(start: System, events: seq<Event>, req: Request, fates: nat -> Fate, clock: nat, attempts: nat)
    requires Sound(start)
    requires forall i | 0 <= i < |events| :: EventRelocks(events[i])
    requires Serves(Steps(start, events)) && req.command == Data
    requires forall n | clock <= n < clock + attempts :: OnlyLoses(fates(n))
    ensures var s := Steps(start, events);
            var (s', _, result) := Attempts(s, req, fates, clock, attempts, TimedOut);
            result.Got? && result.response.reply == OK ==>
              s' == Once(s, req).0 && Some(result.response) == Once(s, req).1
  {
    RunSound(start, events);
    SoundIsPadded(Steps(start, events));
    ExactlyOnce(Steps(start, events), req, fates, clock, attempts, TimedOut);
    hide *;
  }
}
