/** Under finitely many resets the gateway's transfer loop ends, and ends well. */
module TransferProgress {
  import opened Types
  import opened Messages
  import opened MetadataLog
  import opened Device
  import opened DataPrefix
  import opened Link
  import opened UpgradeClient
  import opened ExactlyOnce
  import opened JournalRoom
  import opened Transfer
  import opened Journey
  import Flash = FlashImage

  // ---- Chunk boundaries ----

  /** Chunks of 224 bytes that start again at every checkpoint. */
  predicate OnGrid(r: nat, size: nat) {
    r <= size && (r == size || r % CHECKPOINT_SIZE % MAX_PAYLOAD == 0)
  }

  lemma WithinCheckpoint(o: nat, t: nat)
    requires o % CHECKPOINT_SIZE + t < CHECKPOINT_SIZE
    ensures (o + t) % CHECKPOINT_SIZE == o % CHECKPOINT_SIZE + t
  {
  }

  lemma WithinChunk(m: nat, t: nat)
    requires m % MAX_PAYLOAD == 0 && t < MAX_PAYLOAD
    ensures (m + t) % MAX_PAYLOAD == t
    ensures (m + MAX_PAYLOAD) % MAX_PAYLOAD == 0
  {
  }

  lemma GridIsAligned(o: nat)
    requires o % CHECKPOINT_SIZE % MAX_PAYLOAD == 0
    ensures o % Flash.WORD == 0
  {
    var m := o % CHECKPOINT_SIZE;
    assert m == MAX_PAYLOAD * (m / MAX_PAYLOAD);
    assert o == CHECKPOINT_SIZE * (o / CHECKPOINT_SIZE) + m;
  }

  /** The end of a chunk, without the clamp to the image size. */
  lemma NextBoundary(o: nat)
    requires o % CHECKPOINT_SIZE % MAX_PAYLOAD == 0
    ensures var checkpointEnd := (o / CHECKPOINT_SIZE + 1) * CHECKPOINT_SIZE;
            var next := if o + MAX_PAYLOAD > checkpointEnd then checkpointEnd else o + MAX_PAYLOAD;
            && next % CHECKPOINT_SIZE % MAX_PAYLOAD == 0
            && next <= o - o % CHECKPOINT_SIZE + CHECKPOINT_SIZE
  {
    var m := o % CHECKPOINT_SIZE;
    assert o == CHECKPOINT_SIZE * (o / CHECKPOINT_SIZE) + m;
    if m + MAX_PAYLOAD < CHECKPOINT_SIZE {
      WithinCheckpoint(o, MAX_PAYLOAD);
      WithinChunk(m, 0);
    }
  }

  lemma NoBoundaryInside(o: nat, r: nat)
    requires o % CHECKPOINT_SIZE % MAX_PAYLOAD == 0
    requires o < r < o + MAX_PAYLOAD && r < o - o % CHECKPOINT_SIZE + CHECKPOINT_SIZE
    ensures r % CHECKPOINT_SIZE % MAX_PAYLOAD != 0
  {
    WithinCheckpoint(o, r - o);
    WithinChunk(o % CHECKPOINT_SIZE, r - o);
  }

  /** The next chunk ends on the next boundary of the grid, whatever offset of the grid it starts at. */
  lemma NextEndOnGrid(o: nat, size: nat)
    requires OnGrid(o, size) && o < size <= APP_MAX_SIZE
    ensures var end := NextChunkEnd(o, size);
            && OnGrid(end, size) && o < end <= o + 224 && (end == size || end % 4096 % 224 == 0)
            && (forall r: nat | o < r && OnGrid(r, size) :: end <= r)
            && ValidateChunk(o, end - o, size).ChunkOk?
  {
    var end := NextChunkEnd(o, size);
    NextBoundary(o);
    assert OnGrid(end, size) && end <= o - o % CHECKPOINT_SIZE + CHECKPOINT_SIZE;
    GridIsAligned(o);
    if end < size {
      GridIsAligned(end);
    }
    hide NextChunkEnd;
    forall r: nat | o < r < end
      ensures !OnGrid(r, size)
    {
      NoBoundaryInside(o, r);
    }
  }

  // ---- The device during a transfer from this gateway ----

  /** Whose update it is, a bound on the sequence numbers up to its verdict, and the slots that cut appends may cost. */
  datatype Deal = Deal(id: Identity, top: nat, spare: nat)

  /**
   * The device serves the update's session; RAM and journal lie on the grid; up to the mark `high` the
   * flash is the image's, from there on it is erased; and the journal has the budget of the
   * update plus `room` slots.
   */
  ghost predicate Lively(b: Boot, image: ImageBytes, deal: Deal, high: nat, room: nat) {
    && b.ram.has && b.ram.deferred == NoAction
    && Latest(b.log).Some? && Updating(b, Latest(b.log).value)
    && b.ram.rec.state == RECEIVING && IdOf(b.ram.rec) == deal.id && b.ram.rec.size == |image|
    && OnGrid(b.ram.rec.received, |image|) && OnGrid(Latest(b.log).value.received, |image|)
    && Written(b.flash, image, b.ram.rec.received, high)
    && FreeCount(b.log) >= Budget(Latest(b.log).value) + room
    && Latest(b.log).value.seqno + Budget(Latest(b.log).value) <= deal.top < 0xFFFF_FFFF
  }

  ghost predicate Written(flash: seq<byte>, image: ImageBytes, received: nat, high: nat) {
    && Flash.IsFlash(flash) && received <= high && OnGrid(high, |image|)
    && flash[..high] == image[..high]
    && Flash.AllErased(flash[high..Flash.RoundUp(|image|)])
  }

  function ChunkAt(image: ImageBytes, o: nat): Payload
    requires o < |image|
  {
    image[o..NextChunkEnd(o, |image|)]
  }

  lemma WrittenBytes(flash: seq<byte>, image: ImageBytes, received: nat, high: nat)
    requires Written(flash, image, received, high)
    ensures forall j | 0 <= j < high :: flash[j] == image[j]
    ensures forall j | high <= j < Flash.RoundUp(|image|) :: flash[j] == Flash.ERASED
  {
    assert forall j | 0 <= j < high :: flash[j] == flash[..high][j] == image[..high][j];
    assert forall j | high <= j < Flash.RoundUp(|image|) :: flash[j] == flash[high..Flash.RoundUp(|image|)][j - high];
  }

  lemma BytesWritten(flash: seq<byte>, image: ImageBytes, received: nat, high: nat)
    requires Flash.IsFlash(flash) && received <= high && OnGrid(high, |image|)
    requires forall j | 0 <= j < high :: flash[j] == image[j]
    requires forall j | high <= j < Flash.RoundUp(|image|) :: flash[j] == Flash.ERASED
    ensures Written(flash, image, received, high)
  {
  }

  /** A chunk above the mark is erased, with the padding of its last word. */
  lemma FreshChunk(flash: seq<byte>, image: ImageBytes, o: nat)
    requires Written(flash, image, o, o) && OnGrid(o, |image|) && o < |image|
    ensures var end := NextChunkEnd(o, |image|);
            var (flash', status) := StoreChunk(flash, o, ChunkAt(image, o), end == |image|, HEALTHY);
            && status == Flash.Ok && Written(flash', image, end, end)
  {
    var end := NextChunkEnd(o, |image|);
    NextEndOnGrid(o, |image|);
    WrittenBytes(flash, image, o, o);
    var data := ChunkAt(image, o);
    PaddedEnd(o, |data|, |image|);
    hide OnGrid, NextChunkEnd, Flash.Verify, Flash.Write, Written, ValidateChunk, Flash.RoundUp;
    var flash' := StoreChunk(flash, o, data, end == |image|, HEALTHY).0;
    ErasedChunkIsStored(flash, o, data, |image|, end == |image|);
    BytesWritten(flash', image, end, end);
  }

  /** A chunk below the mark is the image's already. */
  lemma OldChunk(flash: seq<byte>, image: ImageBytes, o: nat, high: nat)
    requires Written(flash, image, o, high) && OnGrid(o, |image|) && o < |image| && o < high
    ensures var end := NextChunkEnd(o, |image|);
            && end <= high
            && flash[o..end] == ChunkAt(image, o)
            && StoreChunk(flash, o, ChunkAt(image, o), end == |image|, HEALTHY) == (flash, Flash.Ok)
  {
    var end := NextChunkEnd(o, |image|);
    NextEndOnGrid(o, |image|);
    WrittenBytes(flash, image, o, high);
    var data := ChunkAt(image, o);
    hide OnGrid, NextChunkEnd, Written;
    assert flash[o..end] == data;
    if RangeErased(flash, o, |data|) {
      hide Flash.Write;
      ErasedChunkIsStored(flash, o, data, |image|, end == |image|);
      hide ValidateChunk;
      assert StoreChunk(flash, o, data, end == |image|, HEALTHY).0 == flash;
    }
  }

  // ---- One handling ----

  /** The checkpoint append: the next offset durable for one slot, or one slot lost at most. */
  lemma CheckpointOutcome(b: Boot, next: u32, plan: Plan, d: Record)
    requires Updating(b, d) && b.ram.has && State(b) == RECEIVING && plan.write.locks
    requires Shaped(b.ram.rec.(received := next)) && FreeCount(b.log) > 0 && d.seqno < 0xFFFF_FFFE
    ensures var (b', reply) := AppendState(b.(ram := b.ram.(rec := b.ram.rec.(received := next))), RECEIVING, 0, plan);
            && (plan.write == HEALTHY ==> reply == OK)
            && (reply == OK ==>
                  && b'.ram.rec == b.ram.rec.(received := next, error := 0, seqno := b'.ram.rec.seqno)
                  && b'.ram.rec.seqno == d.seqno + 1
                  && Latest(b'.log) == Some(b'.ram.rec) && b'.ram == b.ram.(rec := b'.ram.rec)
                  && FreeCount(b'.log) == FreeCount(b.log) - 1)
            && (reply != OK ==>
                  && Latest(b'.log) == Some(d) && FreeCount(b'.log) >= FreeCount(b.log) - 1
                  && b'.ram == b.ram.(rec := b.ram.rec.(received := next)))
  {
    hide Append, FreeCount;
    var desired := b.ram.rec.(received := next, error := 0);
    AppendWithRoom(b.log, desired, plan);
    AppendOutcome(b.log, desired, plan);
    AppendSteady(b.log, desired, plan);
    AppendSpendsOneSlot(b.log, desired, plan);
    hide Latest, WellFormed;
  }

  lemma LivelyBudget(b: Boot, image: ImageBytes, deal: Deal, high: nat, room: nat)
    requires Lively(b, image, deal, high, room)
    ensures Budget(Latest(b.log).value) >= 2 && FreeCount(b.log) >= 2 && Latest(b.log).value.seqno < 0xFFFF_FFFE
  {
    hide Latest, FreeCount, WellFormed, Written, OnGrid;
  }

  ghost predicate AdvancesTo(b: Boot, image: ImageBytes, deal: Deal, high: nat, room: nat, next: u32, plan: Plan)
    requires IsBoot(b) && b.ram.rec.received <= next && (plan.write != HEALTHY ==> room > 0)
  {
    var (b', reply) := Advance(b, next - b.ram.rec.received, plan);
    && Lively(b', image, deal, high, if plan.write == HEALTHY then room else room - 1)
    && (plan.write == HEALTHY ==> reply == OK && b'.ram.rec.received == next)
  }

  /** A stored chunk moves the device on; a checkpoint that cannot be written costs a slot of the room. */
  lemma AdvanceLively(b: Boot, image: ImageBytes, deal: Deal, high: nat, room: nat, next: u32, plan: Plan)
    requires Lively(b, image, deal, high, room) && plan.write.locks && (plan.write != HEALTHY ==> room > 0)
    requires b.ram.rec.received < next <= high && OnGrid(next, |image|)
    requires ValidateChunk(b.ram.rec.received, next - b.ram.rec.received, |image|).ChunkOk?
    ensures AdvancesTo(b, image, deal, high, room, next, plan)
  {
    var r := b.ram.rec;
    var d := Latest(b.log).value;
    NextIsShaped(r, next - r.received);
    LivelyBudget(b, image, deal, high, room);
    assert IsBoot(b) && Behind(d, r) && Shaped(r) && r.size > 0;
    hide ValidateChunk, OnGrid, WellFormed, FreeCount, AppendState, Latest;
    if IsCheckpoint(r.received, next, r.size) {
      CheckpointCosts(d, r, next);
      CheckpointLively(b, image, deal, high, room, next, plan, d);
    } else {
      BetweenCheckpoints(b, image, deal, high, room, next);
      LessRoom(b.(ram := b.ram.(rec := r.(received := next))), image, deal, high, room);
    }
    hide Lively, IsCheckpoint, Budget, Behind, Shaped;
  }

  lemma BetweenCheckpoints(b: Boot, image: ImageBytes, deal: Deal, high: nat, room: nat, next: u32)
    requires Lively(b, image, deal, high, room) && b.ram.rec.received < next <= high && OnGrid(next, |image|)
    requires ValidateChunk(b.ram.rec.received, next - b.ram.rec.received, |image|).ChunkOk?
    requires !IsCheckpoint(b.ram.rec.received, next, |image|)
    ensures Lively(b.(ram := b.ram.(rec := b.ram.rec.(received := next))), image, deal, high, room)
  {
    NextIsShaped(b.ram.rec, next - b.ram.rec.received);
    hide ValidateChunk, OnGrid, WellFormed, FreeCount, Latest, Budget;
    assert Behind(Latest(b.log).value, b.ram.rec.(received := next));
    hide IsCheckpoint;
  }

  lemma CheckpointLively(b: Boot, image: ImageBytes, deal: Deal, high: nat, room: nat, next: u32, plan: Plan, d: Record)
    requires Lively(b, image, deal, high, room) && plan.write.locks && (plan.write != HEALTHY ==> room > 0)
    requires Latest(b.log) == Some(d) && FreeCount(b.log) > 0 && d.seqno < 0xFFFF_FFFE
    requires b.ram.rec.received < next <= high && OnGrid(next, |image|) && Shaped(b.ram.rec.(received := next))
    requires Budget(b.ram.rec.(received := next)) < Budget(d)
    ensures var (b', reply) := AppendState(b.(ram := b.ram.(rec := b.ram.rec.(received := next))), RECEIVING, 0, plan);
            && (plan.write == HEALTHY ==> reply == OK)
            && (reply == OK ==> Lively(b', image, deal, high, room) && b'.ram.rec.received == next)
            && (reply != OK ==> Lively(b'.(ram := b'.ram.(rec := b.ram.rec)), image, deal, high, room - 1))
  {
    CheckpointOutcome(b, next, plan, d);
    hide AppendState, Latest, FreeCount, WellFormed, OnGrid;
  }

  /** A chunk request of this gateway, at any offset of the grid. */
  predicate IsChunkRequest(req: Request, image: ImageBytes, deal: Deal, o: nat) {
    && o < |image| && OnGrid(o, |image|)
    && req.command == Data && req.session == deal.id.session && req.offset == o && req.payload == ChunkAt(image, o)
  }

  // ---- Why chunks are spared ----

  /** After k words of a chunk: data before, erased flash behind, and neither of them trivially so. */
  predicate TearsChunk(data: seq<byte>, k: nat)
    requires Flash.WORD * k < |data|
  {
    !Flash.AllErased(data[..Flash.WORD * k]) && !Flash.AllErased(data[Flash.WORD * k..])
  }

  /**
   * The chunk whose programming was cut after k words, sent again: it is stored if and only if its
   * first k words or all its other bytes read as erased, and otherwise it is refused for good.
   */
  lemma CutChunkResent(flash: seq<byte>, offset: u32, data: Payload, size: u32, final: bool, hal: Hal, again: Hal)
    requires Flash.IsFlash(flash) && ValidateChunk(offset, |data|, size) == ChunkOk(final)
    requires RangeErased(flash, offset, |data|) && Flash.AllErased(flash[size..Flash.RoundUp(size)])
    requires hal.unlocks && Flash.WORD * hal.ops < |data|
    ensures offset + |data| <= |flash|
    ensures var (cut, status) := StoreChunk(flash, offset, data, final, hal);
            && Flash.IsFlash(cut) && status != Flash.Ok
            && (TearsChunk(data, hal.ops) ==> StoreChunk(cut, offset, data, final, again) == (cut, Flash.VerifyError))
            && (!TearsChunk(data, hal.ops) ==> StoreChunk(cut, offset, data, final, HEALTHY).1 == Flash.Ok)
  {
    PaddedEnd(offset, |data|, size);
    CutChunk(flash, offset, data, size, final, hal);
    CutReads(data, hal.ops);
    hide Flash.Write, Flash.RoundUp, Flash.AllErased, CutTo, ValidateChunk;
    var cut := StoreChunk(flash, offset, data, final, hal).0;
    if RangeErased(cut, offset, |data|) {
      ErasedChunkIsStored(cut, offset, data, size, final);
    }
  }

  /** The first k words of the data over erased flash. */
  function CutTo(data: seq<byte>, k: nat): seq<byte>
    requires Flash.WORD * k < |data|
  {
    data[..Flash.WORD * k] + Flash.Blank(|data| - Flash.WORD * k)
  }

  /** Such bytes read as erased, or as the data, exactly if the words there, or the missing ones, do. */
  lemma CutReads(data: seq<byte>, k: nat)
    requires Flash.WORD * k < |data|
    ensures Flash.AllErased(CutTo(data, k)) <==> Flash.AllErased(data[..Flash.WORD * k])
    ensures CutTo(data, k) == data <==> Flash.AllErased(data[Flash.WORD * k..])
  {
    var n := Flash.WORD * k;
    assert CutTo(data, k)[..n] == data[..n];
    assert CutTo(data, k)[n..] == Flash.Blank(|data| - n);
    assert data == data[..n] + data[n..];
    if Flash.AllErased(data[n..]) {
      assert data[n..] == Flash.Blank(|data| - n);
    }
    if Flash.AllErased(CutTo(data, k)) {
      assert forall i | 0 <= i < n :: data[..n][i] == CutTo(data, k)[i];
    }
  }

  /** What the cut leaves: the first words of the chunk, and the rest of the flash as it was. */
  lemma CutChunk(flash: seq<byte>, offset: u32, data: Payload, size: u32, final: bool, hal: Hal)
    requires Flash.IsFlash(flash) && ValidateChunk(offset, |data|, size) == ChunkOk(final)
    requires RangeErased(flash, offset, |data|) && Flash.AllErased(flash[size..Flash.RoundUp(size)])
    requires hal.unlocks && Flash.WORD * hal.ops < |data|
    ensures offset + |data| <= |flash| && size <= Flash.RoundUp(size) <= |flash|
    ensures var (cut, status) := StoreChunk(flash, offset, data, final, hal);
            && Flash.IsFlash(cut) && status != Flash.Ok
            && cut[offset..offset + |data|] == CutTo(data, hal.ops)
            && Flash.AllErased(cut[size..Flash.RoundUp(size)])
  {
    PaddedEnd(offset, |data|, size);
    hide Flash.Program, Flash.RoundUp, ValidateChunk;
    var top := offset + Flash.RoundUp(|data|);
    forall j | offset <= j < top
      ensures flash[j] == Flash.ERASED
    {
      if j < offset + |data| {
        assert flash[j] == flash[offset..offset + |data|][j - offset];
      } else {
        assert flash[j] == flash[size..Flash.RoundUp(size)][j - size];
      }
    }
    Flash.ProgramErased(flash, offset, data, 0, hal.ops);
    var cut := StoreChunk(flash, offset, data, final, hal).0;
    assert cut[size..Flash.RoundUp(size)] == flash[size..Flash.RoundUp(size)];
    assert forall j | 0 <= j < |data| :: CutTo(data, hal.ops)[j] == cut[offset..offset + |data|][j];
  }

  /**
   * For the device: the cut chunk is answered with a flash error and nothing else changes; sent
   * again it is answered with a flash error for ever if it is torn, and is in flash otherwise.
   */
  lemma CutChunkHandled(b: Boot, req: Request, f: Faults, g: Faults)
    requires IsBoot(b) && b.ram.has && State(b) == RECEIVING && PadErased(b)
    requires req.session == b.ram.rec.session && req.offset == b.ram.rec.received
    requires ValidateChunk(req.offset, |req.payload|, b.ram.rec.size).ChunkOk?
    requires RangeErased(b.flash, req.offset, |req.payload|)
    requires f.flash.unlocks && Flash.WORD * f.flash.ops < |req.payload|
    ensures var (b1, r1) := HandleData(b, req, f);
            && r1 == FlashError && b1 == b.(flash := b1.flash)
            && (TearsChunk(req.payload, f.flash.ops) ==> HandleData(b1, req, g) == (b1, FlashError))
            && (!TearsChunk(req.payload, f.flash.ops) && g.flash == HEALTHY ==>
                  HandleData(b1, req, g).0.flash[req.offset..req.offset + |req.payload|] == req.payload)
  {
    hide StoreChunk, ValidateChunk, TearsChunk, AppendState, WellFormed, IsCheckpoint, RangeErased;
    var check := ValidateChunk(req.offset, |req.payload|, b.ram.rec.size);
    CutChunkResent(b.flash, req.offset, req.payload, b.ram.rec.size, check.final, f.flash, g.flash);
    var cut := StoreChunk(b.flash, req.offset, req.payload, check.final, f.flash).0;
    if !TearsChunk(req.payload, f.flash.ops) {
      StoredReadsBack(cut, req.offset, req.payload, check.final);
    }
  }

  lemma StoredReadsBack(flash: seq<byte>, offset: u32, data: Payload, final: bool)
    requires Flash.IsFlash(flash) && offset + |data| <= |flash|
    requires StoreChunk(flash, offset, data, final, HEALTHY).1 == Flash.Ok
    ensures StoreChunk(flash, offset, data, final, HEALTHY).0[offset..offset + |data|] == data
  {
    hide Flash.Program;
    Flash.ProgramIsLocal(flash, offset, data, 0, HEALTHY.ops);
  }

  /** The programming of a chunk is not interrupted; its journal append may be. */
  predicate SparesChunks(f: Faults) { f.flash == HEALTHY && Relocks(f) }

  predicate JournalWorks(f: Faults) { f.second.write == HEALTHY }

  function Raised(high: nat, image: ImageBytes, received: nat, o: nat): nat {
    if o == received && o < |image| && high < NextChunkEnd(o, |image|) then NextChunkEnd(o, |image|) else high
  }

  lemma ChunkIsValid(image: ImageBytes, o: nat)
    requires o < |image| && OnGrid(o, |image|)
    ensures ValidateChunk(o, |ChunkAt(image, o)|, |image|) == ChunkOk(NextChunkEnd(o, |image|) == |image|)
  {
    NextEndOnGrid(o, |image|);
    hide NextChunkEnd, OnGrid;
  }

  lemma DuplicateChunk(b: Boot, image: ImageBytes, o: nat, high: nat)
    requires IsBoot(b) && Written(b.flash, image, b.ram.rec.received, high)
    requires o < |image| && OnGrid(o, |image|) && OnGrid(b.ram.rec.received, |image|) && o < b.ram.rec.received
    ensures CompareChunk(b, o, ChunkAt(image, o)) == OK
  {
    NextEndOnGrid(o, |image|);
    OldChunk(b.flash, image, o, high);
    hide StoreChunk, OnGrid, Written, WellFormed, NextChunkEnd;
  }

  lemma ChunkHandled(b: Boot, image: ImageBytes, deal: Deal, high: nat, room: nat, req: Request, o: nat, f: Faults)
    requires Lively(b, image, deal, high, room) && IsChunkRequest(req, image, deal, o)
    requires SparesChunks(f) && (!JournalWorks(f) ==> room > 0)
    ensures var (b', reply) := HandleData(b, req, f);
            && Lively(b', image, deal, Raised(high, image, b.ram.rec.received, o),
                      if JournalWorks(f) then room else room - 1)
            && (JournalWorks(f) ==>
                  && reply == (if o <= b.ram.rec.received then OK else BadOffset)
                  && b'.ram.rec.received == (if o == b.ram.rec.received then NextChunkEnd(o, |image|) else b.ram.rec.received))
  {
    ChunkIsValid(image, o);
    if o == b.ram.rec.received {
      AcceptedChunk(b, image, deal, high, room, o, f);
    } else if o < b.ram.rec.received {
      DuplicateChunk(b, image, o, high);
    }
    LessRoom(b, image, deal, high, room);
    hide ValidateChunk, AcceptChunk, CompareChunk, NextChunkEnd, OnGrid, Latest, FreeCount, WellFormed, Budget, Written, Synced;
  }

  lemma LessRoom(b: Boot, image: ImageBytes, deal: Deal, high: nat, room: nat)
    requires Lively(b, image, deal, high, room)
    ensures room > 0 ==> Lively(b, image, deal, high, room - 1)
  {
    hide Latest, FreeCount, WellFormed, Budget, Written, OnGrid, Synced;
  }

  /** Storing the next chunk, fresh or there already, keeps everything but the mark. */
  lemma StoredChunk(b: Boot, image: ImageBytes, deal: Deal, high: nat, room: nat, o: nat)
    requires Lively(b, image, deal, high, room) && o == b.ram.rec.received && o < |image|
    ensures var end := NextChunkEnd(o, |image|);
            var (flash', status) := StoreChunk(b.flash, o, ChunkAt(image, o), end == |image|, HEALTHY);
            && status == Flash.Ok && end <= Raised(high, image, o, o)
            && Lively(b.(flash := flash'), image, deal, Raised(high, image, o, o), room)
  {
    NextEndOnGrid(o, |image|);
    hide StoreChunk, Latest, FreeCount, WellFormed, Budget, OnGrid, NextChunkEnd;
    if o == high {
      FreshChunk(b.flash, image, o);
    } else {
      OldChunk(b.flash, image, o, high);
    }
    assert Written(StoreChunk(b.flash, o, ChunkAt(image, o), NextChunkEnd(o, |image|) == |image|, HEALTHY).0,
                   image, o, Raised(high, image, o, o));
    hide Written;
  }

  /** Accepting the next chunk keeps the transfer lively and, if the journal works, moves it on. */
  ghost predicate MovesOn(b: Boot, image: ImageBytes, deal: Deal, high: nat, room: nat, o: nat, f: Faults)
  {
    && IsBoot(b) && b.ram.rec.received == o < |image| && OnGrid(o, |image|) && (JournalWorks(f) || room > 0)
    && var end := NextChunkEnd(o, |image|);
       var (b', reply) := AcceptChunk(b, ChunkAt(image, o), end == |image|, f);
       && Lively(b', image, deal, Raised(high, image, o, o), if JournalWorks(f) then room else room - 1)
       && (JournalWorks(f) ==> reply == OK && b'.ram.rec.received == end)
  }

  lemma AcceptedChunk(b: Boot, image: ImageBytes, deal: Deal, high: nat, room: nat, o: nat, f: Faults)
    requires Lively(b, image, deal, high, room) && o == b.ram.rec.received && o < |image|
    requires SparesChunks(f) && (!JournalWorks(f) ==> room > 0)
    ensures MovesOn(b, image, deal, high, room, o, f)
  {
    hide Latest, WellFormed, FreeCount, Budget, Written, StoreChunk, OnGrid, NextChunkEnd, Advance, ValidateChunk, Raised;
    assert IsBoot(b) && b.ram.rec.size == |image| && OnGrid(o, |image|);
    hide Lively, IsBoot;
    var end := NextChunkEnd(o, |image|);
    NextEndOnGrid(o, |image|);
    StoredChunk(b, image, deal, high, room, o);
    var stored := b.(flash := StoreChunk(b.flash, o, ChunkAt(image, o), end == |image|, HEALTHY).0);
    AdvanceLively(stored, image, deal, Raised(high, image, o, o), room, end, f.second);
  }

  // ---- Between requests ----

  ghost predicate LivelyService(s: System, image: ImageBytes, deal: Deal, high: nat, room: nat) {
    s.mode.Service? && Lively(BootOf(s), image, deal, high, room)
  }

  lemma LivelyServes(s: System, image: ImageBytes, deal: Deal, high: nat, room: nat)
    requires LivelyService(s, image, deal, high, room)
    ensures Serves(s) && Lively(Awake(s), image, deal, high, room)
  {
    hide Latest, FreeCount, WellFormed, Budget, Written, OnGrid;
  }

  /** Every power cut is followed by a power-on with a working transport. */
  predicate StaysPowered(events: seq<Event>)
    decreases |events|
  {
    events == [] ||
    (if events[0].Cut? then
       |events| >= 2 && events[1].PowerOn? && events[1].transportUp && StaysPowered(events[2..])
     else !events[0].Receive? && StaysPowered(events[1..]))
  }

  predicate Uncut(events: seq<Event>) { forall i | 0 <= i < |events| :: !events[i].Cut? }

  /** A reset takes the progress back to the journal's and leaves the rest. */
  lemma ResetIsLively(s: System, image: ImageBytes, deal: Deal, high: nat, room: nat, powerOn: Event)
    requires LivelyService(s, image, deal, high, room) && powerOn.PowerOn? && powerOn.transportUp
    ensures IsSystem(s)
    ensures var s' := Step(Step(s, Cut).0, powerOn).0;
            LivelyService(s', image, deal, high, room)
  {
    hide FreeCount, Budget, OnGrid, HasUsed, Decide, IsAppValid;
    LatestIsValid(s.log);
    hide Latest, WellFormed;
  }

  lemma IdleIsLively(s: System, image: ImageBytes, deal: Deal, high: nat, room: nat, e: Event)
    requires LivelyService(s, image, deal, high, room) && !e.Cut? && !e.Receive?
    ensures IsSystem(s) && LivelyService(Step(s, e).0, image, deal, high, room)
    ensures Step(s, e).0.mode.ram.rec == s.mode.ram.rec
  {
    hide Latest, FreeCount, WellFormed, Budget, Written, OnGrid, Synced;
    assert Synced(s.log, s.mode.ram) ==> Synced(s.log, s.mode.ram.(activity := true)) by { SyncIgnoresActivity(s.log, s.mode.ram); }
  }

  lemma SyncIgnoresActivity(log: Log, ram: Ram)
    ensures Synced(log, ram) ==> Synced(log, ram.(activity := true))
  {
    hide Latest;
  }

  lemma {:induction false} PoweredIsLively(s: System, image: ImageBytes, deal: Deal, high: nat, room: nat, events: seq<Event>)
    requires LivelyService(s, image, deal, high, room) && StaysPowered(events)
    ensures IsSystem(s) && LivelyService(Steps(s, events), image, deal, high, room)
    ensures Uncut(events) ==> Steps(s, events).mode.ram.rec == s.mode.ram.rec
    decreases |events|
  {
    LivelyServes(s, image, deal, high, room);
    hide Step, Lively, IsSystem;
    if events != [] {
      if events[0].Cut? {
        ResetIsLively(s, image, deal, high, room, events[1]);
        assert events[1..][1..] == events[2..];
        PoweredIsLively(Step(Step(s, Cut).0, events[1]).0, image, deal, high, room, events[2..]);
      } else {
        IdleIsLively(s, image, deal, high, room, events[0]);
        PoweredIsLively(Step(s, events[0]).0, image, deal, high, room, events[1..]);
      }
    }
  }

  // ---- Exchanges ----

  /** Resets and lost frames are allowed; what fails in the journal is not acknowledged. */
  predicate AllowedFate(fate: Fate) {
    && SparesChunks(fate.faults) && StaysPowered(fate.before)
    && (fate.delivery.Answered? ==> JournalWorks(fate.faults))
  }

  /** No power cut and no journal fault: frames may still get lost. */
  predicate CalmFate(fate: Fate) { Uncut(fate.before) && JournalWorks(fate.faults) }

  function RoomAfter(room: nat, fate: Fate): int { if JournalWorks(fate.faults) then room else room - 1 }

  /** One exchange of a chunk: the device stays lively, and a calm one that arrives makes progress. */
  lemma ExchangeIsLively(s: System, image: ImageBytes, deal: Deal, high: nat, room: nat, req: Request, o: nat, fate: Fate)
    returns (high': nat)
    requires LivelyService(s, image, deal, high, room) && IsChunkRequest(req, image, deal, o)
    requires AllowedFate(fate) && (!JournalWorks(fate.faults) ==> room > 0)
    ensures IsSystem(s)
    ensures var (s', outcome) := Exchange(s, req, fate);
            && LivelyService(s', image, deal, high', RoomAfter(room, fate))
            && (CalmFate(fate) ==>
                  && s'.mode.ram.rec.received >= s.mode.ram.rec.received
                  && (!fate.delivery.RequestLost? && o == s.mode.ram.rec.received ==> s'.mode.ram.rec.received > o))
            && (fate.delivery.Answered? ==>
                  && outcome.Answer?
                  && var next := s'.mode.ram.rec.received;
                     && next != o
                     && outcome.response == AnswerTo(BootOf(s'), req, if next > o then OK else BadOffset))
  {
    PoweredIsLively(s, image, deal, high, room, fate.before);
    var ready := Steps(s, fate.before);
    LivelyServes(ready, image, deal, high, room);
    LivelyServes(s, image, deal, high, room);
    hide Steps, IsSystem;
    if fate.delivery.RequestLost? {
      LessRoom(BootOf(ready), image, deal, high, room);
      high' := high;
    } else {
      var b := Awake(ready);
      high' := Raised(high, image, b.ram.rec.received, o);
      ChunkHandled(b, image, deal, high, room, req, o, fate.faults);
      DataStep(ready, req, if fate.delivery.ResponseLost? then fate.delivery.sent else true, fate.faults);
    }
    hide Step, HandleData, Lively, OnGrid;
  }

  // ---- Transactions ----

  /** The fates still to come that are not calm, up to the last one. */
  function Troubles(fates: nat -> Fate, clock: nat, last: nat): nat
    decreases last - clock
  {
    if clock >= last then 0 else (if CalmFate(fates(clock)) then 0 else 1) + Troubles(fates, clock + 1, last)
  }

  /** The interrupted journal appends still to come. */
  function TornAppends(fates: nat -> Fate, clock: nat, last: nat): nat
    decreases last - clock
  {
    if clock >= last then 0 else (if JournalWorks(fates(clock).faults) then 0 else 1) + TornAppends(fates, clock + 1, last)
  }

  /** Some attempt of the transaction gets through. */
  predicate AnsweredWithin(fates: nat -> Fate, clock: nat, attempts: nat)
    decreases attempts
  {
    attempts > 0 && (fates(clock).delivery.Answered? || AnsweredWithin(fates, clock + 1, attempts - 1))
  }

  /** Resets and journal faults stop at some point, and no transaction runs out of attempts. */
  ghost predicate Friendly(fates: nat -> Fate, last: nat) {
    && (forall n: nat :: AllowedFate(fates(n)))
    && (forall n: nat | n >= last :: CalmFate(fates(n)))
    && (forall n: nat :: AnsweredWithin(fates, n, MAX_RETRY_COUNT))
  }

  lemma TroublesStep(fates: nat -> Fate, clock: nat, last: nat)
    requires forall n: nat | n >= last :: CalmFate(fates(n))
    ensures Troubles(fates, clock, last) == Troubles(fates, clock + 1, last) + if CalmFate(fates(clock)) then 0 else 1
    ensures TornAppends(fates, clock, last) == TornAppends(fates, clock + 1, last) + if JournalWorks(fates(clock).faults) then 0 else 1
  {
  }

  lemma {:induction false} AttemptsAreLively(s: System, image: ImageBytes, deal: Deal, high: nat, req: Request, o: nat,
                                             fates: nat -> Fate, clock: nat, left: nat, error: Failure, last: nat)
    returns (high': nat)
    requires LivelyService(s, image, deal, high, TornAppends(fates, clock, last)) && IsChunkRequest(req, image, deal, o)
    requires Friendly(fates, last) && AnsweredWithin(fates, clock, left)
    ensures IsSystem(s)
    ensures var (s', clock', result) := Attempts(s, req, fates, clock, left, error);
            && LivelyService(s', image, deal, high', TornAppends(fates, clock', last))
            && Troubles(fates, clock', last) <= Troubles(fates, clock, last)
            && result.Got?
            && var next := s'.mode.ram.rec.received;
               && next != o
               && result.response == AnswerTo(BootOf(s'), req, if next > o then OK else BadOffset)
               && (Troubles(fates, clock', last) == Troubles(fates, clock, last) ==>
                     next >= s.mode.ram.rec.received && (o == s.mode.ram.rec.received ==> next > o))
    decreases left
  {
    hide Step, Exchange, Lively, IsSystem, OnGrid, CalmFate, AllowedFate;
    var fate := fates(clock);
    assert AllowedFate(fate);
    TroublesStep(fates, clock, last);
    high' := ExchangeIsLively(s, image, deal, high, TornAppends(fates, clock, last), req, o, fate);
    hide Troubles, TornAppends;
    if !fate.delivery.Answered? {
      var (s', outcome) := Exchange(s, req, fate);
      assert outcome.NoAnswer? by { NotAnswered(s, req, fate); }
      high' := AttemptsAreLively(s', image, deal, high', req, o, fates, clock + 1, left - 1, outcome.failure, last);
    }
  }

  lemma NotAnswered(s: System, req: Request, fate: Fate)
    requires IsSystem(s) && !fate.delivery.Answered?
    ensures Exchange(s, req, fate).1.NoAnswer?
  {
    hide Step, Steps, IsSystem;
  }

  // ---- The whole transfer ----

  /** The loop iterations left: resets left first, then bytes left, then whether the offsets agree yet. */
  function Work(troubles: nat, size: nat, received: nat, offset: nat): nat
    requires received <= size
  {
    troubles * (size + 2) + (size - received) + if offset == received then 0 else 1
  }

  lemma {:induction false} FewerTroubles(t: nat, t': nat, k: nat)
    requires t' < t
    ensures t' * k + k <= t * k
    decreases t
  {
    assert t * k == (t - 1) * k + k;
    if t' < t - 1 {
      FewerTroubles(t - 1, t', k);
    }
  }

  lemma WorkShrinks(t: nat, t': nat, size: nat, received: nat, received': nat, o: nat)
    requires received <= size && received' <= size && t' <= t
    requires t' == t ==> received' >= received && (o == received ==> received' > o)
    ensures Work(t', size, received', received') < Work(t, size, received, o)
  {
    if t' < t {
      FewerTroubles(t, t', size + 2);
    }
  }

  /** One round of the loop: the answer sends it to the device's offset, and work is done. */
  lemma OneRound(w: Wire, fates: nat -> Fate, deal: Deal, image: ImageBytes, offset: u32, high: nat, last: nat)
    returns (high': nat)
    requires LivelyService(w.device, image, deal, high, TornAppends(fates, w.clock, last))
    requires Friendly(fates, last) && OnGrid(offset, |image|) && offset < |image|
    ensures IsWire(w)
    ensures var (w', result) := SendChunk(w, fates, deal.id.session, image, offset);
            && LivelyService(w'.device, image, deal, high', TornAppends(fates, w'.clock, last))
            && var received := w'.device.mode.ram.rec.received;
               && received <= |image| && OnGrid(received, |image|)
               && Judge(result, w.seqno, offset, |image|) == Goto(received)
               && Work(Troubles(fates, w'.clock, last), |image|, received, received) <
                  Work(Troubles(fates, w.clock, last), |image|, w.device.mode.ram.rec.received, offset)
  {
    LivelyServes(w.device, image, deal, high, TornAppends(fates, w.clock, last));
    hide Step, Attempts, IsSystem, Troubles, TornAppends, NextChunkEnd;
    NextEndOnGrid(offset, |image|);
    hide OnGrid;
    var req := Request(Data, deal.id.session, w.seqno, offset, ChunkAt(image, offset));
    FriendlyAnswers(fates, last, w.clock);
    hide Friendly, AnsweredWithin;
    high' := AttemptsAreLively(w.device, image, deal, high, req, offset, fates, w.clock, MAX_RETRY_COUNT, TimedOut, last);
    var w' := SendChunk(w, fates, deal.id.session, image, offset).0;
    LivelyBounds(w'.device, image, deal, high', TornAppends(fates, w'.clock, last));
    LivelyBounds(w.device, image, deal, high, TornAppends(fates, w.clock, last));
    hide Lively, ChunkAt;
    WorkShrinks(Troubles(fates, w.clock, last), Troubles(fates, w'.clock, last), |image|,
                w.device.mode.ram.rec.received, w'.device.mode.ram.rec.received, offset);
    hide Work;
  }

  lemma LivelyBounds(s: System, image: ImageBytes, deal: Deal, high: nat, room: nat)
    requires LivelyService(s, image, deal, high, room)
    ensures s.mode.ram.has && s.mode.ram.rec.received <= |image| && OnGrid(s.mode.ram.rec.received, |image|)
  {
    hide Latest, FreeCount, WellFormed, Budget, Synced;
  }

  lemma RoundUnfolds(w: Wire, fates: nat -> Fate, deal: Deal, image: ImageBytes, offset: u32, checks: nat, next: u32)
    requires IsWire(w) && offset < |image| && checks > 0
    requires Judge(SendChunk(w, fates, deal.id.session, image, offset).1, w.seqno, offset, |image|) == Goto(next)
    ensures TransferRun(w, fates, deal.id.session, image, offset, checks) ==
            TransferRun(SendChunk(w, fates, deal.id.session, image, offset).0, fates, deal.id.session, image, next, checks - 1)
  {
    hide SendChunk, IsSystem, Judge;
  }

  lemma NothingToSend(w: Wire, fates: nat -> Fate, deal: Deal, image: ImageBytes, offset: u32, checks: nat)
    requires IsWire(w) && offset >= |image|
    ensures TransferRun(w, fates, deal.id.session, image, offset, checks) == (w, checks, Done)
  {
  }

  /** The device counts the whole image as received, and has it in flash. */
  predicate Completed(s: System, image: seq<byte>) {
    && s.mode.Service? && s.mode.ram.has && s.mode.ram.rec.state == RECEIVING
    && s.mode.ram.rec.received == s.mode.ram.rec.size == |image|
    && |image| <= |s.flash| && s.flash[..|image|] == image
  }

  /**
   * Liveness of the transfer: if resets and interrupted journal appends stop some day, if every
   * transaction gets one of its five attempts through, and if nobody aborts within the stated
   * number of rounds, the loop ends with the whole image received and in flash.
   */
  lemma {:induction false} TransferCompletes(w: Wire, fates: nat -> Fate, deal: Deal, image: ImageBytes, offset: u32,
                                             checks: nat, high: nat, last: nat) returns (high': nat)
    requires LivelyService(w.device, image, deal, high, TornAppends(fates, w.clock, last))
    requires Friendly(fates, last) && offset <= |image| && OnGrid(offset, |image|)
    requires offset == |image| ==> w.device.mode.ram.rec.received == |image|
    requires w.device.mode.ram.rec.received <= |image|
    requires checks >= Work(Troubles(fates, w.clock, last), |image|, w.device.mode.ram.rec.received, offset)
    ensures IsWire(w)
    ensures var (w', left, status) := TransferRun(w, fates, deal.id.session, image, offset, checks);
            && status == Done && Completed(w'.device, image)
            && LivelyService(w'.device, image, deal, high', TornAppends(fates, w'.clock, last))
            && left + Work(Troubles(fates, w.clock, last), |image|, w.device.mode.ram.rec.received, offset) >= checks
    decreases checks
  {
    hide TransferRun, SendChunk, Judge, Work, Friendly, Troubles, TornAppends, Lively, Completed, OnGrid;
    LivelyServes(w.device, image, deal, high, TornAppends(fates, w.clock, last));
    hide Serves, IsSystem;
    if offset == |image| {
      high' := high;
      CompleteIsInFlash(w.device, image, deal, high, TornAppends(fates, w.clock, last));
      NothingToSend(w, fates, deal, image, offset, checks);
    } else {
      high' := OneRound(w, fates, deal, image, offset, high, last);
      var w' := SendChunk(w, fates, deal.id.session, image, offset).0;
      var received := w'.device.mode.ram.rec.received;
      high' := TransferCompletes(w', fates, deal, image, received, checks - 1, high', last);
      RoundUnfolds(w, fates, deal, image, offset, checks, received);
    }
  }

  lemma FriendlyAnswers(fates: nat -> Fate, last: nat, clock: nat)
    requires Friendly(fates, last)
    ensures AnsweredWithin(fates, clock, MAX_RETRY_COUNT)
  {
  }

  lemma CompleteIsInFlash(s: System, image: ImageBytes, deal: Deal, high: nat, room: nat)
    requires LivelyService(s, image, deal, high, room) && s.mode.ram.rec.received == |image|
    ensures Completed(s, image)
  {
    hide Latest, FreeCount, WellFormed, Budget, Synced;
  }

  /** A successful erase starts the transfer: nothing received, everything erased, the journal's room as before. */
  lemma EraseStartsTheTransfer(b: Boot, image: ImageBytes, deal: Deal, room: nat, f: Faults)
    requires Latest(b.log).Some? && Updating(b, Latest(b.log).value)
    requires State(b) == ERASING && b.ram.has && b.ram.deferred == EraseApp && b.ram.rec.size == |image|
    requires FreeCount(b.log) >= Budget(Latest(b.log).value) + room
    requires Latest(b.log).value.seqno + Budget(Latest(b.log).value) <= deal.top < 0xFFFF_FFFF
    requires IdOf(b.ram.rec) == deal.id
    requires Flash.Erase(b.flash, |image|, f.flash).1 == Flash.Ok && JournalWorks(f)
    ensures Lively(RunDeferred(b, f).0, image, deal, 0, room)
  {
    var d := Latest(b.log).value;
    var flash' := Flash.Erase(b.flash, |image|, f.flash).0;
    EraseReachesStart(b.flash, image, f.flash);
    hide Flash.Erase, Written, OnGrid;
    var erased := b.(flash := flash', ram := b.ram.(deferred := NoAction));
    assert erased.ram.rec.(received := 0) == erased.ram.rec;
    ReceivingStarts(erased, f.second, d);
    hide AppendState, Latest, FreeCount, WellFormed;
    assert OnGrid(0, |image|) by { ZeroIsOnGrid(|image|); }
  }

  lemma ZeroIsOnGrid(size: nat)
    ensures OnGrid(0, size)
  {
  }

  lemma EraseReachesStart(flash: seq<byte>, image: ImageBytes, hal: Hal)
    requires Flash.IsFlash(flash) && |image| > 0 && Flash.Erase(flash, |image|, hal).1 == Flash.Ok
    ensures Written(Flash.Erase(flash, |image|, hal).0, image, 0, 0)
  {
    Flash.EraseBlanks(flash, |image|, hal);
    var flash' := Flash.Erase(flash, |image|, hal).0;
    hide Flash.Erase;
    assert flash'[0..Flash.RoundUp(|image|)] == flash'[..Flash.RoundUp(|image|)];
  }

  lemma ReceivingStarts(b: Boot, plan: Plan, d: Record)
    requires Updating(b, d) && b.ram.has && State(b) == ERASING && plan.write == HEALTHY
    requires FreeCount(b.log) > 0 && d.seqno < 0xFFFF_FFFE
    ensures var (b', reply) := AppendState(b, RECEIVING, 0, plan);
            && reply == OK && Synced(b'.log, b'.ram) && Latest(b'.log) == Some(b'.ram.rec)
            && b'.ram == b.ram.(rec := b.ram.rec.(state := RECEIVING, error := 0, seqno := d.seqno + 1))
            && FreeCount(b'.log) == FreeCount(b.log) - 1
  {
    hide Append, FreeCount;
    var desired := b.ram.rec.(state := RECEIVING, error := 0);
    AppendWithRoom(b.log, desired, plan);
    AppendOutcome(b.log, desired, plan);
    AppendSpendsOneSlot(b.log, desired, plan);
    hide Latest, WellFormed;
  }
}
