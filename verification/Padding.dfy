/** The bytes that pad an image's last word stay erased from the erase to the verdict. */
module Padding {
  import opened Types
  import opened Messages
  import opened MetadataLog
  import opened Device
  import opened DataPrefix
  import TrialBoots
  import Flash = FlashImage

  predicate PadOf(flash: seq<byte>, size: u32)
    requires Flash.IsFlash(flash) && size <= APP_MAX_SIZE
  {
    Flash.AllErased(flash[size..Flash.RoundUp(size)])
  }

  ghost predicate Padded(log: Log, flash: seq<byte>) {
    && Flash.IsFlash(flash)
    && (Latest(log).Some? && Latest(log).value.state == RECEIVING ==>
          Latest(log).value.size <= APP_MAX_SIZE && PadOf(flash, Latest(log).value.size))
  }

  /** No new RECEIVING record, no change of flash. */
  lemma OtherStateKeepsPadding(b: Boot, state: u16, error: u32, plan: Plan)
    requires IsBoot(b) && Padded(b.log, b.flash) && state != RECEIVING
    ensures var b' := AppendState(b, state, error, plan).0; Padded(b'.log, b'.flash)
  {
    TrialBoots.AppendStateLatest(b, state, error, plan);
    hide AppendState, Latest, WellFormed, PadOf;
  }

  lemma ReceivingKeepsPadding(b: Boot, plan: Plan)
    requires IsBoot(b) && Padded(b.log, b.flash) && b.ram.has && PadOf(b.flash, b.ram.rec.size)
    ensures var b' := AppendState(b, RECEIVING, 0, plan).0; Padded(b'.log, b'.flash)
  {
    var desired := b.ram.rec.(state := RECEIVING, error := 0);
    AppendOutcome(b.log, desired, plan);
    hide Append, Latest, WellFormed, PadOf;
  }

  lemma StoreKeepsPad(flash: seq<byte>, offset: u32, data: Payload, final: bool, hal: Hal, size: u32)
    requires Flash.IsFlash(flash) && offset + |data| <= size <= APP_MAX_SIZE && PadOf(flash, size)
    ensures PadOf(StoreChunk(flash, offset, data, final, hal).0, size)
  {
    hide Flash.Program, Flash.RoundUp, Flash.AllErased;
    Flash.ProgramIsLocal(flash, offset, data, 0, hal.ops);
    var flash' := StoreChunk(flash, offset, data, final, hal).0;
    var top := Flash.RoundUp(size);
    assert top <= |flash|;
    assert flash'[size..top] == flash[size..top] by {
      assert forall j | size <= j < top :: flash'[j] == flash[j];
    }
  }

  lemma DataKeepsPadding(b: Boot, req: Request, f: Faults)
    requires IsBoot(b) && Synced(b.log, b.ram) && Padded(b.log, b.flash)
    ensures var b' := HandleData(b, req, f).0; Padded(b'.log, b'.flash)
  {
    hide StoreChunk, CompareChunk, AppendState, WellFormed, Latest, PadOf, IsCheckpoint;
    if b.ram.has && State(b) == RECEIVING && req.offset == b.ram.rec.received {
      var check := ValidateChunk(req.offset, |req.payload|, b.ram.rec.size);
      if check.ChunkOk? {
        var r := b.ram.rec;
        assert PadOf(b.flash, r.size);
        StoreKeepsPad(b.flash, r.received, req.payload, check.final, f.flash, r.size);
        var flash' := StoreChunk(b.flash, r.received, req.payload, check.final, f.flash).0;
        var moved := b.(flash := flash', ram := b.ram.(rec := r.(received := r.received + |req.payload|)));
        assert Padded(b.log, flash');
        ReceivingKeepsPadding(moved, f.second);
      }
    }
    hide Synced, ValidateChunk;
  }

  lemma DispatchKeepsPadding(b: Boot, req: Request, f: Faults)
    requires IsBoot(b) && Synced(b.log, b.ram) && Padded(b.log, b.flash)
    ensures var b' := Dispatch(b, req, f).0; Padded(b'.log, b'.flash)
  {
    hide Synced, PadOf, WellFormed, Latest;
    match req.command {
      case Start => StartKeepsPadding(b, req, f); hide HandleStart;
      case Erase => OtherStateKeepsPadding(b, ERASING, 0, f.first); hide AppendState;
      case Data => DataKeepsPadding(b, req, f); hide HandleData;
      case VerifyImage => VerifyKeepsPadding(b, req, f); hide HandleVerify;
      case Abort => OtherStateKeepsPadding(b, FAILED, 0, f.first); hide AppendState;
      case _ =>
    }
  }

  lemma StartKeepsPadding(b: Boot, req: Request, f: Faults)
    requires IsBoot(b) && Padded(b.log, b.flash)
    ensures var h := HandleStart(b, req, f); Padded(h.b.log, h.b.flash)
  {
    hide DecodeManifest, ManifestMatches;
    if StartRefusal(req) == OK && !InSession(State(b)) {
      var m := DecodeManifest(req.payload).value;
      var log1 := CompactIfNeeded(b.log, RequiredRecords(m.size), f.first).0;
      TrialBoots.CompactLatest(b.log, RequiredRecords(m.size), f.first);
      TrialBoots.AppendLatest(log1, StartRecord(req.session, m), f.second);
      hide CompactIfNeeded, Append, Latest, WellFormed;
    }
    hide PadOf;
  }

  lemma VerifyKeepsPadding(b: Boot, req: Request, f: Faults)
    requires IsBoot(b) && Padded(b.log, b.flash)
    ensures var b' := HandleVerify(b, req, f).0; Padded(b'.log, b'.flash)
  {
    hide ImageCrc, PadOf, Latest, WellFormed;
    OtherStateKeepsPadding(b, VERIFYING, 0, f.first);
    var b1 := if State(b) == RECEIVING then AppendState(b, VERIFYING, 0, f.first).0 else b;
    OtherStateKeepsPadding(b1, PENDING_BOOT, 0, f.second);
    OtherStateKeepsPadding(b1, FAILED, VERIFY_FAILED_CODE, f.second);
    hide AppendState, Padded;
  }

  lemma DeferredKeepsPadding(b: Boot, f: Faults)
    requires IsBoot(b) && Synced(b.log, b.ram) && Padded(b.log, b.flash)
    requires b.ram.deferred == EraseApp ==> b.ram.has && State(b) == ERASING
    ensures var b' := RunDeferred(b, f).0; Padded(b'.log, b'.flash)
  {
    hide Latest, WellFormed, AppendState;
    if b.ram.deferred == EraseApp {
      var (flash', status) := Flash.Erase(b.flash, b.ram.rec.size, f.flash);
      var erased := b.(ram := b.ram.(deferred := NoAction), flash := flash');
      assert Padded(erased.log, flash');
      if status == Flash.Ok {
        assert PadOf(flash', b.ram.rec.size) by { EraseReachesPad(b.flash, b.ram.rec.size, f.flash); }
        hide Flash.Erase, PadOf;
        ReceivingKeepsPadding(erased.(ram := erased.ram.(rec := erased.ram.rec.(received := 0))), f.second);
      } else {
        hide Flash.Erase, PadOf;
        OtherStateKeepsPadding(erased, FAILED, FLASH_ERROR_CODE, f.second);
      }
    }
  }

  lemma EraseReachesPad(flash: seq<byte>, size: u32, hal: Hal)
    requires Flash.IsFlash(flash) && size <= APP_MAX_SIZE && Flash.Erase(flash, size, hal).1 == Flash.Ok
    ensures PadOf(Flash.Erase(flash, size, hal).0, size)
  {
    Flash.EraseBlanks(flash, size, hal);
    var flash' := Flash.Erase(flash, size, hal).0;
    var top := Flash.RoundUp(size);
    hide Flash.Erase;
    assert forall j | 0 <= j < top :: flash'[j] == flash'[..top][j];
  }
}
