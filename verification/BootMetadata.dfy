/** The metadata sector as NOR flash words, and the routines that scan and program it. */
module BootMetadata {
  import opened Types
  import opened MetadataLog
  import opened RecordWords
  import opened Nor

  const SECTOR_WORDS: nat := 16384

  function SlotWords(sector: seq<u32>, slot: nat): Words
    requires |sector| == SECTOR_WORDS && slot < CAPACITY
  {
    sector[RECORD_WORDS * slot..RECORD_WORDS * slot + RECORD_WORDS]
  }

  /** The log a sector stands for. */
  function LogOf(sector: seq<u32>): (log: Log)
    requires |sector| == SECTOR_WORDS
    ensures |log| == CAPACITY
  {
    seq(CAPACITY, (i: nat) requires i < CAPACITY => SlotOf(SlotWords(sector, i)))
  }

  lemma LogOfIsWellFormed(sector: seq<u32>)
    requires |sector| == SECTOR_WORDS
    ensures WellFormed(LogOf(sector))
  {
    var log := LogOf(sector);
    forall i | 0 <= i < |log| && log[i].Committed?
      ensures RecordValid(log[i].rec)
    {
      ParseRoundTrip(SlotWords(sector, i));
    }
  }

  /** Words of one slot replaced, every other word kept: one slot of the log replaced. */
  lemma OneSlotChanged(before: seq<u32>, after: seq<u32>, slot: nat, w: Words)
    requires |before| == |after| == SECTOR_WORDS && slot < CAPACITY
    requires SlotWords(after, slot) == w
    requires forall j | 0 <= j < SECTOR_WORDS && (j < RECORD_WORDS * slot || j >= RECORD_WORDS * slot + RECORD_WORDS) ::
               after[j] == before[j]
    ensures LogOf(after) == LogOf(before)[slot := SlotOf(w)]
  {
    hide SlotOf;
    forall i | 0 <= i < CAPACITY
      ensures LogOf(after)[i] == LogOf(before)[slot := SlotOf(w)][i]
    {
      if i != slot {
        assert SlotWords(after, i) == SlotWords(before, i);
      }
    }
  }

  lemma ErasedSector(sector: seq<u32>)
    requires |sector| == SECTOR_WORDS
    requires forall j | 0 <= j < SECTOR_WORDS :: sector[j] == ERASED_WORD
    ensures LogOf(sector) == ErasedLog()
  {
  }

  lemma ErasedSlotWords(sector: seq<u32>, slot: nat)
    requires |sector| == SECTOR_WORDS && slot < CAPACITY
    ensures LogOf(sector)[slot].Erased? <==>
              forall j | RECORD_WORDS * slot <= j < RECORD_WORDS * slot + RECORD_WORDS :: sector[j] == ERASED_WORD
  {
    hide ImageValid;
    var w := SlotWords(sector, slot);
    if LogOf(sector)[slot].Erased? {
      forall j | RECORD_WORDS * slot <= j < RECORD_WORDS * slot + RECORD_WORDS
        ensures sector[j] == ERASED_WORD
      {
        assert sector[j] == w[j - RECORD_WORDS * slot];
      }
    }
  }

  datatype Scan = Scan(latest: Option<Record>, hasUsed: bool, firstErased: Option<nat>, free: nat)

  class Journal {
    const words: array<u32>

    ghost predicate Valid() { words.Length == SECTOR_WORDS }

    ghost function Log(): (log: Log)
      requires Valid()
      reads words
      ensures |log| == CAPACITY
    {
      LogOf(words[..])
    }

    constructor (sector: array<u32>)
      requires sector.Length == SECTOR_WORDS
      ensures Valid() && words == sector
    {
      words := sector;
    }

    method SlotIsErased(slot: nat) returns (erased: bool)
      requires Valid() && slot < CAPACITY
      ensures erased <==> Log()[slot].Erased?
    {
      hide ImageValid;
      var first := RECORD_WORDS * slot;
      var wordIndex := 0;
      while wordIndex < RECORD_WORDS
        invariant 0 <= wordIndex <= RECORD_WORDS
        invariant forall j | first <= j < first + wordIndex :: words[j] == ERASED_WORD
      {
        if words[first + wordIndex] != ERASED_WORD {
          assert SlotWords(words[..], slot)[wordIndex] != ERASED_WORD;
          return false;
        }
        wordIndex := wordIndex + 1;
      }
      assert forall j | 0 <= j < RECORD_WORDS :: SlotWords(words[..], slot)[j] == ERASED_WORD;
      return true;
    }

    method ReadSlot(slot: nat) returns (w: Words)
      requires Valid() && slot < CAPACITY
      ensures w == SlotWords(words[..], slot)
    {
      var destination: seq<u32> := [];
      var wordIndex := 0;
      while wordIndex < RECORD_WORDS
        invariant 0 <= wordIndex <= RECORD_WORDS
        invariant destination == words[RECORD_WORDS * slot..RECORD_WORDS * slot + wordIndex]
      {
        destination := destination + [words[RECORD_WORDS * slot + wordIndex]];
        wordIndex := wordIndex + 1;
      }
      w := destination;
    }

    /** One pass over all slots finds everything the callers ask of the journal. */
    method ScanSlots() returns (scan: Scan)
      requires Valid()
      ensures scan.latest == Latest(Log())
      ensures scan.hasUsed <==> HasUsed(Log())
      ensures scan.firstErased == FirstErased(Log())
      ensures scan.free == FreeCount(Log())
    {
      hide ImageValid, Parse, Latest, FirstErased, FreeCount, HasUsed;
      scan := Scan(None, false, None, 0);
      ghost var log := Log();
      ScanOfNothing();
      assert log[..0] == [];
      var slot := 0;
      while slot < CAPACITY
        invariant 0 <= slot <= CAPACITY
        invariant scan.latest == Latest(log[..slot])
        invariant scan.hasUsed <==> HasUsed(log[..slot])
        invariant scan.firstErased == FirstErased(log[..slot])
        invariant scan.free == FreeCount(log[..slot])
      {
        ScanExtends(log, slot);
        var erased := SlotIsErased(slot);
        if erased {
          if scan.firstErased.None? {
            scan := scan.(firstErased := Some(slot));
          }
          scan := scan.(free := scan.free + 1);
        } else {
          scan := scan.(hasUsed := true);
          var candidate := ReadSlot(slot);
          if ImageValid(candidate) &&
             (scan.latest.None? || Parse(candidate).seqno > scan.latest.value.seqno) {
            scan := scan.(latest := Some(Parse(candidate)));
          }
        }
        slot := slot + 1;
      }
      assert log[..slot] == log;
    }

    /**
     * Programs an image into an erased slot word by word, commit marker last, reading
     * each word back.  It stops at the first operation the hardware refuses.
     */
    method ProgramImage(slot: nat, image: Words, ops: nat) returns (programmed: nat)
      requires Valid() && slot < CAPACITY
      requires forall j | RECORD_WORDS * slot <= j < RECORD_WORDS * slot + RECORD_WORDS :: words[j] == ERASED_WORD
      modifies words
      ensures programmed == Min(ops, RECORD_WORDS)
      ensures SlotWords(words[..], slot) == Partial(image, programmed)
      ensures forall j | 0 <= j < SECTOR_WORDS && (j < RECORD_WORDS * slot || j >= RECORD_WORDS * slot + RECORD_WORDS) ::
                words[j] == old(words[j])
    {
      hide And;
      var first := RECORD_WORDS * slot;
      programmed := 0;
      while programmed < RECORD_WORDS
        invariant 0 <= programmed <= RECORD_WORDS && programmed <= ops
        invariant forall j | first <= j < first + programmed :: words[j] == image[j - first]
        invariant forall j | first + programmed <= j < first + RECORD_WORDS :: words[j] == ERASED_WORD
        invariant forall j | 0 <= j < SECTOR_WORDS && (j < first || j >= first + RECORD_WORDS) ::
                    words[j] == old(words[j])
      {
        if programmed == ops { break; }
        AndErasedWord(image[programmed]);
        words[first + programmed] := And(words[first + programmed], image[programmed]);
        assert words[first + programmed] == image[programmed];
        programmed := programmed + 1;
      }
    }

    method WriteSlot(slot: nat, rec: Record, hal: Hal) returns (status: Status)
      requires Valid()
      modifies words
      ensures (Log(), status) == MetadataLog.WriteSlot(old(Log()), slot, rec, hal)
    {
      if slot >= CAPACITY { return InvalidArgument; }
      var erased := SlotIsErased(slot);
      if !erased { return InvalidRecord; }
      if !hal.unlocks { return UnlockError; }
      ErasedSlotWords(words[..], slot);
      hide Image, ImageValid, SlotOf, LogOf;
      ghost var before := words[..];
      var programmed := ProgramImage(slot, Image(rec), hal.ops);
      PartialSlot(rec, programmed);
      OneSlotChanged(before, words[..], slot, Partial(Image(rec), programmed));
      status := if programmed < RECORD_WORDS then ProgramError else if !hal.locks then LockError else Ok;
    }

    method EraseSector(hal: Hal) returns (status: Status)
      requires Valid()
      modifies words
      ensures (Log(), status) == MetadataLog.EraseSector(old(Log()), hal)
    {
      if !hal.unlocks { return UnlockError; }
      if hal.ops == 0 { return EraseError; }
      forall j | 0 <= j < words.Length {
        words[j] := ERASED_WORD;
      }
      ErasedSector(words[..]);
      status := if !hal.locks then LockError else Ok;
    }

    method CompactLatest(latest: Record, plan: Plan) returns (status: Status)
      requires Valid()
      modifies words
      ensures (Log(), status) == Compact(old(Log()), latest, plan)
    {
      if !RecordValid(latest) { return InvalidRecord; }
      if !SafeToCompact(latest.state) { return UnsafeState; }
      status := EraseSector(plan.erase);
      if status != Ok { return; }
      status := WriteSlot(0, latest, plan.rewrite);
    }

    method LoadLatest() returns (status: Status, latest: Option<Record>)
      requires Valid()
      ensures (status, latest) == Load(Log())
    {
      var scan := ScanSlots();
      if scan.latest.Some? { return Ok, scan.latest; }
      return if scan.hasUsed then Corrupt else Empty, None;
    }

    method Append(desired: Record, plan: Plan) returns (status: Status, written: Record)
      requires Valid()
      modifies words
      ensures Appended(Log(), status, written) == MetadataLog.Append(old(Log()), desired, plan)
    {
      written := desired;
      if !PayloadValid(desired) { return InvalidArgument, desired; }
      hide LogOf, Latest, FirstErased, HasUsed, FreeCount, Compact, MetadataLog.WriteSlot;
      var scan := ScanSlots();
      if scan.latest.Some? && scan.latest.value.seqno >= 0xFFFF_FFFE {
        return SequenceExhausted, desired;
      }
      if scan.latest.None? && scan.hasUsed {
        return Corrupt, desired;
      }
      status, written := AppendAfterScan(scan, desired, plan);
    }

    /** The part of append that finds a slot, compacting a full sector first, and writes it. */
    method AppendAfterScan(scan: Scan, desired: Record, plan: Plan) returns (status: Status, written: Record)
      requires Valid() && PayloadValid(desired)
      requires scan.latest == Latest(Log()) && scan.firstErased == FirstErased(Log())
      requires scan.latest.Some? ==> scan.latest.value.seqno < 0xFFFF_FFFE
      requires scan.latest.None? ==> !HasUsed(Log())
      modifies words
      ensures Appended(Log(), status, written) == MetadataLog.Append(old(Log()), desired, plan)
    {
      written := desired;
      if scan.firstErased.None? && scan.latest.None? { return Full, desired; }
      LogOfIsWellFormed(words[..]);
      LatestIsValid(Log());
      hide LogOf, Latest, FirstErased, HasUsed, FreeCount, Compact, MetadataLog.WriteSlot, WellFormed;
      var slot := 1;
      if scan.firstErased.Some? {
        slot := scan.firstErased.value;
      } else {
        status := CompactLatest(scan.latest.value, plan);
        if status != Ok { return; }
      }
      written := desired.(seqno := if scan.latest.Some? then scan.latest.value.seqno + 1 else 1);
      status := WriteSlot(slot, written, plan.write);
    }

    method CompactIfNeeded(required: nat, plan: Plan) returns (status: Status)
      requires Valid()
      modifies words
      ensures (Log(), status) == MetadataLog.CompactIfNeeded(old(Log()), required, plan)
    {
      if required == 0 || required > CAPACITY - 1 { return InvalidArgument; }
      LogOfIsWellFormed(words[..]);
      LatestIsValid(Log());
      var scan := ScanSlots();
      if scan.free >= required {
        return if scan.latest.Some? then Ok else if scan.hasUsed then Corrupt else Empty;
      }
      if scan.latest.None? {
        return if scan.hasUsed then Corrupt else Full;
      }
      status := CompactLatest(scan.latest.value, plan);
    }
  }

  lemma ScanOfNothing()
    ensures Latest([]) == None && !HasUsed([]) && FirstErased([]) == None && FreeCount([]) == 0
  {
  }

  /** What one more slot adds to each result of a scan. */
  lemma ScanExtends(log: Log, slot: nat)
    requires slot < |log|
    ensures Latest(log[..slot + 1]) ==
            if log[slot].Committed? && (Latest(log[..slot]).None? || log[slot].rec.seqno > Latest(log[..slot]).value.seqno)
            then Some(log[slot].rec) else Latest(log[..slot])
    ensures FirstErased(log[..slot + 1]) ==
            if FirstErased(log[..slot]).None? && log[slot].Erased? then Some(slot) else FirstErased(log[..slot])
    ensures FreeCount(log[..slot + 1]) == FreeCount(log[..slot]) + if log[slot].Erased? then 1 else 0
    ensures HasUsed(log[..slot + 1]) <==> HasUsed(log[..slot]) || !log[slot].Erased?
  {
    var shorter, longer := log[..slot], log[..slot + 1];
    assert longer[..slot] == shorter;
    assert longer[slot] == log[slot];
    if HasUsed(shorter) {
      var i :| 0 <= i < slot && !shorter[i].Erased?;
      assert !longer[i].Erased?;
    }
    if HasUsed(longer) && log[slot].Erased? {
      var i :| 0 <= i < slot + 1 && !longer[i].Erased?;
      assert !shorter[i].Erased?;
    }
  }
}
