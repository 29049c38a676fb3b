/**
 * The metadata journal at the level of record slots: what a scan of the sector
 * returns and what append and compaction do to the slots, for every way in which
 * the hardware can stop them.
 */
module MetadataLog {
  import opened Types

  const CAPACITY: nat := 862

  /** Torn: neither erased nor a valid record. */
  datatype Slot = Erased | Torn | Committed(rec: Record)

  type Log = seq<Slot>

  datatype Status =
    | Ok | Empty | InvalidArgument | InvalidRecord | Corrupt | Full | UnsafeState
    | SequenceExhausted | UnlockError | EraseError | ProgramError | LockError

  predicate PayloadValid(r: Record) {
    r.state <= FAILED && r.size <= APP_MAX_SIZE && r.received <= r.size
  }

  predicate RecordValid(r: Record) {
    PayloadValid(r) && 0 < r.seqno < 0xFFFF_FFFF
  }

  /** Every committed slot holds a valid record. */
  predicate WellFormed(log: Log) {
    |log| == CAPACITY &&
    forall i | 0 <= i < |log| && log[i].Committed? :: RecordValid(log[i].rec)
  }

  // ---- What a scan finds ----

  /** The committed record with the highest sequence number, the first one on a tie. */
  function Latest(log: Log): Option<Record> {
    if log == [] then None
    else
      var n := |log| - 1;
      var before := Latest(log[..n]);
      if log[n].Committed? && (before.None? || log[n].rec.seqno > before.value.seqno)
      then Some(log[n].rec)
      else before
  }

  predicate HasUsed(log: Log) {
    exists i :: 0 <= i < |log| && !log[i].Erased?
  }

  function FirstErased(log: Log): (r: Option<nat>)
    ensures r.Some? ==> r.value < |log| && log[r.value].Erased? &&
                        forall i | 0 <= i < r.value :: !log[i].Erased?
    ensures r.None? ==> forall i | 0 <= i < |log| :: !log[i].Erased?
  {
    if log == [] then None
    else
      var n := |log| - 1;
      var before := FirstErased(log[..n]);
      if before.Some? then before else if log[n].Erased? then Some(n) else None
  }

  function FreeCount(log: Log): (r: nat)
    ensures r <= |log|
  {
    if log == [] then 0
    else
      var n := |log| - 1;
      FreeCount(log[..n]) + if log[n].Erased? then 1 else 0
  }

  function Load(log: Log): (Status, Option<Record>) {
    var latest := Latest(log);
    if latest.Some? then (Ok, latest)
    else if HasUsed(log) then (Corrupt, None)
    else (Empty, None)
  }

  // ---- What the hardware leaves behind ----

  const RECORD_WORDS: nat := 19

  /** A slot after the first k words of a record were programmed into it; only a valid record counts later. */
  function CutSlot(rec: Record, k: nat): Slot {
    if k == 0 then Erased else if k < RECORD_WORDS || !RecordValid(rec) then Torn else Committed(rec)
  }

  function WriteSlot(log: Log, slot: nat, rec: Record, hal: Hal): (r: (Log, Status))
    requires |log| == CAPACITY
    ensures |r.0| == CAPACITY
    ensures WellFormed(log) ==> WellFormed(r.0)
  {
    if slot >= CAPACITY then (log, InvalidArgument)
    else if !log[slot].Erased? then (log, InvalidRecord)
    else if !hal.unlocks then (log, UnlockError)
    else
      (log[slot := CutSlot(rec, hal.ops)],
       if hal.ops < RECORD_WORDS then ProgramError
       else if !hal.locks then LockError
       else Ok)
  }

  function ErasedLog(): (r: Log)
    ensures |r| == CAPACITY && forall i | 0 <= i < CAPACITY :: r[i].Erased?
  {
    seq(CAPACITY, (_: nat) => Erased)
  }

  /** Erasing the sector is one elementary operation. */
  function EraseSector(log: Log, hal: Hal): (r: (Log, Status))
    requires |log| == CAPACITY
    ensures |r.0| == CAPACITY
    ensures WellFormed(log) ==> WellFormed(r.0)
  {
    if !hal.unlocks then (log, UnlockError)
    else if hal.ops == 0 then (log, EraseError)
    else (ErasedLog(), if !hal.locks then LockError else Ok)
  }

  datatype Plan = Plan(erase: Hal, rewrite: Hal, write: Hal)

  const NO_FAULTS: Plan := Plan(HEALTHY, HEALTHY, HEALTHY)

  function Compact(log: Log, latest: Record, plan: Plan): (r: (Log, Status))
    requires |log| == CAPACITY
    ensures |r.0| == CAPACITY
    ensures WellFormed(log) ==> WellFormed(r.0)
  {
    if !RecordValid(latest) then (log, InvalidRecord)
    else if !SafeToCompact(latest.state) then (log, UnsafeState)
    else
      var (erased, status) := EraseSector(log, plan.erase);
      if status != Ok then (erased, status)
      else WriteSlot(erased, 0, latest, plan.rewrite)
  }

  datatype Appended = Appended(log: Log, status: Status, written: Record)

  function NextSeqno(log: Log): nat {
    if Latest(log).Some? then Latest(log).value.seqno + 1 else 1
  }

  function Append(log: Log, desired: Record, plan: Plan): (r: Appended)
    requires |log| == CAPACITY
    ensures |r.log| == CAPACITY
    ensures WellFormed(log) ==> WellFormed(r.log)
    ensures r.written == desired.(seqno := r.written.seqno)
  {
    var latest := Latest(log);
    if !PayloadValid(desired) then Appended(log, InvalidArgument, desired)
    else if latest.Some? && latest.value.seqno >= 0xFFFF_FFFE then Appended(log, SequenceExhausted, desired)
    else if latest.None? && HasUsed(log) then Appended(log, Corrupt, desired)
    else
      var prepared := desired.(seqno := if latest.Some? then latest.value.seqno + 1 else 1);
      var first := FirstErased(log);
      if first.None? then
        if latest.None? then Appended(log, Full, desired)
        else
          var (compacted, status) := Compact(log, latest.value, plan);
          if status != Ok then Appended(compacted, status, desired)
          else
            var (written, status') := WriteSlot(compacted, 1, prepared, plan.write);
            Appended(written, status', prepared)
      else
        var (written, status') := WriteSlot(log, first.value, prepared, plan.write);
        Appended(written, status', prepared)
  }

  function CompactIfNeeded(log: Log, required: nat, plan: Plan): (r: (Log, Status))
    requires |log| == CAPACITY
    ensures |r.0| == CAPACITY
    ensures WellFormed(log) ==> WellFormed(r.0)
  {
    if required == 0 || required > CAPACITY - 1 then (log, InvalidArgument)
    else
      var latest := Latest(log);
      if FreeCount(log) >= required then
        (log, if latest.Some? then Ok else if HasUsed(log) then Corrupt else Empty)
      else if latest.None? then (log, if HasUsed(log) then Corrupt else Full)
      else Compact(log, latest.value, plan)
  }

  // ---- Scan lemmas ----

  /** Latest is a committed record and no committed record has a higher sequence number. */
  lemma {:induction false} LatestIsGreatest(log: Log)
    ensures Latest(log).None? <==> forall i | 0 <= i < |log| :: !log[i].Committed?
    ensures Latest(log).Some? ==> exists i :: 0 <= i < |log| && log[i] == Committed(Latest(log).value)
    ensures Latest(log).Some? ==>
              forall i | 0 <= i < |log| && log[i].Committed? :: log[i].rec.seqno <= Latest(log).value.seqno
  {
    if log != [] {
      var n := |log| - 1;
      LatestIsGreatest(log[..n]);
      assert forall i | 0 <= i < n :: log[..n][i] == log[i];
      if Latest(log[..n]).Some? {
        var i :| 0 <= i < n && log[..n][i] == Committed(Latest(log[..n]).value);
        assert log[i] == Committed(Latest(log[..n]).value);
      }
      if log[n].Committed? {
        assert log[n] == Committed(log[n].rec);
      }
    }
  }

  /** On a tie the scan returns the first of the records. */
  lemma {:induction false} LatestIsFirst(log: Log)
    ensures Latest(log).Some? ==>
              exists i ::
                && 0 <= i < |log| && log[i] == Committed(Latest(log).value)
                && forall j | 0 <= j < i && log[j].Committed? :: log[j].rec.seqno < Latest(log).value.seqno
  {
    if log != [] {
      var n := |log| - 1;
      var before := log[..n];
      LatestIsFirst(before);
      LatestIsGreatest(before);
      assert forall i | 0 <= i < n :: before[i] == log[i];
      if log[n].Committed? && Latest(log) != Latest(before) {
        assert log[n] == Committed(Latest(log).value);
      } else if Latest(before).Some? {
        var i :| 0 <= i < n && before[i] == Committed(Latest(before).value) &&
                 forall j | 0 <= j < i && before[j].Committed? :: before[j].rec.seqno < Latest(before).value.seqno;
        assert log[i] == Committed(Latest(log).value);
      }
    }
  }

  lemma {:induction false} LatestAfterTorn(log: Log, slot: nat)
    requires slot < |log| && log[slot].Erased?
    ensures Latest(log[slot := Torn]) == Latest(log)
  {
    var n := |log| - 1;
    if slot < n {
      assert log[slot := Torn][..n] == log[..n][slot := Torn];
      LatestAfterTorn(log[..n], slot);
    } else {
      assert log[slot := Torn][..n] == log[..n];
    }
  }

  lemma {:induction false} LatestAfterCommit(log: Log, slot: nat, rec: Record)
    requires slot < |log| && log[slot].Erased?
    requires Latest(log).Some? ==> Latest(log).value.seqno < rec.seqno
    ensures Latest(log[slot := Committed(rec)]) == Some(rec)
  {
    var log' := log[slot := Committed(rec)];
    LatestIsGreatest(log);
    LatestIsGreatest(log');
    assert log'[slot] == Committed(rec);
    var i :| 0 <= i < |log'| && log'[i] == Committed(Latest(log').value);
    assert i == slot;
  }

  lemma {:induction false} FreeAfterUse(log: Log, slot: nat, used: Slot)
    requires slot < |log| && log[slot].Erased? && !used.Erased?
    ensures FreeCount(log[slot := used]) == FreeCount(log) - 1
  {
    var n := |log| - 1;
    if slot < n {
      assert log[slot := used][..n] == log[..n][slot := used];
      FreeAfterUse(log[..n], slot, used);
    } else {
      assert log[slot := used][..n] == log[..n];
    }
  }

  lemma {:induction false} FreeOfErased(log: Log)
    requires forall i | 0 <= i < |log| :: log[i].Erased?
    ensures FreeCount(log) == |log|
  {
    if log != [] {
      FreeOfErased(log[..|log| - 1]);
    }
  }

  lemma {:induction false} FreeMeansErased(log: Log)
    ensures FreeCount(log) > 0 <==> FirstErased(log).Some?
  {
    if log != [] {
      FreeMeansErased(log[..|log| - 1]);
    }
  }

  lemma LatestOfErased()
    ensures Latest(ErasedLog()) == None
    ensures !HasUsed(ErasedLog())
    ensures FreeCount(ErasedLog()) == CAPACITY
    ensures WellFormed(ErasedLog())
  {
    LatestIsGreatest(ErasedLog());
    FreeOfErased(ErasedLog());
  }

  lemma LatestIsValid(log: Log)
    requires WellFormed(log)
    ensures Latest(log).Some? ==> RecordValid(Latest(log).value)
  {
    LatestIsGreatest(log);
  }

  // ---- Append under faults ----

  lemma WriteOutcome(log: Log, slot: nat, rec: Record, hal: Hal)
    requires WellFormed(log) && RecordValid(rec)
    requires Latest(log).Some? ==> Latest(log).value.seqno < rec.seqno
    ensures var (log', status) := WriteSlot(log, slot, rec, hal);
            && WellFormed(log')
            && FreeCount(log) - 1 <= FreeCount(log') <= FreeCount(log)
            && (status == Ok ==> Latest(log') == Some(rec) && FreeCount(log') == FreeCount(log) - 1)
            && (status != Ok ==> Latest(log') == Latest(log) || (status == LockError && !hal.locks && Latest(log') == Some(rec)))
  {
    if slot < CAPACITY && log[slot].Erased? && hal.unlocks {
      var cut := CutSlot(rec, hal.ops);
      if cut.Erased? {
        assert log[slot := Erased] == log;
      } else {
        FreeAfterUse(log, slot, cut);
        if cut.Torn? {
          LatestAfterTorn(log, slot);
        } else {
          LatestAfterCommit(log, slot, rec);
        }
      }
    }
  }

  /** Compaction either keeps the latest record or, cut after its erase, leaves no record at all. */
  lemma CompactOutcome(log: Log, plan: Plan)
    requires WellFormed(log) && Latest(log).Some?
    ensures var (log', status) := Compact(log, Latest(log).value, plan);
            && WellFormed(log')
            && (status == Ok ==>
                  && SafeToCompact(Latest(log).value.state)
                  && log' == ErasedLog()[0 := Committed(Latest(log).value)]
                  && Latest(log') == Latest(log) && FreeCount(log') == 861)
            && (status != Ok ==>
                  || log' == log
                  || (SafeToCompact(Latest(log).value.state) &&
                      (Latest(log') == Latest(log) || Latest(log') == None)))
  {
    var latest := Latest(log).value;
    LatestIsValid(log);
    LatestOfErased();
    WriteOutcome(ErasedLog(), 0, latest, plan.rewrite);
  }

  /**
   * Whatever interrupts it, an append leaves the old latest record, the new one, or,
   * when it had to compact a state that is safe to compact, none.  Success means the
   * new one and costs exactly one sequence number.
   */
  lemma AppendOutcome(log: Log, desired: Record, plan: Plan)
    requires WellFormed(log)
    ensures var r := Append(log, desired, plan);
            && WellFormed(r.log)
            && (r.status == Ok ==>
                  && Latest(r.log) == Some(r.written)
                  && r.written == desired.(seqno := r.written.seqno)
                  && r.written.seqno == NextSeqno(log))
            && (r.status != Ok ==>
                  || Latest(r.log) == Latest(log)
                  || (r.status == LockError && !plan.write.locks &&
                      Latest(r.log) == Some(desired.(seqno := r.written.seqno)))
                  || (Latest(log).Some? && SafeToCompact(Latest(log).value.state) && Latest(r.log) == None))
  {
    LatestIsValid(log);
    var latest := Latest(log);
    if PayloadValid(desired) && (latest.Some? ==> latest.value.seqno < 0xFFFF_FFFE) &&
       (latest.None? ==> !HasUsed(log)) {
      var prepared := desired.(seqno := if latest.Some? then latest.value.seqno + 1 else 1);
      var first := FirstErased(log);
      if first.Some? {
        WriteOutcome(log, first.value, prepared, plan.write);
      } else if latest.Some? {
        CompactOutcome(log, plan);
        var (compacted, status) := Compact(log, latest.value, plan);
        if status == Ok {
          WriteOutcome(compacted, 1, prepared, plan.write);
        }
      }
    }
  }
}
