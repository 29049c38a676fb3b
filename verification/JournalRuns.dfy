/** Whole runs of the metadata journal: power cuts in appends, and fault-free use as a register. */
module JournalRuns {
  import opened Types
  import opened MetadataLog

  // ---- Appends cut by power loss ----

  /** An append of `desired` whose k-th word is the last one the power allows. */
  datatype Attempt = Attempt(desired: Record, k: nat)

  function CutAppend(log: Log, a: Attempt): Log
    requires |log| == CAPACITY
  {
    Append(log, a.desired, NO_FAULTS.(write := Hal(true, a.k, true))).log
  }

  function CutAppends(log: Log, attempts: seq<Attempt>): (r: Log)
    requires |log| == CAPACITY
    ensures |r| == CAPACITY
    decreases |attempts|
  {
    if attempts == [] then log else CutAppends(CutAppend(log, attempts[0]), attempts[1..])
  }

  /** What an atomic register holds after the same attempts: a complete, acceptable one replaces it. */
  function Survivor(current: Record, attempts: seq<Attempt>): Record
    decreases |attempts|
  {
    if attempts == [] then current
    else
      var a := attempts[0];
      if a.k < RECORD_WORDS || !PayloadValid(a.desired) || current.seqno >= 0xFFFF_FFFE
      then Survivor(current, attempts[1..])
      else Survivor(a.desired.(seqno := current.seqno + 1), attempts[1..])
  }

  /** One append cut after any k words: the old record for k < 19, the new one for k >= 19. */
  lemma CutAppendIsAtomic(log: Log, a: Attempt)
    requires WellFormed(log) && Latest(log).Some? && FreeCount(log) > 0
    ensures WellFormed(CutAppend(log, a))
    ensures Load(CutAppend(log, a)) == (Ok, Some(Survivor(Latest(log).value, [a])))
    ensures FreeCount(CutAppend(log, a)) >= FreeCount(log) - 1
  {
    var latest := Latest(log).value;
    FreeMeansErased(log);
    LatestIsValid(log);
    assert [a][1..] == [];
    if PayloadValid(a.desired) && latest.seqno < 0xFFFF_FFFE {
      var prepared := a.desired.(seqno := latest.seqno + 1);
      WriteOutcome(log, FirstErased(log).value, prepared, Hal(true, a.k, true));
    }
  }

  /** The same over any number of appends, each cut anywhere or not at all. */
  lemma {:induction false} CutAppendsAreAtomic(log: Log, attempts: seq<Attempt>)
    requires WellFormed(log) && Latest(log).Some? && FreeCount(log) >= |attempts|
    ensures Load(CutAppends(log, attempts)) == (Ok, Some(Survivor(Latest(log).value, attempts)))
    decreases |attempts|
  {
    if attempts != [] {
      var a := attempts[0];
      CutAppendIsAtomic(log, a);
      assert [a][1..] == [];
      CutAppendsAreAtomic(CutAppend(log, a), attempts[1..]);
    }
  }

  // ---- Fault-free runs ----

  datatype Op = Put(desired: Record) | MakeRoom(required: nat)

  function Do(log: Log, op: Op): (Log, Status)
    requires |log| == CAPACITY
  {
    match op
    case Put(desired) =>
      var r := Append(log, desired, NO_FAULTS);
      (r.log, r.status)
    case MakeRoom(required) => CompactIfNeeded(log, required, NO_FAULTS)
  }

  function DoAll(log: Log, ops: seq<Op>): (r: (Log, seq<Status>))
    requires |log| == CAPACITY
    ensures |r.0| == CAPACITY && |r.1| == |ops|
    decreases |ops|
  {
    if ops == [] then (log, [])
    else
      var (log', status) := Do(log, ops[0]);
      var (end, statuses) := DoAll(log', ops[1..]);
      (end, [status] + statuses)
  }

  /** The register the journal stands for: a successful put replaces it, nothing else does. */
  function RegisterAfter(reg: Option<Record>, ops: seq<Op>, statuses: seq<Status>): Option<Record>
    requires |ops| == |statuses|
    decreases |ops|
  {
    if ops == [] then reg
    else RegisterAfter(RegisterStep(reg, ops[0], statuses[0]), ops[1..], statuses[1..])
  }

  function RegisterStep(reg: Option<Record>, op: Op, status: Status): Option<Record> {
    if op.Put? && status == Ok then Some(op.desired.(seqno := Next(reg))) else reg
  }

  function Next(reg: Option<Record>): u32 {
    if reg.None? then 1 else (reg.value.seqno + 1) % 0x1_0000_0000
  }

  function Seqno(reg: Option<Record>): u32 {
    if reg.None? then 0 else reg.value.seqno
  }

  function Successes(ops: seq<Op>, statuses: seq<Status>): nat
    requires |ops| == |statuses|
    decreases |ops|
  {
    if ops == [] then 0
    else (if ops[0].Put? && statuses[0] == Ok then 1 else 0) + Successes(ops[1..], statuses[1..])
  }

  /** The first `used` slots hold records of strictly increasing sequence numbers; the rest is erased. */
  ghost predicate Tidy(log: Log, used: nat) {
    && |log| == CAPACITY && used <= CAPACITY
    && (forall i | 0 <= i < used :: log[i].Committed? && RecordValid(log[i].rec))
    && (forall i | used <= i < CAPACITY :: log[i].Erased?)
    && (forall i, j | 0 <= i < j < used :: log[i].rec.seqno < log[j].rec.seqno)
  }

  lemma TidyScan(log: Log, used: nat)
    requires Tidy(log, used)
    ensures WellFormed(log)
    ensures Latest(log) == if used == 0 then None else Some(log[used - 1].rec)
    ensures FirstErased(log) == if used == CAPACITY then None else Some(used)
    ensures HasUsed(log) <==> used > 0
    ensures FreeCount(log) == CAPACITY - used
  {
    LatestIsGreatest(log);
    if used > 0 {
      assert log[used - 1].Committed?;
      var i :| 0 <= i < |log| && log[i] == Committed(Latest(log).value);
    }
    var first := FirstErased(log);
    if first.Some? {
      assert used < CAPACITY ==> log[used].Erased?;
    }
    TidyFree(log, used);
  }

  lemma {:induction false} TidyFree(log: Log, used: nat)
    requires used <= |log|
    requires forall i | 0 <= i < used :: !log[i].Erased?
    requires forall i | used <= i < |log| :: log[i].Erased?
    ensures FreeCount(log) == |log| - used
  {
    if log != [] {
      var n := |log| - 1;
      TidyFree(log[..n], if used <= n then used else n);
    }
  }

  /** When a fault-free put succeeds: valid payload, a sequence number left, and room or a compactable state. */
  predicate PutSucceeds(reg: Option<Record>, room: bool, desired: Record) {
    && PayloadValid(desired)
    && (reg.Some? ==> reg.value.seqno < 0xFFFF_FFFE)
    && (room || (reg.Some? && SafeToCompact(reg.value.state)))
  }

  lemma TidyExtends(log: Log, used: nat, rec: Record)
    requires Tidy(log, used) && used < CAPACITY && RecordValid(rec)
    requires Latest(log).Some? ==> Latest(log).value.seqno < rec.seqno
    ensures Tidy(log[used := Committed(rec)], used + 1)
  {
    TidyScan(log, used);
    hide Latest, FirstErased, FreeCount, HasUsed, RecordValid;
  }

  lemma TidyCompacted(rec: Record, next: Record)
    requires RecordValid(rec) && RecordValid(next) && rec.seqno < next.seqno
    ensures Tidy(ErasedLog()[0 := Committed(rec)][1 := Committed(next)], 2)
  {
  }

  lemma PutRefinesRegister(log: Log, used: nat, desired: Record) returns (used': nat)
    requires Tidy(log, used)
    ensures var (log', status) := Do(log, Put(desired));
            && Tidy(log', used')
            && (status == Ok <==> PutSucceeds(Latest(log), used < CAPACITY, desired))
            && (status != Ok ==> log' == log)
            && (status == Ok ==> Latest(log') == Some(desired.(seqno := Next(Latest(log)))))
  {
    TidyScan(log, used);
    LatestIsValid(log);
    assert |log| == CAPACITY && used <= CAPACITY;
    used' := used;
    var (log', status) := Do(log, Put(desired));
    hide Latest, FirstErased, FreeCount, HasUsed, Tidy, WellFormed;
    AppendOutcome(log, desired, NO_FAULTS);
    if status == Ok {
      var rec := desired.(seqno := NextSeqno(log));
      if used < CAPACITY {
        TidyExtends(log, used, rec);
        used' := used + 1;
      } else {
        CompactOutcome(log, NO_FAULTS);
        TidyCompacted(Latest(log).value, rec);
        used' := 2;
      }
    }
  }

  lemma MakeRoomRefinesRegister(log: Log, used: nat, required: nat) returns (used': nat)
    requires Tidy(log, used)
    ensures var (log', status) := Do(log, MakeRoom(required));
            && Tidy(log', used')
            && Latest(log') == Latest(log)
            && ((status == Ok || status == Empty) && required > 0 ==> FreeCount(log') >= required)
  {
    TidyScan(log, used);
    used' := used;
    var (log', status) := Do(log, MakeRoom(required));
    if used > 0 {
      CompactOutcome(log, NO_FAULTS);
      if log' != log {
        used' := 1;
      }
    }
  }

  lemma StepRefinesRegister(log: Log, used: nat, op: Op) returns (used': nat)
    requires Tidy(log, used)
    ensures var (log', status) := Do(log, op);
            Tidy(log', used') && Latest(log') == RegisterStep(Latest(log), op, status)
  {
    hide Do, Latest, Tidy, PutSucceeds, FreeCount;
    match op {
      case Put(desired) => used' := PutRefinesRegister(log, used, desired);
      case MakeRoom(required) => used' := MakeRoomRefinesRegister(log, used, required);
    }
  }

  lemma SeqnoAfterStep(log: Log, used: nat, reg: Option<Record>, op: Op, status: Status)
    requires Tidy(log, used) && Latest(log) == RegisterStep(reg, op, status)
    ensures Seqno(Latest(log)) == Seqno(reg) + Successes([op], [status])
  {
    TidyScan(log, used);
    LatestIsValid(log);
    hide Latest, Tidy;
  }

  /**
   * Over every run of puts and compactions the journal is the register of its
   * successful puts, its used slots stay an ordered prefix, and the sequence
   * number counts the successes exactly, across compactions.
   */
  lemma {:induction false} JournalRefinesRegister(log: Log, used: nat, ops: seq<Op>) returns (used': nat)
    requires Tidy(log, used)
    ensures var (log', statuses) := DoAll(log, ops);
            && Tidy(log', used')
            && Latest(log') == RegisterAfter(Latest(log), ops, statuses)
            && Seqno(Latest(log')) == Seqno(Latest(log)) + Successes(ops, statuses)
    decreases |ops|
  {
    assert |log| == CAPACITY;
    hide Do, Latest, Tidy;
    used' := used;
    if ops != [] {
      var (log1, status) := Do(log, ops[0]);
      var used1 := StepRefinesRegister(log, used, ops[0]);
      SeqnoAfterStep(log1, used1, Latest(log), ops[0], status);
      used' := JournalRefinesRegister(log1, used1, ops[1..]);
      var (log2, statuses) := DoAll(log1, ops[1..]);
      var all := [status] + statuses;
      assert all[1..] == statuses;
      assert DoAll(log, ops) == (log2, all);
    }
  }
}
