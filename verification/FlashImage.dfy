/** The APP partition as bytes, and what erase, program and verify do to it. */
module FlashImage {
  import opened Types
  import opened Nor

  const WORD: nat := 4
  const SECTOR_SIZE: nat := 0x2_0000
  const SECTOR_COUNT: nat := 7
  const ERASED: byte := ERASED_BYTE

  datatype Status =
    | Ok | InvalidArgument | OutOfRange | AlignmentError | UnlockError
    | EraseError | ProgramError | VerifyError | LockError | InternalError

  predicate IsFlash(flash: seq<byte>) { |flash| == APP_MAX_SIZE }

  predicate AllErased(data: seq<byte>) {
    forall i | 0 <= i < |data| :: data[i] == ERASED
  }

  predicate IsAppRange(offset: u32, length: u32) {
    length != 0 && offset < APP_MAX_SIZE && length <= APP_MAX_SIZE - offset
  }

  function RoundUp(length: nat): (r: nat)
    ensures length <= r < length + WORD && r % WORD == 0
  {
    (length + 3) / WORD * WORD
  }

  function Blank(n: nat): (r: seq<byte>)
    ensures |r| == n && AllErased(r)
  {
    seq(n, (_: nat) => ERASED)
  }

  function SectorsFor(size: nat): nat
    requires size > 0
  {
    1 + (size - 1) / SECTOR_SIZE
  }

  /** Erases the first sectors of the partition; sector by sector, so a failure leaves a prefix erased. */
  function Erase(flash: seq<byte>, size: u32, hal: Hal): (r: (seq<byte>, Status))
    requires IsFlash(flash)
    ensures IsFlash(r.0)
  {
    if size == 0 then (flash, InvalidArgument)
    else if size > APP_MAX_SIZE then (flash, OutOfRange)
    else if !hal.unlocks then (flash, UnlockError)
    else
      var sectors := Min(hal.ops, SectorsFor(size));
      (Blank(sectors * SECTOR_SIZE) + flash[sectors * SECTOR_SIZE..],
       if hal.ops < SectorsFor(size) then EraseError else if !hal.locks then LockError else Ok)
  }

  function ProgramWord(flash: seq<byte>, at: nat, w: seq<byte>): (r: seq<byte>)
    requires |w| == WORD && at + WORD <= |flash|
    ensures |r| == |flash|
  {
    flash[at := And(flash[at], w[0])][at + 1 := And(flash[at + 1], w[1])]
         [at + 2 := And(flash[at + 2], w[2])][at + 3 := And(flash[at + 3], w[3])]
  }

  /** The next four bytes of the data, with erased bytes past its end. */
  function WordAt(data: seq<byte>, from: nat): (w: seq<byte>)
    ensures |w| == WORD
  {
    [ByteAt(data, from), ByteAt(data, from + 1), ByteAt(data, from + 2), ByteAt(data, from + 3)]
  }

  function ByteAt(data: seq<byte>, i: nat): byte {
    if i < |data| then data[i] else ERASED
  }

  predicate ReadsAs(flash: seq<byte>, at: nat, w: seq<byte>)
    requires |w| == WORD && at + WORD <= |flash|
  {
    flash[at] == w[0] && flash[at + 1] == w[1] && flash[at + 2] == w[2] && flash[at + 3] == w[3]
  }

  /**
   * Programs the data from index `from` on, word after word, at `base` + index, stopping
   * at a refused operation or a word that reads back differently.
   */
  function Program(flash: seq<byte>, base: nat, data: seq<byte>, from: nat, ops: nat): (r: (seq<byte>, Status))
    ensures |r.0| == |flash|
    decreases |data| - from
  {
    if from >= |data| then (flash, Ok)
    else if base + from + WORD > |flash| then (flash, InternalError)
    else if ops == 0 then (flash, ProgramError)
    else
      var next := ProgramWord(flash, base + from, WordAt(data, from));
      if !ReadsAs(next, base + from, WordAt(data, from)) then (next, VerifyError)
      else Program(next, base, data, from + WORD, ops - 1)
  }

  function Write(flash: seq<byte>, offset: u32, data: seq<byte>, final: bool, hal: Hal): (r: (seq<byte>, Status))
    requires IsFlash(flash) && |data| < 0x1_0000_0000
    ensures IsFlash(r.0)
  {
    if !IsAppRange(offset, |data|) then (flash, if |data| == 0 then InvalidArgument else OutOfRange)
    else if offset % WORD != 0 then (flash, AlignmentError)
    else if !final && |data| % WORD != 0 then (flash, AlignmentError)
    else if !hal.unlocks then (flash, UnlockError)
    else
      var (programmed, status) := Program(flash, offset, data, 0, hal.ops);
      (programmed, if status == Ok && !hal.locks then LockError else status)
  }

  function Verify(flash: seq<byte>, offset: u32, data: seq<byte>): Status
    requires IsFlash(flash) && |data| < 0x1_0000_0000
  {
    if !IsAppRange(offset, |data|) then if |data| == 0 then InvalidArgument else OutOfRange
    else if flash[offset..offset + |data|] == data then Ok else VerifyError
  }

  // ---- Properties ----

  lemma EraseBlanks(flash: seq<byte>, size: u32, hal: Hal)
    requires IsFlash(flash) && 0 < size <= APP_MAX_SIZE
    requires Erase(flash, size, hal).1 == Ok
    ensures SectorsFor(size) <= SECTOR_COUNT
    ensures size <= RoundUp(size) <= SectorsFor(size) * SECTOR_SIZE
    ensures AllErased(Erase(flash, size, hal).0[..RoundUp(size)])
  {
  }

  /** A write inside the partition is refused for its alignment, and touches nothing, exactly if it does not fall on words. */
  lemma WriteNeedsWords(flash: seq<byte>, offset: u32, data: seq<byte>, final: bool, hal: Hal)
    requires IsFlash(flash) && 0 < |data| && offset + |data| <= 0xE_0000
    ensures var (flash', status) := Write(flash, offset, data, final, hal);
            && (status == AlignmentError <==> offset % 4 != 0 || (!final && |data| % 4 != 0))
            && (status == AlignmentError ==> flash' == flash)
  {
    ProgramStatus(flash, offset, data, 0, hal.ops);
    hide Program;
  }

  lemma {:induction false} ProgramStatus(flash: seq<byte>, base: nat, data: seq<byte>, from: nat, ops: nat)
    ensures Program(flash, base, data, from, ops).1 in {Ok, InternalError, ProgramError, VerifyError}
    decreases |data| - from
  {
    if from < |data| && base + from + WORD <= |flash| && ops > 0 {
      ProgramStatus(ProgramWord(flash, base + from, WordAt(data, from)), base, data, from + WORD, ops - 1);
    }
  }

  /** An erase of whole sectors leaves every byte past the last sector that the image reaches into. */
  lemma EraseIsLocal(flash: seq<byte>, size: u32, hal: Hal, j: nat)
    requires IsFlash(flash) && 0 < size <= APP_MAX_SIZE && j < |flash| && j >= (size + 0x1_FFFF) / 0x2_0000 * 0x2_0000
    ensures Erase(flash, size, hal).0[j] == flash[j]
  {
    assert SectorsFor(size) == (size + 0x1_FFFF) / 0x2_0000;
    assert Min(hal.ops, SectorsFor(size)) * SECTOR_SIZE <= j;
  }

  /** A padded word changes at most the bytes of its data, and stores them over erased flash. */
  lemma ProgramWordIsLocal(flash: seq<byte>, base: nat, data: seq<byte>, from: nat)
    requires from < |data| && base + from + WORD <= |flash|
    ensures var next := ProgramWord(flash, base + from, WordAt(data, from));
            && (forall j | 0 <= j < |flash| && (j < base + from || j >= base + Min(from + WORD, |data|)) :: next[j] == flash[j])
            && ((forall j | base + from <= j < base + from + WORD :: flash[j] == ERASED) ==>
                  ReadsAs(next, base + from, WordAt(data, from)))
            && (ReadsAs(next, base + from, WordAt(data, from)) ==>
                  forall j | from <= j < Min(from + WORD, |data|) :: next[base + j] == data[j])
  {
    forall j | from <= j < from + WORD
      ensures And(ERASED, ByteAt(data, j)) == ByteAt(data, j)
      ensures j >= |data| ==> And(flash[base + j], ByteAt(data, j)) == flash[base + j]
    {
      AndErasedByte(ByteAt(data, j));
      AndErasedByte(flash[base + j]);
    }
    hide And;
  }

  /** Programming touches nothing outside its data range, and success means the range reads as given. */
  lemma {:induction false} ProgramIsLocal(flash: seq<byte>, base: nat, data: seq<byte>, from: nat, ops: nat)
    requires base + |data| <= |flash|
    ensures var (flash', status) := Program(flash, base, data, from, ops);
            && (forall j | 0 <= j < |flash| && (j < base + from || j >= base + |data|) :: flash'[j] == flash[j])
            && (status == Ok ==> forall j | from <= j < |data| :: flash'[base + j] == data[j])
    decreases |data| - from
  {
    hide ProgramWord, ReadsAs, WordAt;
    if from < |data| && base + from + WORD <= |flash| && ops > 0 {
      var next := ProgramWord(flash, base + from, WordAt(data, from));
      ProgramWordIsLocal(flash, base, data, from);
      if ReadsAs(next, base + from, WordAt(data, from)) {
        ProgramIsLocal(next, base, data, from + WORD, ops - 1);
      }
    }
  }

  /** Over erased flash, programming stores exactly the words the hardware allows. */
  lemma {:induction false} ProgramErased(flash: seq<byte>, base: nat, data: seq<byte>, from: nat, ops: nat)
    requires from % WORD == 0 && from <= RoundUp(|data|) && base + RoundUp(|data|) <= |flash|
    requires forall j | base + from <= j < base + RoundUp(|data|) :: flash[j] == ERASED
    ensures var done := Min(from + WORD * ops, |data|);
            var (flash', status) := Program(flash, base, data, from, ops);
            && status == (if from + WORD * ops >= |data| then Ok else ProgramError)
            && (forall j | 0 <= j < |flash| && (j < base + from || j >= base + done) :: flash'[j] == flash[j])
            && (from <= |data| ==> forall j | from <= j < done :: flash'[base + j] == data[j])
    decreases |data| - from
  {
    hide ProgramWord, ReadsAs, WordAt;
    if from < |data| && ops > 0 {
      var next := ProgramWord(flash, base + from, WordAt(data, from));
      ProgramWordIsLocal(flash, base, data, from);
      ProgramErased(next, base, data, from + WORD, ops - 1);
    }
  }
}
