/** The flash driver of the APP partition: sector erase, word-packed programming, byte comparison. */
module FlashIf {
  import opened Types
  import opened Nor
  import F = FlashImage

  /** A 32-bit flash word as it lies in memory, least significant byte first. */
  type Word = w: seq<byte> | |w| == F.WORD witness [0, 0, 0, 0]

  class AppFlash {
    const bytes: array<byte>

    ghost predicate Valid() { bytes.Length == APP_MAX_SIZE }

    constructor (partition: array<byte>)
      requires partition.Length == APP_MAX_SIZE
      ensures Valid() && bytes == partition
    {
      bytes := partition;
    }

    method Erase(size: u32, hal: Hal) returns (status: F.Status)
      requires Valid()
      modifies bytes
      ensures (bytes[..], status) == F.Erase(old(bytes[..]), size, hal)
    {
      if size == 0 { return F.InvalidArgument; }
      if size > APP_MAX_SIZE { return F.OutOfRange; }
      var sectors := 1 + (size - 1) / F.SECTOR_SIZE;
      assert sectors <= F.SECTOR_COUNT;
      if !hal.unlocks { return F.UnlockError; }
      var sector := 0;
      status := F.Ok;
      while sector < sectors
        invariant 0 <= sector <= sectors && sector <= hal.ops
        invariant status == F.Ok
        invariant forall j | 0 <= j < sector * F.SECTOR_SIZE :: bytes[j] == F.ERASED
        invariant forall j | sector * F.SECTOR_SIZE <= j < bytes.Length :: bytes[j] == old(bytes[j])
      {
        if sector == hal.ops {
          status := F.EraseError;
          break;
        }
        forall j | sector * F.SECTOR_SIZE <= j < (sector + 1) * F.SECTOR_SIZE {
          bytes[j] := F.ERASED;
        }
        sector := sector + 1;
      }
      assert bytes[..] == F.Blank(sector * F.SECTOR_SIZE) + old(bytes[..])[sector * F.SECTOR_SIZE..];
      if !hal.locks && status == F.Ok { status := F.LockError; }
    }

    /** One hardware word program: the four bytes are ANDed with the word. */
    method ProgramWord(at: nat, word: Word)
      requires Valid() && at + F.WORD <= bytes.Length
      modifies bytes
      ensures bytes[..] == F.ProgramWord(old(bytes[..]), at, word)
    {
      hide And;
      bytes[at] := And(bytes[at], word[0]);
      bytes[at + 1] := And(bytes[at + 1], word[1]);
      bytes[at + 2] := And(bytes[at + 2], word[2]);
      bytes[at + 3] := And(bytes[at + 3], word[3]);
    }

    method ReadWord(at: nat) returns (w: Word)
      requires Valid() && at + F.WORD <= bytes.Length
      ensures w == bytes[at..at + F.WORD]
    {
      w := [bytes[at], bytes[at + 1], bytes[at + 2], bytes[at + 3]];
    }

    /** The inner packing loop: the next data bytes over an erased word. */
    method PackWord(data: seq<byte>, start: nat) returns (word: Word, next: nat)
      requires start < |data|
      ensures next == start + Min(F.WORD, |data| - start)
      ensures word == F.WordAt(data, start)
    {
      word := [F.ERASED, F.ERASED, F.ERASED, F.ERASED];
      next := start;
      var byteIndex := 0;
      while byteIndex < F.WORD && next < |data|
        invariant 0 <= byteIndex <= F.WORD && next == start + byteIndex && next <= |data|
        invariant forall k | 0 <= k < F.WORD :: word[k] == if k < byteIndex then data[start + k] else F.ERASED
      {
        word := word[byteIndex := data[next]];
        byteIndex, next := byteIndex + 1, next + 1;
      }
    }

    method Write(offset: u32, data: seq<byte>, final: bool, hal: Hal) returns (status: F.Status)
      requires Valid() && |data| < 0x1_0000_0000
      modifies bytes
      ensures (bytes[..], status) == F.Write(old(bytes[..]), offset, data, final, hal)
    {
      if !F.IsAppRange(offset, |data|) {
        return if |data| == 0 then F.InvalidArgument else F.OutOfRange;
      }
      if offset % F.WORD != 0 { return F.AlignmentError; }
      if !final && |data| % F.WORD != 0 { return F.AlignmentError; }
      var programmedLength := (|data| + 3) / F.WORD * F.WORD;
      assert programmedLength <= APP_MAX_SIZE - offset;
      if !hal.unlocks { return F.UnlockError; }
      status := ProgramAll(offset, data, hal.ops);
      if !hal.locks && status == F.Ok { status := F.LockError; }
    }

    method ProgramAll(offset: nat, data: seq<byte>, ops: nat) returns (status: F.Status)
      requires Valid() && offset % F.WORD == 0 && offset + |data| <= bytes.Length
      modifies bytes
      ensures (bytes[..], status) == F.Program(old(bytes[..]), offset, data, 0, ops)
    {
      hide F.ProgramWord, F.WordAt, F.ReadsAs;
      var dataIndex, left := 0, ops;
      while dataIndex < |data|
        invariant 0 <= dataIndex && dataIndex % F.WORD == 0 && left >= 0
        invariant F.Program(bytes[..], offset, data, dataIndex, left) == F.Program(old(bytes[..]), offset, data, 0, ops)
      {
        status := ProgramNext(offset + dataIndex, data, dataIndex, left);
        if status != F.Ok { return; }
        dataIndex, left := dataIndex + F.WORD, left - 1;
      }
      return F.Ok;
    }

    /** Packs, programs and reads back one word. */
    method ProgramNext(at: nat, data: seq<byte>, start: nat, left: nat) returns (status: F.Status)
      requires Valid() && start < |data| && at + F.WORD <= bytes.Length
      modifies bytes
      ensures var w := F.WordAt(data, start);
              if left == 0 then status == F.ProgramError && bytes[..] == old(bytes[..])
              else && bytes[..] == F.ProgramWord(old(bytes[..]), at, w)
                   && status == if F.ReadsAs(bytes[..], at, w) then F.Ok else F.VerifyError
    {
      var word, next := PackWord(data, start);
      hide F.ProgramWord, F.WordAt;
      if left == 0 { return F.ProgramError; }
      ProgramWord(at, word);
      var readBack := ReadWord(at);
      status := if readBack == word then F.Ok else F.VerifyError;
    }

    method Verify(offset: u32, data: seq<byte>) returns (status: F.Status)
      requires Valid() && |data| < 0x1_0000_0000
      ensures status == F.Verify(bytes[..], offset, data)
    {
      if !F.IsAppRange(offset, |data|) {
        return if |data| == 0 then F.InvalidArgument else F.OutOfRange;
      }
      var index := 0;
      while index < |data|
        invariant 0 <= index <= |data|
        invariant bytes[offset..offset + index] == data[..index]
      {
        if bytes[offset + index] != data[index] {
          assert bytes[offset..offset + |data|][index] != data[index];
          return F.VerifyError;
        }
        index := index + 1;
      }
      return F.Ok;
    }

    /** True when every byte of the range still reads as erased. */
    method RangeIsErased(offset: nat, length: nat) returns (erased: bool)
      requires Valid() && offset + length <= bytes.Length
      ensures erased <==> F.AllErased(bytes[offset..offset + length])
    {
      var index := 0;
      while index < length
        invariant 0 <= index <= length
        invariant F.AllErased(bytes[offset..offset + index])
      {
        if bytes[offset + index] != F.ERASED {
          assert bytes[offset..offset + length][index] != F.ERASED;
          return false;
        }
        index := index + 1;
      }
      return true;
    }
  }
}
