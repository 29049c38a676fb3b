/** Widths, records and hardware outcomes shared by every component. */
module Types {

  datatype Option<+T> = None | Some(value: T)

  type byte = x: int | 0 <= x < 0x100

  type u16 = x: int | 0 <= x < 0x1_0000

  type u32 = x: int | 0 <= x < 0x1_0000_0000

  const ERASED_WORD: u32 := 0xFFFF_FFFF
  const ERASED_BYTE: byte := 0xFF

  /** A SHA-256 digest, kept as its eight 32-bit words. */
  type Digest = s: seq<u32> | |s| == 8 witness [0, 0, 0, 0, 0, 0, 0, 0]

  const ZERO_DIGEST: Digest := [0, 0, 0, 0, 0, 0, 0, 0]

  // The persistent boot states, with their on-flash numbers.
  const EMPTY: u16 := 0
  const APP_VALID: u16 := 1
  const UPDATE_REQUESTED: u16 := 2
  const ERASING: u16 := 3
  const RECEIVING: u16 := 4
  const VERIFYING: u16 := 5
  const PENDING_BOOT: u16 := 6
  const CONFIRMED: u16 := 7
  const FAILED: u16 := 8

  const APP_MAX_SIZE: u32 := 0xE_0000
  const CHECKPOINT_SIZE: nat := 4096
  const MAX_PAYLOAD: nat := 224

  /**
   * The logical content of a metadata record.  Magic, format version, record
   * CRC and commit marker are the same function of these fields in every valid
   * record, so they appear only in the word image of a record.
   */
  datatype Record = Record(
    state: u16,
    seqno: u32,
    session: u32,
    version: u32,
    size: u32,
    received: u32,
    crc32: u32,
    sha: Digest,
    error: u32)

  function InitRecord(state: u16): Record {
    Record(state, 0, 0, 0, 0, 0, 0, ZERO_DIGEST, 0)
  }

  predicate AllowsBoot(state: u16) {
    state == EMPTY || state == APP_VALID || state == PENDING_BOOT || state == CONFIRMED
  }

  predicate SafeToCompact(state: u16) {
    state == EMPTY || state == APP_VALID || state == PENDING_BOOT || state == CONFIRMED
  }

  /**
   * How the hardware behaves during one flash primitive: whether the controller
   * unlocks, how many elementary operations (words programmed, sectors erased)
   * succeed before one fails, and whether it locks again.  A power cut after k
   * operations leaves the same flash as a failure of operation k + 1; the lost
   * RAM is the reset that follows.
   */
  datatype Hal = Hal(unlocks: bool, ops: nat, locks: bool)

  /** No failure: more operations than any single primitive needs. */
  const HEALTHY: Hal := Hal(true, 64, true)

  function Min(a: nat, b: nat): nat { if a < b then a else b }

  // ---- Slices ----

  lemma TakeAll<T>(s: seq<T>, n: nat)
    requires n == |s|
    ensures s[..n] == s
  {
  }

  lemma SliceOfSlice<T>(s: seq<T>, at: nat, n: nat, i: nat, j: nat)
    requires i <= j <= n && at + n <= |s|
    ensures s[at..at + n][i..j] == s[at + i..at + j]
  {
    var a, b := s[at..at + n][i..j], s[at + i..at + j];
    forall k | 0 <= k < |a|
      ensures a[k] == b[k]
    {
      assert s[at..at + n][i + k] == s[at + i + k];
    }
  }
}
