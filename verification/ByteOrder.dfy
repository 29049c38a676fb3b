/** Little-endian fields in byte buffers. */
module ByteOrder {
  import opened Types

  function Read16(data: seq<byte>, at: nat): u16
    requires at + 2 <= |data|
  {
    data[at] as int + 0x100 * data[at + 1] as int
  }

  function Read32(data: seq<byte>, at: nat): u32
    requires at + 4 <= |data|
  {
    data[at] as int + 0x100 * data[at + 1] as int + 0x1_0000 * data[at + 2] as int + 0x100_0000 * data[at + 3] as int
  }

  function Write16(v: u16): (r: seq<byte>)
    ensures |r| == 2
  {
    [v % 0x100, v / 0x100]
  }

  /** Byte k of a word, counted from the least significant one. */
  function ByteOf(v: u32, k: nat): byte
    requires k < 4
  {
    if k == 0 then v % 0x100
    else if k == 1 then v / 0x100 % 0x100
    else if k == 2 then v / 0x1_0000 % 0x100
    else v / 0x100_0000
  }

  function Write32(v: u32): (r: seq<byte>)
    ensures |r| == 4
  {
    [ByteOf(v, 0), ByteOf(v, 1), ByteOf(v, 2), ByteOf(v, 3)]
  }

  /** A sequence of words, each least significant byte first. */
  function Words(ws: seq<u32>): (r: seq<byte>)
    ensures |r| == 4 * |ws|
  {
    seq(4 * |ws|, (i: nat) requires i < 4 * |ws| => ByteOf(ws[i / 4], i % 4))
  }

  lemma SplitWord(v: u32)
    ensures v == ByteOf(v, 0) + 0x100 * ByteOf(v, 1) + 0x1_0000 * ByteOf(v, 2) + 0x100_0000 * ByteOf(v, 3)
  {
    assert v / 0x1_0000 == v / 0x100 / 0x100;
    assert v / 0x100_0000 == v / 0x1_0000 / 0x100;
  }

  lemma JoinBytes(b0: byte, b1: byte, b2: byte, b3: byte)
    ensures var v := b0 + 0x100 * b1 + 0x1_0000 * b2 + 0x100_0000 * b3;
            ByteOf(v, 0) == b0 && ByteOf(v, 1) == b1 && ByteOf(v, 2) == b2 && ByteOf(v, 3) == b3
  {
    var v := b0 + 0x100 * b1 + 0x1_0000 * b2 + 0x100_0000 * b3;
    assert v / 0x100 == b1 + 0x100 * b2 + 0x1_0000 * b3;
    assert v / 0x1_0000 == b2 + 0x100 * b3;
    assert v / 0x100_0000 == b3;
  }

  lemma ReadWord(ws: seq<u32>, k: nat)
    requires k < |ws|
    ensures Read32(Words(ws), 4 * k) == ws[k]
  {
    SplitWord(ws[k]);
    hide ByteOf;
    assert Words(ws)[4 * k] == ByteOf(ws[k], 0);
    assert Words(ws)[4 * k + 1] == ByteOf(ws[k], 1);
    assert Words(ws)[4 * k + 2] == ByteOf(ws[k], 2);
    assert Words(ws)[4 * k + 3] == ByteOf(ws[k], 3);
  }

  lemma Read16Write16(pre: seq<byte>, v: u16, post: seq<byte>)
    ensures Read16(pre + Write16(v) + post, |pre|) == v
  {
    var data := pre + Write16(v) + post;
    assert data[|pre|] == v % 0x100 && data[|pre| + 1] == v / 0x100;
  }

  lemma Read32Write32(pre: seq<byte>, v: u32, post: seq<byte>)
    ensures Read32(pre + Write32(v) + post, |pre|) == v
  {
    SplitWord(v);
    hide ByteOf;
    var data := pre + Write32(v) + post;
    assert data[|pre|] == ByteOf(v, 0) && data[|pre| + 1] == ByteOf(v, 1);
    assert data[|pre| + 2] == ByteOf(v, 2) && data[|pre| + 3] == ByteOf(v, 3);
  }

  /** Four bytes are exactly what their word writes. */
  lemma Write32Read32(data: seq<byte>, at: nat)
    requires at + 4 <= |data|
    ensures Write32(Read32(data, at)) == data[at..at + 4]
  {
    JoinBytes(data[at], data[at + 1], data[at + 2], data[at + 3]);
    hide ByteOf;
  }

  lemma Write16Read16(data: seq<byte>, at: nat)
    requires at + 2 <= |data|
    ensures Write16(Read16(data, at)) == data[at..at + 2]
  {
  }

  // ---- The buffer routines ----

  method WriteLe16(data: array<byte>, at: nat, v: u16)
    requires at + 2 <= data.Length
    modifies data
    ensures data[at..at + 2] == Write16(v)
    ensures forall j | 0 <= j < data.Length && (j < at || j >= at + 2) :: data[j] == old(data[j])
  {
    data[at] := v % 0x100;
    data[at + 1] := v / 0x100 % 0x100;
  }

  method WriteLe32(data: array<byte>, at: nat, v: u32)
    requires at + 4 <= data.Length
    modifies data
    ensures data[at..at + 4] == Write32(v)
    ensures forall j | 0 <= j < data.Length && (j < at || j >= at + 4) :: data[j] == old(data[j])
  {
    data[at] := v % 0x100;
    data[at + 1] := v / 0x100 % 0x100;
    data[at + 2] := v / 0x1_0000 % 0x100;
    data[at + 3] := v / 0x100_0000 % 0x100;
  }
}
