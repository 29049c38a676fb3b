/**
 * The serial register behind both CRCs, for a reflected generator p of k bits: it is linear, it
 * shows every error burst of at most k bits, and it is zero exactly after the multiples of its
 * generator polynomial.
 */
module ShiftRegister {
  import opened Types
  import opened ExclusiveOr

  /** One shift of the register. */
  function Shift(p: nat, r: nat): nat { if r % 2 == 1 then Xor(r / 2, p) else r / 2 }

  function Shifts(p: nat, r: nat, n: nat): nat
    decreases n
  {
    if n == 0 then r else Shifts(p, Shift(p, r), n - 1)
  }

  function ByteStep(p: nat, r: nat, b: byte): nat { Shifts(p, Xor(r, b), 8) }

  function Update(p: nat, r: nat, data: seq<byte>): nat
    decreases |data|
  {
    if data == [] then r else Update(p, ByteStep(p, r, data[0]), data[1..])
  }

  /** A generator of degree k: its word has k bits, and the highest of them, the constant term, is set. */
  predicate IsGenerator(p: nat, k: nat) { k >= 8 && Pow2(k - 1) <= p < Pow2(k) }

  // ---- Bounds ----

  lemma ShiftFits(p: nat, k: nat, r: nat)
    requires p < Pow2(k) && r < Pow2(k)
    ensures Shift(p, r) < Pow2(k)
  {
    Bounded(r / 2, p, k);
    hide Xor;
  }

  lemma {:induction false} ShiftsFit(p: nat, k: nat, r: nat, n: nat)
    requires p < Pow2(k) && r < Pow2(k)
    ensures Shifts(p, r, n) < Pow2(k)
    decreases n
  {
    hide Shift, Pow2;
    if n > 0 {
      ShiftFits(p, k, r);
      ShiftsFit(p, k, Shift(p, r), n - 1);
    }
  }

  lemma ByteFits(b: byte, k: nat)
    requires k >= 8
    ensures b < Pow2(k)
  {
    assert Pow2(8) == 0x100;
    PowGrows(8, k);
  }

  lemma ByteStepFits(p: nat, k: nat, r: nat, b: byte)
    requires IsGenerator(p, k) && r < Pow2(k)
    ensures Xor(r, b) < Pow2(k) && ByteStep(p, r, b) < Pow2(k)
  {
    ByteFits(b, k);
    Bounded(r, b, k);
    hide Xor, Pow2;
    ShiftsFit(p, k, Xor(r, b), 8);
  }

  lemma {:induction false} UpdateFits(p: nat, k: nat, r: nat, data: seq<byte>)
    requires IsGenerator(p, k) && r < Pow2(k)
    ensures Update(p, r, data) < Pow2(k)
    decreases |data|
  {
    hide ByteStep, Pow2, IsGenerator;
    if data != [] {
      ByteStepFits(p, k, r, data[0]);
      UpdateFits(p, k, ByteStep(p, r, data[0]), data[1..]);
    }
  }

  /** Feeding a stream in two pieces is feeding it at once. */
  lemma {:induction false} UpdateConcat(p: nat, r: nat, a: seq<byte>, b: seq<byte>)
    ensures Update(p, r, a + b) == Update(p, Update(p, r, a), b)
    decreases |a|
  {
    hide ByteStep;
    if a == [] {
      assert a + b == b;
    } else {
      assert (a + b)[1..] == a[1..] + b;
      UpdateConcat(p, ByteStep(p, r, a[0]), a[1..], b);
    }
  }

  // ---- The register as a linear machine ----

  lemma ShiftIsLinear(p: nat, a: nat, b: nat)
    ensures Shift(p, Xor(a, b)) == Xor(Shift(p, a), Shift(p, b))
  {
    XorParts(a, b);
    Associates(a / 2, b / 2, p);
    Commutes(b / 2, p);
    Associates(a / 2, p, b / 2);
    Exchange(a / 2, p, b / 2, p);
    WithItself(p);
    WithZero(Xor(a / 2, b / 2));
    hide Xor;
  }

  /** The shift loses nothing: only the zero register shifts to zero. */
  lemma ShiftKeepsNonzero(p: nat, k: nat, r: nat)
    requires IsGenerator(p, k) && 0 < r < Pow2(k)
    ensures Shift(p, r) != 0
  {
    if r % 2 == 1 && Shift(p, r) == 0 {
      OnlyEqualsCancel(r / 2, p);
    }
    hide Xor;
  }

  lemma {:induction false} ShiftsKeepNonzero(p: nat, k: nat, r: nat, n: nat)
    requires IsGenerator(p, k) && 0 < r < Pow2(k)
    ensures Shifts(p, r, n) != 0
    decreases n
  {
    hide Shift, Pow2;
    if n > 0 {
      ShiftKeepsNonzero(p, k, r);
      ShiftFits(p, k, r);
      ShiftsKeepNonzero(p, k, Shift(p, r), n - 1);
    }
  }

  lemma {:induction false} ShiftsAdd(p: nat, r: nat, m: nat, n: nat)
    ensures Shifts(p, Shifts(p, r, m), n) == Shifts(p, r, m + n)
    decreases m
  {
    hide Shift;
    if m > 0 {
      ShiftsAdd(p, Shift(p, r), m - 1, n);
    }
  }

  // ---- Bit by bit ----

  function BitValue(bit: bool): nat { if bit then 1 else 0 }

  /** One serial bit into the register. */
  function FeedBit(p: nat, r: nat, bit: bool): nat { Shift(p, Xor(r, BitValue(bit))) }

  function Feed(p: nat, r: nat, bits: seq<bool>): nat
    decreases |bits|
  {
    if bits == [] then r else Feed(p, FeedBit(p, r, bits[0]), bits[1..])
  }

  /** The low k bits of a word, least significant first, as the serial line carries them. */
  function BitsOf(w: nat, k: nat): (bits: seq<bool>)
    ensures |bits| == k
  {
    if k == 0 then [] else [w % 2 == 1] + BitsOf(w / 2, k - 1)
  }

  function WordOf(bits: seq<bool>): (w: nat)
    ensures w < Pow2(|bits|)
  {
    if bits == [] then 0 else BitValue(bits[0]) + 2 * WordOf(bits[1..])
  }

  lemma {:induction false} BitsOfWord(bits: seq<bool>)
    ensures BitsOf(WordOf(bits), |bits|) == bits
  {
    if bits != [] {
      BitsOfWord(bits[1..]);
    }
  }

  /** Four bits at a time. */
  lemma NibbleOf(w: nat, k: nat)
    requires k >= 4
    ensures BitsOf(w, k) == [w % 2 == 1, w / 2 % 2 == 1, w / 4 % 2 == 1, w / 8 % 2 == 1] + BitsOf(w / 16, k - 4)
  {
    assert w / 2 / 2 == w / 4 && w / 4 / 2 == w / 8 && w / 8 / 2 == w / 16;
    assert BitsOf(w / 8, k - 3) == [w / 8 % 2 == 1] + BitsOf(w / 16, k - 4);
    assert BitsOf(w / 4, k - 2) == [w / 4 % 2 == 1] + BitsOf(w / 8, k - 3);
    assert BitsOf(w / 2, k - 1) == [w / 2 % 2 == 1] + BitsOf(w / 4, k - 2);
    assert BitsOf(w, k) == [w % 2 == 1] + ([w / 2 % 2 == 1] + ([w / 4 % 2 == 1] + ([w / 8 % 2 == 1] + BitsOf(w / 16, k - 4))));
  }

  lemma {:induction false} OnesAreSet(k: nat)
    ensures BitsOf(Pow2(k) - 1, k) == seq(k, (_: nat) => true)
  {
    if k > 0 {
      OnesAreSet(k - 1);
    }
  }

  /** Feeding the lowest bit first and adding the rest later is shifting the sum. */
  lemma FeedLowestBit(p: nat, r: nat, w: nat)
    ensures Shift(p, Xor(r, w)) == Xor(FeedBit(p, r, w % 2 == 1), w / 2)
  {
    hide Xor;
    XorParts(r, w);
    XorParts(r, w % 2);
    WithZero(r / 2);
    Associates(r / 2, w / 2, p);
    Commutes(w / 2, p);
    Associates(r / 2, p, w / 2);
  }

  /** The bits of a word above its lowest k. */
  function Above(w: nat, k: nat): nat {
    if k == 0 then w else Above(w / 2, k - 1)
  }

  lemma {:induction false} NothingAbove(w: nat, k: nat)
    requires w < Pow2(k)
    ensures Above(w, k) == 0
  {
    if k > 0 {
      NothingAbove(w / 2, k - 1);
    }
  }

  /** Feeding the bits of a word is adding the word and shifting, but for the bits not yet fed. */
  lemma {:induction false} FeedWord(p: nat, r: nat, w: nat, k: nat)
    ensures Feed(p, r, BitsOf(w, k)) == Xor(Shifts(p, Xor(r, w), k), Above(w, k))
    decreases k
  {
    hide Xor, Shift;
    if k == 0 {
      Associates(r, w, w);
      WithItself(w);
      WithZero(r);
    } else {
      var bit := w % 2 == 1;
      var r' := FeedBit(p, r, bit);
      assert BitsOf(w, k) == [bit] + BitsOf(w / 2, k - 1);
      assert ([bit] + BitsOf(w / 2, k - 1))[1..] == BitsOf(w / 2, k - 1);
      FeedWord(p, r', w / 2, k - 1);
      FeedLowestBit(p, r, w);
      assert Xor(r', w / 2) == Shift(p, Xor(r, w));
    }
  }

  /** Feeding all bits of a word is adding it and shifting. */
  lemma FeedWholeWord(p: nat, r: nat, w: nat, k: nat)
    requires w < Pow2(k)
    ensures Feed(p, r, BitsOf(w, k)) == Shifts(p, Xor(r, w), k)
  {
    FeedWord(p, r, w, k);
    NothingAbove(w, k);
    WithZero(Shifts(p, Xor(r, w), k));
  }

  lemma {:induction false} FeedConcat(p: nat, r: nat, a: seq<bool>, b: seq<bool>)
    ensures Feed(p, r, a + b) == Feed(p, Feed(p, r, a), b)
    decreases |a|
  {
    hide FeedBit;
    if a == [] {
      assert a + b == b;
    } else {
      assert (a + b)[1..] == a[1..] + b;
      FeedConcat(p, FeedBit(p, r, a[0]), a[1..], b);
    }
  }

  /** The serial bits of a frame. */
  function FrameBits(data: seq<byte>): (bits: seq<bool>)
    ensures |bits| == 8 * |data|
  {
    if data == [] then [] else BitsOf(data[0], 8) + FrameBits(data[1..])
  }

  /** The byte loop computes the serial register. */
  lemma {:induction false} UpdateIsFeed(p: nat, r: nat, data: seq<byte>)
    ensures Update(p, r, data) == Feed(p, r, FrameBits(data))
    decreases |data|
  {
    hide Shift, Xor;
    if data != [] {
      var b := data[0];
      ByteFits(b, 8);
      FeedWholeWord(p, r, b, 8);
      FeedConcat(p, r, BitsOf(b, 8), FrameBits(data[1..]));
      UpdateIsFeed(p, ByteStep(p, r, b), data[1..]);
    }
  }

  // ---- Error patterns ----

  function XorBits(a: seq<bool>, b: seq<bool>): (e: seq<bool>)
    requires |a| == |b|
    ensures |e| == |a|
  {
    seq(|a|, (i: nat) requires i < |a| => a[i] != b[i])
  }

  lemma FeedBitIsLinear(p: nat, r: nat, s: nat, a: bool, b: bool)
    ensures FeedBit(p, Xor(r, s), a != b) == Xor(FeedBit(p, r, a), FeedBit(p, s, b))
  {
    var x, y := BitValue(a), BitValue(b);
    assert Xor(x, y) == BitValue(a != b) by { XorParts(x, y); WithZero(0); }
    Exchange(r, s, x, y);
    ShiftIsLinear(p, Xor(r, x), Xor(s, y));
    hide Xor, Shift;
  }

  lemma {:induction false} FeedIsLinear(p: nat, r: nat, s: nat, a: seq<bool>, b: seq<bool>)
    requires |a| == |b|
    ensures Feed(p, Xor(r, s), XorBits(a, b)) == Xor(Feed(p, r, a), Feed(p, s, b))
    decreases |a|
  {
    hide FeedBit, Xor;
    if a != [] {
      FeedBitIsLinear(p, r, s, a[0], b[0]);
      assert XorBits(a, b)[1..] == XorBits(a[1..], b[1..]);
      FeedIsLinear(p, FeedBit(p, r, a[0]), FeedBit(p, s, b[0]), a[1..], b[1..]);
    }
  }

  predicate AllZero(bits: seq<bool>) { forall i | 0 <= i < |bits| :: !bits[i] }

  function Zeros(n: nat): (bits: seq<bool>)
    ensures |bits| == n && AllZero(bits)
  {
    seq(n, (_: nat) => false)
  }

  lemma {:induction false} FeedZeros(p: nat, r: nat, bits: seq<bool>)
    requires AllZero(bits)
    ensures Feed(p, r, bits) == Shifts(p, r, |bits|)
    decreases |bits|
  {
    hide Shift, Xor;
    if bits != [] {
      WithZero(r);
      FeedZeros(p, Shift(p, r), bits[1..]);
    }
  }

  lemma {:induction false} ShiftsOfZero(p: nat, n: nat)
    ensures Shifts(p, 0, n) == 0
  {
    if n > 0 {
      ShiftsOfZero(p, n - 1);
    }
  }

  /** A nonzero pattern of at most k bits leaves a nonzero register. */
  lemma ShortPatternShows(p: nat, k: nat, window: seq<bool>)
    requires IsGenerator(p, k) && |window| <= k && !AllZero(window)
    ensures Feed(p, 0, window) != 0
  {
    hide Xor, Shift, Feed, BitsOf, AllZero;
    var w := WordOf(window);
    PowGrows(|window|, k);
    hide Pow2;
    BitsOfWord(window);
    NonzeroPattern(window);
    hide WordOf;
    FeedWholeWord(p, 0, w, |window|);
    WithZero(w);
    ShiftsKeepNonzero(p, k, w, |window|);
  }

  lemma {:induction false} PowGrows(k: nat, n: nat)
    requires k <= n
    ensures Pow2(k) <= Pow2(n)
  {
    if k < n {
      PowGrows(k, n - 1);
    }
  }

  lemma {:induction false} NonzeroPattern(bits: seq<bool>)
    requires !AllZero(bits)
    ensures WordOf(bits) != 0
  {
    if !bits[0] {
      var i :| 0 <= i < |bits| && bits[i];
      assert bits[1..][i - 1];
      NonzeroPattern(bits[1..]);
    }
  }

  /** Errors confined to k consecutive serial bits from bit s on. */
  predicate IsBurst(e: seq<bool>, s: nat, k: nat) {
    && s < |e| && !AllZero(e)
    && forall i | 0 <= i < |e| && (i < s || i >= s + k) :: !e[i]
  }

  /** Silence before a pattern does not touch the zero register, silence after it does not reset it. */
  lemma PaddedPattern(p: nat, k: nat, before: seq<bool>, window: seq<bool>, after: seq<bool>)
    requires IsGenerator(p, k) && AllZero(before) && AllZero(after) && 0 < Feed(p, 0, window) < Pow2(k)
    ensures Feed(p, 0, before + (window + after)) != 0
  {
    hide Shift, FeedBit, AllZero, Pow2;
    FeedConcat(p, 0, before, window + after);
    FeedConcat(p, 0, window, after);
    FeedZeros(p, 0, before);
    ShiftsOfZero(p, |before|);
    FeedZeros(p, Feed(p, 0, window), after);
    ShiftsKeepNonzero(p, k, Feed(p, 0, window), |after|);
    hide Feed, Shifts;
  }

  lemma {:induction false} FeedFits(p: nat, k: nat, r: nat, bits: seq<bool>)
    requires IsGenerator(p, k) && r < Pow2(k)
    ensures Feed(p, r, bits) < Pow2(k)
    decreases |bits|
  {
    hide Xor, Shift;
    if bits != [] {
      assert 1 < Pow2(k);
      Bounded(r, BitValue(bits[0]), k);
      hide Pow2;
      ShiftFits(p, k, Xor(r, BitValue(bits[0])));
      FeedFits(p, k, FeedBit(p, r, bits[0]), bits[1..]);
    }
  }

  lemma BurstShows(p: nat, k: nat, e: seq<bool>, s: nat)
    requires IsGenerator(p, k) && IsBurst(e, s, k)
    ensures Feed(p, 0, e) != 0
  {
    hide Feed, IsGenerator;
    var end := if s + k < |e| then s + k else |e|;
    var window := e[s..end];
    var i :| 0 <= i < |e| && e[i];
    assert window[i - s];
    ShortPatternShows(p, k, window);
    FeedFits(p, k, 0, window);
    assert forall j | 0 <= j < |e| - end :: e[end..][j] == e[end + j];
    assert AllZero(e[..s]) && AllZero(e[end..]);
    PaddedPattern(p, k, e[..s], window, e[end..]);
    assert e == e[..s] + (window + e[end..]);
  }

  // ---- Multiples of the generator polynomial ----

  /** The product of two polynomials over GF(2), coefficients from the highest power down, by shifting and adding. */
  function Product(q: seq<bool>, g: seq<bool>): (r: seq<bool>)
    requires |g| > 0
    ensures |r| == |q| + |g| - 1
  {
    if q == [] then Zeros(|g| - 1)
    else
      var rest := [false] + Product(q[1..], g);
      if q[0] then XorBits(g + Zeros(|q| - 1), rest) else rest
  }

  /** The polynomial with these coefficients is a multiple of g. */
  ghost predicate MultipleOf(bits: seq<bool>, g: seq<bool>)
    requires |g| > 0
  {
    exists q: seq<bool> | |q| == |bits| :: Product(q, g) == Zeros(|g| - 1) + bits
  }

  /** The generator polynomial of the register: x^k, then the bits of its word. */
  function Generator(p: nat, k: nat): (g: seq<bool>)
    ensures |g| == k + 1
  {
    [true] + BitsOf(p, k)
  }

  lemma GeneratorIsSwallowed(p: nat, k: nat, n: nat)
    requires IsGenerator(p, k)
    ensures Feed(p, 0, Generator(p, k) + Zeros(n)) == 0
  {
    hide BitsOf;
    FeedConcat(p, 0, Generator(p, k), Zeros(n));
    var r := FeedBit(p, 0, true);
    assert r == p by { WithZero(1); WithZero(p); XorParts(0, 1); }
    hide Xor, Shift, FeedBit, Pow2;
    assert Generator(p, k)[1..] == BitsOf(p, k);
    FeedWholeWord(p, p, p, k);
    WithItself(p);
    ShiftsOfZero(p, k);
    FeedZeros(p, 0, Zeros(n));
    ShiftsOfZero(p, n);
  }

  lemma LeadingZero(p: nat, bits: seq<bool>)
    ensures Feed(p, 0, [false] + bits) == Feed(p, 0, bits)
  {
    assert ([false] + bits)[1..] == bits;
    WithZero(0);
  }

  lemma {:induction false} ProductIsSwallowed(p: nat, k: nat, q: seq<bool>)
    requires IsGenerator(p, k)
    ensures Feed(p, 0, Product(q, Generator(p, k))) == 0
    decreases |q|
  {
    hide FeedBit, Xor, Generator, IsGenerator;
    var g := Generator(p, k);
    if q == [] {
      FeedZeros(p, 0, Zeros(k));
      ShiftsOfZero(p, k);
    } else {
      var rest := [false] + Product(q[1..], g);
      ProductIsSwallowed(p, k, q[1..]);
      LeadingZero(p, Product(q[1..], g));
      GeneratorIsSwallowed(p, k, |q| - 1);
      FeedIsLinear(p, 0, 0, g + Zeros(|q| - 1), rest);
      WithZero(0);
    }
  }

  /** Long division: bits that leave no remainder have a quotient. */
  lemma {:induction false} Quotient(p: nat, k: nat, bits: seq<bool>) returns (q: seq<bool>)
    requires IsGenerator(p, k) && |bits| >= k && Feed(p, 0, bits) == 0
    ensures |q| == |bits| - k && Product(q, Generator(p, k)) == bits
    decreases |bits|
  {
    hide FeedBit, Xor, Generator, Feed;
    var g := Generator(p, k);
    if |bits| == k {
      q := [];
      if !AllZero(bits) {
        ShortPatternShows(p, k, bits);
      }
      assert bits == Zeros(k);
    } else {
      hide IsGenerator;
      var first := if bits[0] then g + Zeros(|bits| - k - 1) else Zeros(|bits|);
      var rest := XorBits(first, bits);
      assert Feed(p, 0, first) == 0 by {
        GeneratorIsSwallowed(p, k, |bits| - k - 1);
        FeedZeros(p, 0, Zeros(|bits|));
        ShiftsOfZero(p, |bits|);
      }
      FeedIsLinear(p, 0, 0, first, bits);
      WithZero(0);
      assert !rest[0] by { GeneratorLeads(p, k); }
      assert rest == [false] + rest[1..];
      LeadingZero(p, rest[1..]);
      var q' := Quotient(p, k, rest[1..]);
      q := [bits[0]] + q';
      assert q[1..] == q';
      SubtractTwice(first, bits);
    }
  }

  lemma GeneratorLeads(p: nat, k: nat)
    ensures Generator(p, k)[0]
  {
  }

  lemma SubtractTwice(a: seq<bool>, b: seq<bool>)
    requires |a| == |b|
    ensures XorBits(a, XorBits(a, b)) == b
    ensures AllZero(a) ==> XorBits(a, b) == b
  {
  }

  /** The register returns to zero exactly after the multiples of its generator polynomial. */
  lemma ZeroExactlyAfterMultiples(p: nat, k: nat, bits: seq<bool>)
    requires IsGenerator(p, k)
    ensures Feed(p, 0, bits) == 0 <==> MultipleOf(bits, Generator(p, k))
  {
    hide FeedBit, Xor, Generator, IsGenerator, Feed, Product;
    var padded := Zeros(k) + bits;
    FeedConcat(p, 0, Zeros(k), bits);
    FeedZeros(p, 0, Zeros(k));
    ShiftsOfZero(p, k);
    if Feed(p, 0, bits) == 0 {
      var q := Quotient(p, k, padded);
    } else if MultipleOf(bits, Generator(p, k)) {
      var q: seq<bool> :| |q| == |bits| && Product(q, Generator(p, k)) == padded;
      ProductIsSwallowed(p, k, q);
    }
  }

  /** Bits with the first ones flipped where the start value has ones. */
  function Flipped(bits: seq<bool>, start: seq<bool>): (r: seq<bool>)
    requires |start| <= |bits|
    ensures |r| == |bits|
  {
    seq(|bits|, (i: nat) requires i < |bits| => if i < |start| then bits[i] != start[i] else bits[i])
  }

  /** Starting from a word is starting from zero with the first bits of the stream flipped. */
  lemma StartFlipsFirstBits(p: nat, k: nat, r: nat, bits: seq<bool>)
    requires r < Pow2(k) && k <= |bits|
    ensures Feed(p, r, bits) == Feed(p, 0, Flipped(bits, BitsOf(r, k)))
  {
    hide FeedBit, Xor, Feed, Shifts, Pow2, BitsOf;
    var n := |bits| - k;
    var start := BitsOf(r, k) + Zeros(n);
    assert XorBits(start, bits) == Flipped(bits, BitsOf(r, k));
    FeedIsLinear(p, 0, 0, start, bits);
    FeedConcat(p, 0, BitsOf(r, k), Zeros(n));
    FeedWholeWord(p, 0, r, k);
    WithZero(r);
    FeedZeros(p, Shifts(p, r, k), Zeros(n));
    ShiftsAdd(p, r, k, n);
    FeedIsLinear(p, r, 0, Zeros(|bits|), bits);
    FeedZeros(p, r, Zeros(|bits|));
    SubtractTwice(Zeros(|bits|), bits);
    WithZero(0);
  }

  /** The register shifts to zero over a word exactly if it holds that word. */
  lemma WordMeetsRegister(p: nat, k: nat, r: nat, w: nat)
    requires IsGenerator(p, k) && r < Pow2(k) && w < Pow2(k)
    ensures Shifts(p, Xor(r, w), k) == 0 <==> r == w
  {
    hide Shift;
    if r == w {
      WithItself(r);
      ShiftsOfZero(p, k);
    } else {
      if Xor(r, w) == 0 {
        OnlyEqualsCancel(r, w);
      }
      Bounded(r, w, k);
      ShiftsKeepNonzero(p, k, Xor(r, w), k);
    }
    hide Xor, Shifts, Pow2;
  }

  /** Bytes followed by a word leave the zero register exactly if the word is the register after the bytes. */
  lemma ZeroExactlyAfterRegister(p: nat, k: nat, r: nat, data: seq<byte>, w: nat)
    requires IsGenerator(p, k) && r < Pow2(k) && w < Pow2(k)
    ensures Feed(p, r, FrameBits(data) + BitsOf(w, k)) == 0 <==> Update(p, r, data) == w
  {
    hide BitsOf, FrameBits, Feed, Update, Shifts, Xor, Pow2, IsGenerator;
    FeedConcat(p, r, FrameBits(data), BitsOf(w, k));
    UpdateIsFeed(p, r, data);
    UpdateFits(p, k, r, data);
    FeedWholeWord(p, Update(p, r, data), w, k);
    WordMeetsRegister(p, k, Update(p, r, data), w);
  }

  /**
   * What the byte loop computes, in terms of polynomials: the register that, sent after the data,
   * makes the whole stream, its first bits flipped by the start value, a multiple of the generator.
   */
  lemma RegisterCompletesMultiple(p: nat, k: nat, r: nat, data: seq<byte>, w: nat)
    requires IsGenerator(p, k) && r < Pow2(k) && w < Pow2(k)
    ensures Update(p, r, data) == w <==>
              MultipleOf(Flipped(FrameBits(data) + BitsOf(w, k), BitsOf(r, k)), Generator(p, k))
  {
    hide BitsOf, FrameBits, Feed, Update, Flipped, MultipleOf, Pow2, IsGenerator, Generator;
    var bits := FrameBits(data) + BitsOf(w, k);
    ZeroExactlyAfterRegister(p, k, r, data, w);
    StartFlipsFirstBits(p, k, r, bits);
    ZeroExactlyAfterMultiples(p, k, Flipped(bits, BitsOf(r, k)));
  }
}
