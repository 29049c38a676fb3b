/** NOR flash cells: erasing sets every bit, programming clears bits. */
module Nor {
  import opened Types

  /** Programming NOR flash only clears bits. */
  function And(a: nat, b: nat): (r: nat)
    ensures r <= a && r <= b
  {
    if a == 0 || b == 0 then 0
    else (if a % 2 == 1 && b % 2 == 1 then 1 else 0) + 2 * And(a / 2, b / 2)
  }

  /** 2^k - 1. */
  function Ones(k: nat): nat { if k == 0 then 0 else 2 * Ones(k - 1) + 1 }

  lemma {:induction false} AndOnes(k: nat, w: nat)
    requires w <= Ones(k)
    ensures And(Ones(k), w) == w && And(w, Ones(k)) == w
  {
    if k > 0 && w > 0 {
      AndOnes(k - 1, w / 2);
    }
  }

  lemma OnesEight(k: nat)
    ensures Ones(k + 8) == 256 * Ones(k) + 255
  {
    assert Ones(k + 4) == 16 * Ones(k) + 15 by {
      assert Ones(k + 2) == 4 * Ones(k) + 3;
    }
    assert Ones(k + 6) == 4 * Ones(k + 4) + 3;
  }

  lemma ErasedIsOnes()
    ensures Ones(32) == ERASED_WORD
  {
    OnesEight(0);
    OnesEight(8);
    OnesEight(16);
    OnesEight(24);
    hide Ones;
    assert Ones(0) == 0;
  }

  /** Programming an erased word stores the word. */
  lemma AndErasedWord(w: u32)
    ensures And(ERASED_WORD, w) == w
  {
    hide And, Ones;
    ErasedIsOnes();
    AndOnes(32, w);
  }

  /** Programming an erased byte stores it, and programming an erased value changes nothing. */
  lemma AndErasedByte(b: byte)
    ensures And(ERASED_BYTE, b) == b && And(b, ERASED_BYTE) == b
  {
    OnesEight(0);
    assert Ones(0) == 0;
    hide And, Ones;
    AndOnes(8, b);
  }

  lemma {:induction false} AndSelf(a: nat)
    ensures And(a, a) == a
  {
    if a > 0 {
      AndSelf(a / 2);
    }
  }
}
