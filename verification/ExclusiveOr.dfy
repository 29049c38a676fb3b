/** Bitwise exclusive or on naturals, bit by bit, and the laws the CRC-16 proof needs. */
module ExclusiveOr {

  function Xor(a: nat, b: nat): nat {
    if a == 0 && b == 0 then 0
    else (if a % 2 != b % 2 then 1 else 0) + 2 * Xor(a / 2, b / 2)
  }

  function Pow2(k: nat): (p: nat)
    ensures p > 0
  {
    if k == 0 then 1 else 2 * Pow2(k - 1)
  }

  /** The lowest bit and the rest of an exclusive or. */
  lemma XorParts(a: nat, b: nat)
    ensures Xor(a, b) % 2 == if a % 2 != b % 2 then 1 else 0
    ensures Xor(a, b) / 2 == Xor(a / 2, b / 2)
  {
  }

  lemma {:induction false} Commutes(a: nat, b: nat)
    ensures Xor(a, b) == Xor(b, a)
    decreases a + b
  {
    if a != 0 || b != 0 {
      Commutes(a / 2, b / 2);
    }
  }

  lemma {:induction false} WithZero(a: nat)
    ensures Xor(a, 0) == a && Xor(0, a) == a
  {
    if a != 0 {
      WithZero(a / 2);
    }
  }

  lemma {:induction false} WithItself(a: nat)
    ensures Xor(a, a) == 0
  {
    if a != 0 {
      WithItself(a / 2);
    }
  }

  lemma {:induction false} OnlyEqualsCancel(a: nat, b: nat)
    requires Xor(a, b) == 0
    ensures a == b
    decreases a + b
  {
    if a != 0 || b != 0 {
      OnlyEqualsCancel(a / 2, b / 2);
    }
  }

  lemma {:induction false} Associates(a: nat, b: nat, c: nat)
    ensures Xor(Xor(a, b), c) == Xor(a, Xor(b, c))
    decreases a + b + c
  {
    if a + b + c > 0 {
      XorParts(a, b);
      XorParts(b, c);
      Associates(a / 2, b / 2, c / 2);
      XorParts(Xor(a, b), c);
      XorParts(a, Xor(b, c));
      HalvesDecide(Xor(Xor(a, b), c), Xor(a, Xor(b, c)));
    }
  }

  lemma HalvesDecide(x: nat, y: nat)
    requires x % 2 == y % 2 && x / 2 == y / 2
    ensures x == y
  {
  }

  /** No bit above those of the operands. */
  lemma {:induction false} Bounded(a: nat, b: nat, k: nat)
    requires a < Pow2(k) && b < Pow2(k)
    ensures Xor(a, b) < Pow2(k)
  {
    if k > 0 {
      Bounded(a / 2, b / 2, k - 1);
    }
  }

  /** Four operands may be paired either way. */
  lemma Exchange(a: nat, b: nat, c: nat, d: nat)
    ensures Xor(Xor(a, b), Xor(c, d)) == Xor(Xor(a, c), Xor(b, d))
  {
    Associates(a, b, Xor(c, d));
    Associates(b, c, d);
    Commutes(b, c);
    Associates(c, b, d);
    Associates(a, c, Xor(b, d));
  }
}
