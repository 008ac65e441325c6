/** Bitwise operations on unbounded non-negative integers, as Python performs them.
    Bits are numbered from the least significant one. */
module Bits {

  /** Whether bit i of a is set. */
  predicate Bit(a: nat, i: nat) {
    if i == 0 then a % 2 == 1 else Bit(a / 2, i - 1)
  }

  /** a << d */
  function Shl(a: nat, d: nat): nat {
    if d == 0 then a else 2 * Shl(a, d - 1)
  }

  /** a | b */
  function Or(a: nat, b: nat): nat {
    if a == 0 then b
    else if b == 0 then a
    else 2 * Or(a / 2, b / 2) + (if a % 2 == 1 || b % 2 == 1 then 1 else 0)
  }

  /** a & b */
  function And(a: nat, b: nat): nat {
    if a == 0 || b == 0 then 0
    else 2 * And(a / 2, b / 2) + (if a % 2 == 1 && b % 2 == 1 then 1 else 0)
  }

  /** a ^ b */
  function Xor(a: nat, b: nat): nat {
    if a == 0 then b
    else if b == 0 then a
    else 2 * Xor(a / 2, b / 2) + (if a % 2 != b % 2 then 1 else 0)
  }

  /** The low w bits of a, that is a & ((1 << w) - 1). */
  function Low(a: nat, w: nat): nat {
    if w == 0 then 0 else 2 * Low(a / 2, w - 1) + a % 2
  }

  lemma {:induction false} BitOfZero(i: nat)
    ensures !Bit(0, i)
  {
    if i > 0 {
      BitOfZero(i - 1);
    }
  }

  lemma {:induction false} BitShl(a: nat, d: nat, i: nat)
    ensures Bit(Shl(a, d), i) <==> i >= d && Bit(a, i - d)
  {
    if d > 0 && i > 0 {
      assert Shl(a, d) / 2 == Shl(a, d - 1);
      BitShl(a, d - 1, i - 1);
    }
  }

  lemma {:induction false} BitOr(a: nat, b: nat, i: nat)
    ensures Bit(Or(a, b), i) <==> Bit(a, i) || Bit(b, i)
  {
    BitOfZero(i);
    if a != 0 && b != 0 && i > 0 {
      assert Or(a, b) / 2 == Or(a / 2, b / 2);
      BitOr(a / 2, b / 2, i - 1);
    }
  }

  lemma BitOne(i: nat)
    ensures Bit(1, i) <==> i == 0
  {
    if i > 0 {
      BitOfZero(i - 1);
    }
  }

  lemma {:induction false} BitLow(a: nat, w: nat, i: nat)
    ensures Bit(Low(a, w), i) <==> i < w && Bit(a, i)
  {
    if w == 0 {
      BitOfZero(i);
    } else if i > 0 {
      assert Low(a, w) / 2 == Low(a / 2, w - 1);
      BitLow(a / 2, w - 1, i - 1);
    }
  }

  lemma {:induction false} LowBound(a: nat, w: nat)
    ensures Low(a, w) < Shl(1, w)
  {
    if w > 0 {
      LowBound(a / 2, w - 1);
    }
  }

  /** Testing a & (1 << d) for truth is testing bit d. */
  lemma {:induction false} AndShlOne(a: nat, d: nat)
    ensures And(a, Shl(1, d)) != 0 <==> Bit(a, d)
  {
    if a == 0 {
      BitOfZero(d);
    } else if d > 0 {
      ShlPositive(d - 1);
      assert Shl(1, d) / 2 == Shl(1, d - 1) && Shl(1, d) % 2 == 0;
      AndShlOne(a / 2, d - 1);
    } else {
      assert And(a, 1) == 2 * And(a / 2, 0) + (if a % 2 == 1 then 1 else 0);
    }
  }

  lemma {:induction false} ShlPositive(d: nat)
    ensures Shl(1, d) >= 1
  {
    if d > 0 {
      ShlPositive(d - 1);
    }
  }

  /** The top bit of an (i+1)-bit number says whether it is in the upper half. */
  lemma {:induction false} TopBit(a: nat, i: nat)
    requires a < Shl(1, i + 1)
    ensures Bit(a, i) <==> a >= Shl(1, i)
  {
    if i > 0 {
      TopBit(a / 2, i - 1);
    }
  }

  lemma {:induction false} BitXor(a: nat, b: nat, i: nat)
    ensures Bit(Xor(a, b), i) <==> Bit(a, i) != Bit(b, i)
  {
    BitOfZero(i);
    if a != 0 && b != 0 && i > 0 {
      assert Xor(a, b) / 2 == Xor(a / 2, b / 2);
      BitXor(a / 2, b / 2, i - 1);
    }
  }

  lemma {:induction false} BitAnd(a: nat, b: nat, i: nat)
    ensures Bit(And(a, b), i) <==> Bit(a, i) && Bit(b, i)
  {
    BitOfZero(i);
    if a != 0 && b != 0 && i > 0 {
      assert And(a, b) / 2 == And(a / 2, b / 2);
      BitAnd(a / 2, b / 2, i - 1);
    }
  }

  /** Combining twice with the same number changes nothing. */
  lemma {:induction false} XorCancels(a: nat, b: nat)
    ensures Xor(Xor(a, b), b) == a
  {
    if a == 0 {
      XorItself(b);
    } else if b != 0 {
      assert Xor(a, b) / 2 == Xor(a / 2, b / 2);
      XorCancels(a / 2, b / 2);
    }
  }

  lemma {:induction false} XorItself(b: nat)
    ensures Xor(b, b) == 0
  {
    if b != 0 {
      XorItself(b / 2);
    }
  }

  lemma {:induction false} XorCommutes(a: nat, b: nat)
    ensures Xor(a, b) == Xor(b, a)
  {
    if a != 0 && b != 0 {
      XorCommutes(a / 2, b / 2);
    }
  }

  /** The exclusive or of two w-bit numbers has w bits. */
  lemma {:induction false} XorBound(a: nat, b: nat, w: nat)
    requires a < Shl(1, w) && b < Shl(1, w)
    ensures Xor(a, b) < Shl(1, w)
  {
    if a != 0 && b != 0 {
      assert w > 0;
      XorBound(a / 2, b / 2, w - 1);
    }
  }
}
