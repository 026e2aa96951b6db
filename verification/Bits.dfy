/** Bitwise operators on unbounded natural numbers, as Python's integers have them. */
module Bits {

  function Pow2(n: nat): (p: nat)
    ensures p >= 1
  {
    if n == 0 then 1 else 2 * Pow2(n - 1)
  }

  /** Bit `i` of `n`, counted from the least significant one. */
  predicate Bit(n: nat, i: nat)
    decreases i
  {
    if i == 0 then n % 2 == 1 else Bit(n / 2, i - 1)
  }

  function Or(a: nat, b: nat): nat
    decreases a + b
  {
    if a == 0 then b
    else if b == 0 then a
    else 2 * Or(a / 2, b / 2) + (if a % 2 == 1 || b % 2 == 1 then 1 else 0)
  }

  function And(a: nat, b: nat): nat
    decreases a
  {
    if a == 0 then 0
    else 2 * And(a / 2, b / 2) + (if a % 2 == 1 && b % 2 == 1 then 1 else 0)
  }

  /** `n << d`. */
  function Shl(n: nat, d: nat): (r: nat)
    ensures r >= n
  {
    if d == 0 then n else 2 * Shl(n, d - 1)
  }

  lemma {:induction false} BitZero(i: nat)
    ensures !Bit(0, i)
  {
    if i == 0 {
    } else {
      BitZero(i - 1);
    }
  }

  lemma {:induction false} BitOr(a: nat, b: nat, i: nat)
    ensures Bit(Or(a, b), i) <==> Bit(a, i) || Bit(b, i)
    decreases i
  {
    if a == 0 || b == 0 {
      BitZero(i);
    } else if i > 0 {
      BitOr(a / 2, b / 2, i - 1);
    }
  }

  lemma {:induction false} BitAnd(a: nat, b: nat, i: nat)
    ensures Bit(And(a, b), i) <==> Bit(a, i) && Bit(b, i)
    decreases i
  {
    if a == 0 {
      BitZero(i);
    } else if i > 0 {
      BitAnd(a / 2, b / 2, i - 1);
    }
  }

  lemma {:induction false} BitShl(n: nat, d: nat, i: nat)
    ensures Bit(Shl(n, d), i) <==> i >= d && Bit(n, i - d)
    decreases d
  {
    if d > 0 && i > 0 {
      BitShl(n, d - 1, i - 1);
    }
  }

  /** `1 << d` has exactly one bit set. */
  lemma BitOne(d: nat, i: nat)
    ensures Bit(Shl(1, d), i) <==> i == d
  {
    BitShl(1, d, i);
    if i > d {
      BitZero(i - d - 1);
    }
  }

  /** `(1 << w) - 1` is the mask of the `w` lowest bits. */
  lemma {:induction false} BitMask(w: nat, i: nat)
    ensures Shl(1, w) == Pow2(w)
    ensures Bit(Pow2(w) - 1, i) <==> i < w
    decreases w
  {
    if w == 0 {
      BitZero(i);
    } else {
      BitMask(w - 1, if i == 0 then 0 else i - 1);
      assert (Pow2(w) - 1) / 2 == Pow2(w - 1) - 1;
    }
  }

  lemma AndHalves(a: nat, b: nat)
    requires a > 0
    ensures And(a, b) <= 2 * And(a / 2, b / 2) + 1
  {
  }

  lemma {:induction false} AndMaskBound(a: nat, w: nat)
    ensures And(a, Pow2(w) - 1) < Pow2(w)
    decreases w
  {
    hide And;
    if w == 0 {
      AndZero(a);
    } else if a == 0 {
      AndComm0(Pow2(w) - 1);
    } else {
      assert (Pow2(w) - 1) / 2 == Pow2(w - 1) - 1;
      AndHalves(a, Pow2(w) - 1);
      AndMaskBound(a / 2, w - 1);
    }
  }

  lemma AndComm0(b: nat)
    ensures And(0, b) == 0
  {
  }

  lemma {:induction false} AndZero(a: nat)
    ensures And(a, 0) == 0
  {
    if a == 0 {
    } else {
      AndZero(a / 2);
    }
  }

  lemma {:induction false} OrBound(a: nat, b: nat, w: nat)
    requires a < Pow2(w) && b < Pow2(w)
    ensures Or(a, b) < Pow2(w)
    decreases w
  {
    if a > 0 && b > 0 {
      OrBound(a / 2, b / 2, w - 1);
    }
  }

  lemma {:induction false} ShlBound(d: nat, w: nat)
    requires d < w
    ensures Shl(1, d) < Pow2(w)
    decreases d
  {
    if d == 0 {
    } else {
      ShlBound(d - 1, w - 1);
    }
  }

  /** `a & (1 << d)` is non-zero exactly when bit `d` of `a` is set. */
  lemma {:induction false} AndOneNonZero(a: nat, d: nat)
    ensures And(a, Shl(1, d)) != 0 <==> Bit(a, d)
    decreases d
  {
    if a == 0 {
      BitZero(d);
    } else if d == 0 {
      AndZero(a / 2);
    } else {
      AndOneNonZero(a / 2, d - 1);
    }
  }
}
