/** Bitwise exclusive or, bit length and right shift of unbounded naturals, as big.Int computes them. */
module Bits {

  /** 2 to the power n. */
  function Pow2(n: nat): nat {
    if n == 0 then 1 else 2 * Pow2(n - 1)
  }

  /** Bit by bit exclusive or: the lowest bits differ exactly when the sum is odd. */
  function Xor(a: nat, b: nat): nat
    decreases a + b
  {
    if a == 0 && b == 0 then 0 else 2 * Xor(a / 2, b / 2) + (a + b) % 2
  }

  /** The number of bits needed to write n; 0 for 0. */
  function BitLen(n: nat): nat {
    if n == 0 then 0 else 1 + BitLen(n / 2)
  }

  /** n without its lowest count bits. */
  function Shr(n: nat, count: nat): nat
    decreases count
  {
    if count == 0 then n else Shr(n / 2, count - 1)
  }

  /** n with count zero bits appended. */
  function Shl(n: nat, count: nat): nat {
    if count == 0 then n else 2 * Shl(n, count - 1)
  }

  // ---- The group laws of exclusive or ----

  lemma {:induction false} XorComm(a: nat, b: nat)
    ensures Xor(a, b) == Xor(b, a)
    decreases a + b
  {
    if a != 0 || b != 0 {
      XorComm(a / 2, b / 2);
    }
  }

  lemma {:induction false} XorZero(a: nat)
    ensures Xor(a, 0) == a && Xor(0, a) == a
  {
    if a != 0 {
      XorZero(a / 2);
    }
  }

  lemma {:induction false} XorSelf(a: nat)
    ensures Xor(a, a) == 0
  {
    if a != 0 {
      XorSelf(a / 2);
    }
  }

  /** One unfolding, with both halves named, valid for zero operands too. */
  lemma XorHalves(a: nat, b: nat)
    ensures Xor(a, b) / 2 == Xor(a / 2, b / 2)
    ensures Xor(a, b) % 2 == (a + b) % 2
  {
  }

  /** The lowest bit of a triple exclusive or, however it is bracketed. */
  lemma ParityOfSum(l: nat, r: nat, a: nat, b: nat, c: nat)
    requires l % 2 == (a + b) % 2 && r % 2 == (b + c) % 2
    ensures (l + c) % 2 == (a + r) % 2
  {
  }

  lemma {:induction false} XorAssoc(a: nat, b: nat, c: nat)
    ensures Xor(Xor(a, b), c) == Xor(a, Xor(b, c))
    decreases a + b + c
  {
    if a == 0 && b == 0 && c == 0 {
    } else {
      var l, r := Xor(a, b), Xor(b, c);
      assert l / 2 == Xor(a / 2, b / 2) && r / 2 == Xor(b / 2, c / 2)
             && l % 2 == (a + b) % 2 && r % 2 == (b + c) % 2 by {
        XorHalves(a, b);
        XorHalves(b, c);
      }
      ParityOfSum(l, r, a, b, c);
      assert Xor(l / 2, c / 2) == Xor(a / 2, r / 2) by {
        XorAssoc(a / 2, b / 2, c / 2);
      }
      XorFromHalves(l, c, a, r);
    }
  }

  /** Two exclusive ors are equal when their halves and lowest bits are. */
  lemma XorFromHalves(a: nat, b: nat, c: nat, d: nat)
    requires Xor(a / 2, b / 2) == Xor(c / 2, d / 2)
    requires (a + b) % 2 == (c + d) % 2
    ensures Xor(a, b) == Xor(c, d)
  {
    XorHalves(a, b);
    XorHalves(c, d);
  }

  lemma {:induction false} XorIsZero(a: nat, b: nat)
    requires Xor(a, b) == 0
    ensures a == b
    decreases a + b
  {
    if a != 0 || b != 0 {
      XorIsZero(a / 2, b / 2);
    }
  }

  /** Measured from a common point t, a and b are as far apart as they are from each other. */
  lemma XorRebase(a: nat, b: nat, t: nat)
    ensures Xor(Xor(a, t), Xor(b, t)) == Xor(a, b)
  {
    XorComm(b, t);
    XorAssoc(a, t, Xor(t, b));
    XorAssoc(t, t, b);
    XorSelf(t);
    XorZero(b);
  }

  lemma {:induction false} XorAtMostSum(a: nat, b: nat)
    ensures Xor(a, b) <= a + b
    decreases a + b
  {
    if a != 0 || b != 0 {
      XorAtMostSum(a / 2, b / 2);
    }
  }

  // ---- Shifting and bit length ----

  lemma {:induction false} ShrStep(n: nat, count: nat)
    ensures Shr(n, count + 1) == Shr(n, count) / 2
    decreases count
  {
    if count > 0 {
      ShrStep(n / 2, count - 1);
    }
  }

  lemma {:induction false} ShrMonotone(a: nat, b: nat, count: nat)
    requires a <= b
    ensures Shr(a, count) <= Shr(b, count)
    decreases count
  {
    if count > 0 {
      ShrMonotone(a / 2, b / 2, count - 1);
    }
  }

  lemma {:induction false} ShrXor(a: nat, b: nat, count: nat)
    ensures Shr(Xor(a, b), count) == Xor(Shr(a, count), Shr(b, count))
    decreases count
  {
    if count > 0 {
      XorHalves(a, b);
      ShrXor(a / 2, b / 2, count - 1);
    }
  }

  /** A number has at most count bits exactly when shifting it by count leaves nothing. */
  lemma {:induction false} BitLenAtMost(n: nat, count: nat)
    ensures BitLen(n) <= count <==> Shr(n, count) == 0
    decreases count
  {
    if count > 0 {
      BitLenAtMost(n / 2, count - 1);
    }
  }

  /** a and b agree above their lowest count bits exactly when their exclusive or has at most count bits. */
  lemma AgreeAbove(a: nat, b: nat, count: nat)
    ensures BitLen(Xor(a, b)) <= count <==> Shr(a, count) == Shr(b, count)
  {
    BitLenAtMost(Xor(a, b), count);
    ShrXor(a, b, count);
    if Shr(Xor(a, b), count) == 0 {
      XorIsZero(Shr(a, count), Shr(b, count));
    }
    if Shr(a, count) == Shr(b, count) {
      XorSelf(Shr(a, count));
    }
  }

  /** The bit length brackets a number between two powers of two. */
  lemma {:induction false} BitLenBound(n: nat, count: nat)
    ensures BitLen(n) <= count <==> n < Pow2(count)
    decreases count
  {
    if count > 0 {
      BitLenBound(n / 2, count - 1);
    }
  }

  lemma ParityOfShifted(a: nat, b: nat, x: nat, y: nat)
    ensures (2 * a + x) / 2 == a + x / 2
    ensures (2 * a + x + (2 * b + y)) % 2 == (x + y) % 2
  {
  }

  /** One bit more in the low part: a and b are already multiplied by the old weight. */
  lemma XorSplitStep(a: nat, b: nat, x: nat, y: nat, high: nat)
    requires Xor(a + x / 2, b + y / 2) == high + Xor(x / 2, y / 2)
    ensures Xor(2 * a + x, 2 * b + y) == 2 * high + Xor(x, y)
  {
    var m, n := 2 * a + x, 2 * b + y;
    assert m / 2 == a + x / 2 && n / 2 == b + y / 2 && (m + n) % 2 == (x + y) % 2 by {
      ParityOfShifted(a, b, x, y);
      ParityOfShifted(b, a, y, x);
    }
    var d, e := Xor(m, n), Xor(x, y);
    assert d / 2 == high + e / 2 && d % 2 == e % 2 by {
      XorHalves(m, n);
      XorHalves(x, y);
    }
  }

  /** Exclusive or works on the low count bits and on the bits above them separately. */
  lemma {:induction false} XorSplit(a: nat, b: nat, x: nat, y: nat, count: nat)
    requires x < Pow2(count) && y < Pow2(count)
    ensures Xor(Shl(a, count) + x, Shl(b, count) + y) == Shl(Xor(a, b), count) + Xor(x, y)
    decreases count
  {
    if count == 0 {
      XorZero(0);
    } else {
      XorSplit(a, b, x / 2, y / 2, count - 1);
      XorSplitStep(Shl(a, count - 1), Shl(b, count - 1), x, y, Shl(Xor(a, b), count - 1));
    }
  }

  lemma XorBound(a: nat, b: nat, count: nat)
    requires a < Pow2(count) && b < Pow2(count)
    ensures Xor(a, b) < Pow2(count)
  {
    BitLenBound(a, count);
    BitLenBound(b, count);
    BitLenAtMost(a, count);
    BitLenAtMost(b, count);
    AgreeAbove(a, b, count);
    BitLenBound(Xor(a, b), count);
  }

  lemma {:induction false} BoundedSetSize(s: set<nat>, bound: nat)
    requires forall x :: x in s ==> x < bound
    ensures |s| <= bound
    decreases bound
  {
    if bound == 0 {
      assert s == {};
    } else {
      BoundedSetSize(s - {bound - 1}, bound - 1);
    }
  }
}
