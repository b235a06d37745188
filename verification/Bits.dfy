/** Unsigned shifts, masks and exclusive-or on natural numbers, defined bit by bit. */
module Bits {
  import opened Arith

  /** a >> k */
  function Shr(a: nat, k: nat): nat {
    if k == 0 then a else Shr(a / 2, k - 1)
  }

  /** a & N_BIT_MASK(k) */
  function Low(a: nat, k: nat): nat {
    if k == 0 then 0 else a % 2 + 2 * Low(a / 2, k - 1)
  }

  /** a ^ b */
  function Xor(a: nat, b: nat): nat
    decreases a + b
  {
    if a == 0 && b == 0 then 0 else (a + b) % 2 + 2 * Xor(a / 2, b / 2)
  }

  function Pow2(k: nat): (p: nat)
    ensures p >= 1
  {
    if k == 0 then 1 else 2 * Pow2(k - 1)
  }

  function Bit(a: nat, i: nat): nat {
    Shr(a, i) % 2
  }

  lemma {:induction false} ShrShr(a: nat, j: nat, k: nat)
    ensures Shr(Shr(a, j), k) == Shr(a, j + k)
  {
    if j > 0 {
      ShrShr(a / 2, j - 1, k);
    }
  }

  lemma {:induction false} ShrShrinks(a: nat, k: nat)
    ensures Shr(a, k) <= a
    ensures k >= 1 && a >= 1 ==> Shr(a, k) < a
  {
    if k > 0 {
      ShrShrinks(a / 2, k - 1);
    }
  }

  lemma Halves(x: nat, bit: nat, half: nat)
    requires x == bit + 2 * half && bit < 2
    ensures x % 2 == bit && x / 2 == half
  {
  }

  lemma {:induction false} LowHalf(a: nat, k: nat)
    requires k > 0
    ensures Low(a, k) % 2 == a % 2 && Low(a, k) / 2 == Low(a / 2, k - 1)
  {
    Halves(Low(a, k), a % 2, Low(a / 2, k - 1));
  }

  lemma {:induction false} XorHalf(a: nat, b: nat)
    ensures Xor(a, b) % 2 == (a + b) % 2 && Xor(a, b) / 2 == Xor(a / 2, b / 2)
  {
    if a == 0 && b == 0 {
      assert Xor(0, 0) == 0;
    } else {
      Halves(Xor(a, b), (a + b) % 2, Xor(a / 2, b / 2));
    }
  }

  lemma {:induction false} ZeroBits(i: nat)
    ensures Bit(0, i) == 0
  {
    if i > 0 {
      ZeroBits(i - 1);
    }
  }

  lemma {:induction false} BitOfLow(a: nat, k: nat, i: nat)
    ensures Bit(Low(a, k), i) == if i < k then Bit(a, i) else 0
  {
    hide Low;
    if k == 0 {
      LowNone(a);
      ZeroBits(i);
    } else {
      LowHalf(a, k);
      if i > 0 {
        BitOfLow(a / 2, k - 1, i - 1);
      }
    }
  }

  lemma LowNone(a: nat)
    ensures Low(a, 0) == 0
  {
  }

  lemma {:induction false} BitOfXor(a: nat, b: nat, i: nat)
    ensures Bit(Xor(a, b), i) == (Bit(a, i) + Bit(b, i)) % 2
    decreases i
  {
    hide Xor;
    XorHalf(a, b);
    if i > 0 {
      BitOfXor(a / 2, b / 2, i - 1);
    } else {
      assert (a + b) % 2 == (a % 2 + b % 2) % 2;
    }
  }

  function Quotient(a: nat, n: nat): nat
    requires n > 0
  {
    a / n
  }

  lemma {:induction false} LowBound(a: nat, k: nat)
    ensures Low(a, k) < Pow2(k)
  {
    if k > 0 {
      LowBound(a / 2, k - 1);
    }
  }

  lemma {:induction false} XorBound(a: nat, b: nat, k: nat)
    requires a < Pow2(k) && b < Pow2(k)
    ensures Xor(a, b) < Pow2(k)
  {
    if k > 0 && !(a == 0 && b == 0) {
      XorBound(a / 2, b / 2, k - 1);
    }
  }

  /** A number is determined by its bits. */
  lemma {:induction false} SameBits(a: nat, b: nat)
    requires forall i: nat :: Bit(a, i) == Bit(b, i)
    ensures a == b
    decreases a + b
  {
    if a > 0 || b > 0 {
      assert Bit(a, 0) == Bit(b, 0);
      forall i: nat
        ensures Bit(a / 2, i) == Bit(b / 2, i)
      {
        assert Bit(a, i + 1) == Bit(b, i + 1);
      }
      SameBits(a / 2, b / 2);
    }
  }

  lemma {:induction false} ShrPow2(k: nat, j: nat)
    ensures Shr(Pow2(k), j) == if j <= k then Pow2(k - j) else 0
  {
    if j > 0 {
      if k > 0 {
        ShrPow2(k - 1, j - 1);
      } else {
        ShrShrinks(0, j - 1);
      }
    }
  }

  lemma {:induction false} LowAtMost(a: nat, k: nat)
    ensures Low(a, k) <= a
  {
    if k > 0 {
      LowAtMost(a / 2, k - 1);
    }
  }

  lemma {:induction false} HighBits(a: nat, b: nat, k: nat)
    ensures Shr(a, k) == Shr(b, k) <==> a - Low(a, k) == b - Low(b, k)
  {
    if k > 0 {
      HighBits(a / 2, b / 2, k - 1);
    }
  }

  /** A number is its high part and its low part. */
  lemma {:induction false} SplitAt(a: nat, b: nat, k: nat)
    requires Shr(a, k) == Shr(b, k) && Low(a, k) == Low(b, k)
    ensures a == b
  {
    HighBits(a, b, k);
  }

  function Remainder(a: nat, n: nat): nat
    requires n > 0
  {
    a % n
  }

  lemma SameQuotient(a: nat, b: nat, n: nat)
    requires n > 0 && Quotient(a, n) == Quotient(b, n) && Remainder(a, n) == Remainder(b, n)
    ensures a == b
  {
    assert a == n * (a / n) + a % n && b == n * (b / n) + b % n;
  }

  /** (h << k) | (a & N_BIT_MASK(k)) */
  function Join(h: nat, a: nat, k: nat): nat {
    if k == 0 then h else a % 2 + 2 * Join(h, a / 2, k - 1)
  }

  lemma {:induction false} BitOfJoin(h: nat, a: nat, k: nat, i: nat)
    ensures Bit(Join(h, a, k), i) == if i < k then Bit(a, i) else Bit(h, i - k)
  {
    if k > 0 {
      Halves(Join(h, a, k), a % 2, Join(h, a / 2, k - 1));
      if i > 0 {
        BitOfJoin(h, a / 2, k - 1, i - 1);
      }
    }
  }

  /** The high parts agree exactly when all high bits do. */
  lemma {:induction false} AgreeFrom(a: nat, b: nat, s: nat)
    ensures Shr(a, s) == Shr(b, s) <==> forall i: nat :: i >= s ==> Bit(a, i) == Bit(b, i)
  {
    forall i: nat
      ensures Bit(Shr(a, s), i) == Bit(a, s + i) && Bit(Shr(b, s), i) == Bit(b, s + i)
    {
      ShrShr(a, s, i);
      ShrShr(b, s, i);
    }
    if Shr(a, s) == Shr(b, s) {
      forall i: nat | i >= s
        ensures Bit(a, i) == Bit(b, i)
      {
        assert Bit(Shr(a, s), i - s) == Bit(a, s + (i - s));
      }
    }
    if forall i: nat :: i >= s ==> Bit(a, i) == Bit(b, i) {
      SameBits(Shr(a, s), Shr(b, s));
    }
  }

  /** Shifting right is dividing by a power of two. */
  lemma {:induction false} ShrIsQuotient(a: nat, k: nat)
    ensures Shr(a, k) == Quotient(a, Pow2(k))
  {
    SplitValue(a, k);
    LowBound(a, k);
    var p, s, r := Pow2(k), Shr(a, k), Low(a, k);
    var y: nat := Mul(p, s);
    hide Mul, Low, Shr, Pow2;
    Exactly(p, s, y);
    RemainderIs(a, p, s, r);
    DivMod(a, p);
    Cancel(p, s, a / p);
  }

  lemma {:induction false} SplitValue(a: nat, k: nat)
    ensures a == Mul(Pow2(k), Shr(a, k)) + Low(a, k)
  {
    if k > 0 {
      SplitValue(a / 2, k - 1);
      var p, s := Pow2(k - 1), Shr(a / 2, k - 1);
      Regroup(2, p, s);
      assert Pow2(k) == Mul(2, p);
    } else {
      Unit(a);
      Regroup(1, a, 0);
    }
  }

  /** Clearing the low bits leaves the others. */
  lemma {:induction false} BitOfCleared(a: nat, k: nat, i: nat)
    requires Low(a, k) <= a
    ensures Bit(a - Low(a, k), i) == if i < k then 0 else Bit(a, i)
  {
    if k > 0 {
      LowAtMost(a / 2, k - 1);
      var h := a / 2 - Low(a / 2, k - 1);
      Halves(a - Low(a, k), 0, h);
      if i > 0 {
        BitOfCleared(a / 2, k - 1, i - 1);
      }
    }
  }

  /** Numbers less than 2^k apart differ in their low k bits. */
  lemma {:induction false} NearbyDiffer(a: nat, b: nat, k: nat)
    requires a < b < a + Pow2(k)
    ensures Low(a, k) != Low(b, k)
  {
    SplitValue(a, k);
    SplitValue(b, k);
    var p: int, x: int, y: int := Pow2(k), Shr(a, k), Shr(b, k);
    hide Mul, Shr, Low, Pow2;
    Spread(p, y, x);
    Smaller(p, y - x);
    Spread(p, y - x, 1);
    Unit(p);
    Smaller(p, y - x - 1);
  }
}
