/**
 * Python's `&` on unbounded integers. Python treats a negative integer as an
 * infinite two's-complement bit string; bit k of x is floor(x / 2^k) mod 2,
 * which is what Dafny's Euclidean `/` and `%` by a positive divisor compute.
 */
module Bits {

  function Pow2(k: nat): (r: nat)
    ensures r >= 1
  {
    if k == 0 then 1 else 2 * Pow2(k - 1)
  }

  /** Bit k of x in two's complement (`(x >> k) & 1 == 1`). */
  predicate TestBit(x: int, k: nat)
    decreases k
  {
    if k == 0 then x % 2 == 1 else TestBit(x / 2, k - 1)
  }

  /** `x & y`, bit by bit from the least significant end. */
  function BitAnd(x: int, y: int): (r: int)
    ensures x >= 0 ==> 0 <= r <= x
    ensures y >= 0 ==> 0 <= r <= y
    decreases (if x < 0 then -x else x) + (if y < 0 then -y else y)
  {
    if x == 0 || y == 0 then 0
    else if x == -1 then y
    else if y == -1 then x
    else 2 * BitAnd(x / 2, y / 2) + (if x % 2 == 1 && y % 2 == 1 then 1 else 0)
  }

  lemma {:induction false} ZeroHasNoBits(k: nat)
    ensures !TestBit(0, k)
  {
    if k > 0 {
      ZeroHasNoBits(k - 1);
    }
  }

  lemma {:induction false} MinusOneHasAllBits(k: nat)
    ensures TestBit(-1, k)
  {
    if k > 0 {
      assert -1 / 2 == -1;
      MinusOneHasAllBits(k - 1);
    }
  }

  /** Every bit of `x & y` is set exactly when it is set in both operands. */
  lemma {:induction false} BitAndBits(x: int, y: int, k: nat)
    ensures TestBit(BitAnd(x, y), k) <==> TestBit(x, k) && TestBit(y, k)
    decreases k
  {
    if x == 0 {
      ZeroHasNoBits(k);
    } else if y == 0 {
      ZeroHasNoBits(k);
    } else if x == -1 {
      MinusOneHasAllBits(k);
    } else if y == -1 {
      MinusOneHasAllBits(k);
    } else if k > 0 {
      var r := BitAnd(x, y);
      assert r / 2 == BitAnd(x / 2, y / 2);
      BitAndBits(x / 2, y / 2, k - 1);
    }
  }

  /** The only bit of 2^k is bit k. */
  lemma {:induction false} Pow2Bits(k: nat, j: nat)
    ensures TestBit(Pow2(k), j) <==> j == k
    decreases k
  {
    if k == 0 {
      if j > 0 {
        assert 1 / 2 == 0;
        ZeroHasNoBits(j - 1);
      }
    } else if j > 0 {
      assert Pow2(k) / 2 == Pow2(k - 1);
      Pow2Bits(k - 1, j - 1);
    }
  }

  /** Masking with the single bit 2^k yields a non-zero (truthy) result exactly when bit k is set. */
  lemma {:induction false} SingleBitMask(x: int, k: nat)
    ensures BitAnd(x, Pow2(k)) != 0 <==> TestBit(x, k)
    decreases k
  {
    if x == 0 {
      ZeroHasNoBits(k);
    } else if x == -1 {
      MinusOneHasAllBits(k);
    } else if k == 0 {
      assert BitAnd(x / 2, 0) == 0;
    } else {
      assert Pow2(k) % 2 == 0 && Pow2(k) / 2 == Pow2(k - 1);
      SingleBitMask(x / 2, k - 1);
    }
  }
}
