/** Bit operations of the sources on unbounded naturals. */
module Bits {

  function Pow2(k: nat): nat
    ensures 0 < Pow2(k)
  {
    if k == 0 then 1 else 2 * Pow2(k - 1)
  }

  /** `m >> k` */
  function ShiftRight(m: nat, k: nat): nat {
    if k == 0 then m else ShiftRight(m / 2, k - 1)
  }

  /** `a | b` */
  function Or(a: nat, b: nat): nat {
    if b == 0 then a
    else if a == 0 then b
    else 2 * Or(a / 2, b / 2) + if a % 2 == 1 || b % 2 == 1 then 1 else 0
  }

  function BitLength(m: nat): nat {
    if m == 0 then 0 else 1 + BitLength(m / 2)
  }

  /** Values without a common bit are joined by adding them. */
  lemma {:induction false} OrShifted(a: nat, b: nat, k: nat)
    requires a < Pow2(k)
    ensures Or(a, b * Pow2(k)) == a + b * Pow2(k)
    decreases k
  {
    if k == 0 {
      assert a == 0;
    } else {
      var p := b * Pow2(k - 1);
      assert b * Pow2(k) == 2 * p;
      OrShifted(a / 2, b, k - 1);
    }
  }

  lemma {:induction false} OrSetsBit(a: nat, k: nat)
    requires ShiftRight(a, k) % 2 == 0
    ensures Or(a, Pow2(k)) == a + Pow2(k)
    decreases k
  {
    if k == 0 {
      if a != 0 {
        assert Or(a, 1) == 2 * Or(a / 2, 0) + 1;
      }
    } else {
      OrSetsBit(a / 2, k - 1);
    }
  }

  lemma {:induction false} ShiftRightAdd(m: nat, a: nat, b: nat)
    ensures ShiftRight(m, a + b) == ShiftRight(ShiftRight(m, a), b)
    decreases a
  {
    if a != 0 {
      ShiftRightAdd(m / 2, a - 1, b);
    }
  }

  /** A number fits into `k` bits exactly when nothing is left of it after shifting by `k`. */
  lemma {:induction false} FitsIffShiftedOut(m: nat, k: nat)
    ensures BitLength(m) <= k <==> ShiftRight(m, k) == 0
    decreases k
  {
    if k != 0 {
      FitsIffShiftedOut(m / 2, k - 1);
    }
  }

  lemma {:induction false} BitLengthShifted(m: nat, k: nat)
    requires ShiftRight(m, k) != 0
    ensures BitLength(m) == k + BitLength(ShiftRight(m, k))
    decreases k
  {
    if k != 0 {
      if m == 0 {
        FitsIffShiftedOut(m, k);
      }
      BitLengthShifted(m / 2, k - 1);
    }
  }

  /** Shifting a number whose upper part is `high` and whose lower `k` bits are `low`. */
  lemma {:induction false} ShiftRightSplit(low: nat, high: nat, k: nat, s: nat)
    requires low < Pow2(k) && s <= k
    ensures ShiftRight(low + high * Pow2(k), s) == ShiftRight(low, s) + high * Pow2(k - s)
    ensures ShiftRight(low, s) < Pow2(k - s)
    decreases s
  {
    if s != 0 {
      var p := high * Pow2(k - 1);
      assert high * Pow2(k) == 2 * p;
      assert (low + 2 * p) / 2 == low / 2 + p;
      ShiftRightSplit(low / 2, high, k - 1, s - 1);
    }
  }

  lemma {:induction false} ShiftRightNext(m: nat, k: nat)
    ensures ShiftRight(m, k + 1) == ShiftRight(m, k) / 2
  {
    ShiftRightAdd(m, k, 1);
    var x := ShiftRight(m, k);
    assert ShiftRight(x, 1) == ShiftRight(x / 2, 0);
  }

  lemma {:induction false} ShiftRightSmall(m: nat)
    ensures ShiftRight(m, 1) == m / 2 && ShiftRight(m, 2) == m / 4 && ShiftRight(m, 3) == m / 8
    ensures ShiftRight(m, 4) == m / 16 && ShiftRight(m, 5) == m / 32 && ShiftRight(m, 6) == m / 64
    ensures ShiftRight(m, 7) == m / 128 && ShiftRight(m, 8) == m / 256
  {
    ShiftRightNext(m, 0);
    ShiftRightNext(m, 1);
    ShiftRightNext(m, 2);
    ShiftRightNext(m, 3);
    ShiftRightNext(m, 4);
    ShiftRightNext(m, 5);
    ShiftRightNext(m, 6);
    ShiftRightNext(m, 7);
  }

  lemma {:induction false} Pow2Small()
    ensures Pow2(1) == 2 && Pow2(2) == 4 && Pow2(3) == 8 && Pow2(4) == 16
    ensures Pow2(5) == 32 && Pow2(6) == 64 && Pow2(7) == 128 && Pow2(8) == 256
  {
    assert Pow2(3) == 8;
    assert Pow2(5) == 32;
  }
}
