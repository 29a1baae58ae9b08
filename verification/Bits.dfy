/** The bit arithmetic behind LFVector's addressing. */
module Bits {

  function Pow2(n: nat): (r: nat)
    ensures r >= 1
  {
    if n == 0 then 1 else 2 * Pow2(n - 1)
  }

  lemma {:induction false} Pow2Grows(m: nat, n: nat)
    requires m < n
    ensures 2 * Pow2(m) <= Pow2(n)
    decreases n
  {
    if m < n - 1 {
      Pow2Grows(m, n - 1);
    }
  }

  /** Bit `r` is the most significant set bit of `v`. */
  ghost predicate IsLastBit(v: nat, r: nat) {
    Pow2(r) <= v < 2 * Pow2(r)
  }

  lemma {:induction false} LastBitExists(v: nat)
    requires v > 0
    ensures exists r: nat :: IsLastBit(v, r)
  {
    if v == 1 {
      assert IsLastBit(v, 0);
    } else {
      LastBitExists(v / 2);
      var r: nat :| IsLastBit(v / 2, r);
      assert IsLastBit(v, r + 1);
    }
  }

  /** The position of the most significant set bit. */
  ghost function LastBit(v: nat): (r: nat)
    requires v > 0
    ensures IsLastBit(v, r)
  {
    LastBitExists(v);
    var r: nat :| IsLastBit(v, r);
    r
  }

  lemma LastBitUnique(v: nat, r: nat)
    requires IsLastBit(v, r)
    ensures LastBit(v) == r
  {
    var k := LastBit(v);
    if k < r {
      Pow2Grows(k, r);
    } else if r < k {
      Pow2Grows(r, k);
    }
  }

  lemma LastBitHalf(v: nat)
    requires v > 0
    ensures LastBit(v) == if v == 1 then 0 else 1 + LastBit(v / 2)
  {
    if v == 1 {
      LastBitUnique(1, 0);
    } else {
      LastBitUnique(v, 1 + LastBit(v / 2));
    }
  }

  /** getIndexOfLastBit, in its portable form. */
  method GetIndexOfLastBit(value: nat) returns (count: int)
    ensures if value == 0 then count == -1 else count == LastBit(value)
  {
    count := -1;
    var v := value;
    while v != 0
      invariant value == 0 ==> v == 0 && count == -1
      invariant value > 0 ==> LastBit(value) == count + if v == 0 then 0 else 1 + LastBit(v)
    {
      LastBitHalf(v);
      count := count + 1;
      v := v / 2;
    }
  }

  /** Bitwise exclusive or. */
  function Xor(a: nat, b: nat): nat {
    if a == 0 && b == 0 then 0
    else (if a % 2 != b % 2 then 1 else 0) + 2 * Xor(a / 2, b / 2)
  }

  lemma {:induction false} XorZero(a: nat)
    ensures Xor(a, 0) == a
  {
    if a > 0 {
      XorZero(a / 2);
    }
  }

  /** Flipping the most significant bit subtracts it. */
  lemma {:induction false} XorLastBit(v: nat, r: nat)
    requires IsLastBit(v, r)
    ensures Xor(v, Pow2(r)) == v - Pow2(r)
  {
    if r == 0 {
      assert v == 1;
      XorZero(0);
    } else {
      XorLastBit(v / 2, r - 1);
    }
  }
}
