// Integer helpers of include-xpl/xpl_math.h: xpl_next_power_of_2 and xpl_signum.
// `unsigned int` is a 32-bit word; its value is a nat below 2^32 here.

module MathUtil {

  function Pow2(k: nat): (p: nat)
    ensures p >= 1
  {
    if k == 0 then 1 else 2 * Pow2(k - 1)
  }

  /** Number of binary digits of `v` (0 for 0): how often `v >>= 1` runs until `v` is 0. */
  function BitLength(v: nat): nat
  {
    if v == 0 then 0 else 1 + BitLength(v / 2)
  }

  ghost predicate IsPowerOfTwo(n: nat) { exists k: nat :: n == Pow2(k) }

  lemma {:induction false} Pow2Monotone(i: nat, j: nat)
    requires i <= j
    ensures Pow2(i) <= Pow2(j)
  {
    if i < j { Pow2Monotone(i, j - 1); }
  }

  /** Pow2(BitLength(v)) is the least power of two strictly above `v`. */
  lemma {:induction false} BitLengthBounds(v: nat)
    ensures v < Pow2(BitLength(v))
    ensures v > 0 ==> Pow2(BitLength(v) - 1) <= v
  {
    if v > 0 { BitLengthBounds(v / 2); }
  }

  /** No power of two lies strictly between `v` and Pow2(BitLength(v)). */
  lemma LeastPowerAbove(v: nat, k: nat)
    requires v < Pow2(k)
    ensures Pow2(BitLength(v)) <= Pow2(k)
  {
    BitLengthBounds(v);
    if k < BitLength(v) {
      Pow2Monotone(k, BitLength(v) - 1);
    } else {
      Pow2Monotone(BitLength(v), k);
    }
  }

  lemma {:induction false} BitLengthOfPow2(k: nat)
    ensures BitLength(Pow2(k)) == k + 1
  {
    if k > 0 {
      BitLengthOfPow2(k - 1);
      assert Pow2(k) / 2 == Pow2(k - 1);
    }
  }

  /** A power of two is exactly a positive number equal to Pow2 of its bit length less one. */
  lemma PowerOfTwoTest(n: nat)
    ensures IsPowerOfTwo(n) <==> n > 0 && n == Pow2(BitLength(n) - 1)
  {
    if IsPowerOfTwo(n) {
      var k: nat :| n == Pow2(k);
      BitLengthOfPow2(k);
    }
  }

  /** The early-return test of xpl_next_power_of_2, `val & !(val & (val - 1))`:
      `!` yields 0 or 1, so the test keeps only bit 0 of `val`. */
  function EarlyReturnTest(val: bv32): bv32
  {
    val & (if val & (val - 1) == 0 then 1 else 0)
  }

  /** The test as written holds only for 1, the one odd power of two. */
  lemma EarlyReturnOnlyForOne(val: bv32)
    ensures EarlyReturnTest(val) != 0 <==> val == 1
  {
  }

  /** The same test on the word holding a number. */
  lemma EarlyReturnOnlyForOneWord(val: nat)
    requires val < 0x1_0000_0000
    ensures EarlyReturnTest(val as bv32) != 0 <==> val == 1
  {
    EarlyReturnOnlyForOne(val as bv32);
  }

  /** xpl_next_power_of_2 as written: 1 comes back unchanged; any other input
      gets 1 << (its bit length). `1 << 32` would be undefined, hence the bound. */
  method NextPowerOfTwoAsWritten(val: nat) returns (r: nat)
    requires val < 0x8000_0000
    ensures r == if val == 1 then 1 else Pow2(BitLength(val))
  {
    EarlyReturnOnlyForOneWord(val);
    if EarlyReturnTest(val as bv32) != 0 {
      return val;
    }
    var v := val;
    var count: nat := 0;
    while v != 0
      invariant count + BitLength(v) == BitLength(val)
    {
      v := v / 2;
      count := count + 1;
    }
    r := Pow2(count);
  }

  /** The evidently intended function (`val && !(val & (val - 1))`): a power of
      two is returned unchanged, anything else is rounded up to the least power
      of two above it, and 0 gives 1. */
  method NextPowerOfTwo(val: nat) returns (r: nat)
    requires val <= 0x8000_0000
    ensures IsPowerOfTwo(r) && val <= r
    ensures forall k: nat :: val <= Pow2(k) ==> r <= Pow2(k)
    ensures IsPowerOfTwo(val) ==> r == val
  {
    if val > 0 && val == Pow2(BitLength(val) - 1) {
      assert val == Pow2(BitLength(val) - 1);
      return val;
    }
    var v := val;
    var count: nat := 0;
    while v != 0
      invariant count + BitLength(v) == BitLength(val)
    {
      v := v / 2;
      count := count + 1;
    }
    r := Pow2(count);
    assert r == Pow2(count);
    BitLengthBounds(val);
    forall k: nat | val <= Pow2(k) ensures r <= Pow2(k) {
      if val == Pow2(k) {
        BitLengthOfPow2(k);
        assert false;
      }
      LeastPowerAbove(val, k);
    }
    PowerOfTwoTest(val);
  }

  /** The finding: as written, 4 (already a power of two) becomes 8. */
  lemma FourBecomesEight()
    ensures Pow2(BitLength(4)) == 8
  {
    assert BitLength(4) == 3 by {
      assert BitLength(1) == 1;
      assert BitLength(2) == 2;
    }
  }

  /** xpl_signum: `(x > 0) - (x < 0)`. */
  function Signum(x: int): (s: int)
    ensures s == -1 || s == 0 || s == 1
    ensures s * x == (if x < 0 then -x else x)
    ensures (s > 0 <==> x > 0) && (s < 0 <==> x < 0)
  {
    (if x > 0 then 1 else 0) - (if x < 0 then 1 else 0)
  }
}
