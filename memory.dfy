// xpl_memory_compare of src-xpl/xpl_memory.c: compares two byte ranges with
// a forward and a backward cursor and reports whether they differ and where.

module Memory {

  /** size_t is 64 bits wide; ~0 is its largest value. */
  const SizeMax: int := 0xFFFF_FFFF_FFFF_FFFF

  datatype ComparisonResult = ComparisonResult(isDifferent: int, firstDifference: int, lastDifference: int)

  /** Offset of the first byte where the ranges differ. */
  function FirstDifference(m1: seq<bv8>, m2: seq<bv8>): (f: nat)
    requires |m1| == |m2| && m1 != m2
    ensures f < |m1| && m1[f] != m2[f]
    ensures forall k :: 0 <= k < f ==> m1[k] == m2[k]
  {
    if m1[0] != m2[0] then 0
    else
      assert m1 == [m1[0]] + m1[1..] && m2 == [m2[0]] + m2[1..];
      1 + FirstDifference(m1[1..], m2[1..])
  }

  /** Offset of the last byte where the ranges differ. */
  function LastDifference(m1: seq<bv8>, m2: seq<bv8>): (l: nat)
    requires |m1| == |m2| && m1 != m2
    ensures l < |m1| && m1[l] != m2[l]
    ensures forall k :: l < k < |m1| ==> m1[k] == m2[k]
  {
    var n := |m1|;
    if m1[n - 1] != m2[n - 1] then n - 1
    else
      assert m1 == m1[..n - 1] + [m1[n - 1]] && m2 == m2[..n - 1] + [m2[n - 1]];
      LastDifference(m1[..n - 1], m2[..n - 1])
  }

  lemma FirstNotAfterLast(m1: seq<bv8>, m2: seq<bv8>)
    requires |m1| == |m2| && m1 != m2
    ensures FirstDifference(m1, m2) <= LastDifference(m1, m2)
  {
  }

  /** The last offset the source reports: the backward cursor has already
      stepped past the difference (one too low), except when the only
      difference lies before the last byte, where the scan stops at the
      forward cursor one byte above it and reports it exactly. An offset of
      -1 wraps around as a size_t. */
  function LastReportedAsWritten(first: nat, last: nat, n: nat): int
  {
    if last == first && last + 1 < n then last
    else if last >= 1 then last - 1
    else SizeMax
  }

  /** xpl_memory_compare as written: equal ranges give (0, ~0, 0); otherwise the
      first offset is one past the first difference (the forward cursor was
      post-incremented) and the last offset is LastReportedAsWritten. */
  method MemoryCompareAsWritten(m1: seq<bv8>, m2: seq<bv8>) returns (r: ComparisonResult)
    requires |m1| == |m2| >= 1
    ensures m1 == m2 <==> r.isDifferent == 0
    ensures m1 == m2 ==> r == ComparisonResult(0, SizeMax, 0)
    ensures m1 != m2 ==>
              && r.isDifferent == 1
              && r.firstDifference == FirstDifference(m1, m2) + 1
              && r.lastDifference == LastReportedAsWritten(FirstDifference(m1, m2), LastDifference(m1, m2), |m1|)
  {
    var n := |m1|;
    var pf := 0;
    var compareFwd: bv8 := m1[pf] - m2[pf];
    pf := pf + 1;
    while pf <= n - 1 && compareFwd == 0
      invariant 1 <= pf <= n
      invariant forall k :: 0 <= k < pf - 1 ==> m1[k] == m2[k]
      invariant compareFwd == 0 <==> m1[pf - 1] == m2[pf - 1]
    {
      compareFwd := m1[pf] - m2[pf];
      pf := pf + 1;
    }
    if compareFwd == 0 {
      assert m1 == m2;
      r := ComparisonResult(0, SizeMax, 0);
    } else {
      ghost var f := FirstDifference(m1, m2);
      assert f == pf - 1;
      ghost var l := LastDifference(m1, m2);
      var pb := n - 1;
      var compareBack: bv8 := m1[pb] - m2[pb];
      pb := pb - 1;
      while pf <= pb && compareBack == 0
        invariant -1 <= pb <= n - 2 && pf - 2 <= pb
        invariant pb == n - 2 || pf <= pb + 1
        invariant forall k :: pb + 2 <= k < n ==> m1[k] == m2[k]
        invariant compareBack == 0 <==> m1[pb + 1] == m2[pb + 1]
      {
        compareBack := m1[pb] - m2[pb];
        pb := pb - 1;
      }
      if compareBack != 0 {
        assert l == pb + 1;
      } else {
        assert pb == f && l == f;
      }
      r := ComparisonResult(1, pf, if pb >= 0 then pb else pb + SizeMax + 1);
    }
  }

  /** The evidently intended comparison: the offsets of the first and of the
      last differing byte. */
  method MemoryCompare(m1: seq<bv8>, m2: seq<bv8>) returns (r: ComparisonResult)
    requires |m1| == |m2| >= 1
    ensures m1 == m2 ==> r == ComparisonResult(0, SizeMax, 0)
    ensures m1 != m2 ==>
              && r.isDifferent == 1
              && r.firstDifference == FirstDifference(m1, m2)
              && r.lastDifference == LastDifference(m1, m2)
  {
    var n := |m1|;
    var i := 0;
    while i < n && m1[i] == m2[i]
      invariant 0 <= i <= n
      invariant forall k :: 0 <= k < i ==> m1[k] == m2[k]
    {
      i := i + 1;
    }
    if i == n {
      assert m1 == m2;
      return ComparisonResult(0, SizeMax, 0);
    }
    var j := n - 1;
    while m1[j] == m2[j]
      invariant i <= j < n
      invariant forall k :: j < k < n ==> m1[k] == m2[k]
      decreases j
    {
      j := j - 1;
    }
    r := ComparisonResult(1, i, j);
  }

  /** The finding on one differing byte: as written the first offset is 1 and
      the last offset wraps to ~0, where 0 and 0 are meant. */
  lemma OneByteDifference()
    ensures FirstDifference([1], [0]) == 0 && LastDifference([1], [0]) == 0
    ensures FirstDifference([1], [0]) + 1 == 1
    ensures LastReportedAsWritten(FirstDifference([1], [0]), LastDifference([1], [0]), 1) == SizeMax
  {
  }
}
