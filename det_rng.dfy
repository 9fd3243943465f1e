// The deterministic random sequence of src/random/det_rng.c: a 64-bit
// xorshift generator seeded by hashing an array of ints, with helpers that
// turn its outputs into doubles, ranges, weighted bin choices and random
// byte strings. Doubles are modelled as exact reals.

module DetRng {
  import opened Arith

  type Int32 = x: int | -0x8000_0000 <= x < 0x8000_0000
  type Byte = x: int | 0 <= x < 0x100

  /** xpl_hashi (HASH_JEN over the param and the seed): not part of this model, so a parameter. */
  type Hash = (Int32, Int32) -> Int32

  const TwoTo32: int := 0x1_0000_0000
  const TwoTo64: int := 0x1_0000_0000_0000_0000
  /** UINT64_MAX. */
  const MaxU64: int := 0xFFFF_FFFF_FFFF_FFFF
  /** XPL_HASH_INIT. */
  const HashInit: Int32 := 17

  // ---- the xorshift step

  /** The three shift-and-xor steps of rng_ui64. */
  function Step17(x: bv64): bv64 { x ^ (x >> 17) }
  function Step31(x: bv64): bv64 { x ^ (x << 31) }
  function Step8(x: bv64): bv64 { x ^ (x >> 8) }

  /** rng_ui64's new state and output. */
  function Next(r: bv64): bv64
  {
    Step8(Step31(Step17(r)))
  }

  /** Undo `x ^= x >> 17`, `x ^= x << 31` and `x ^= x >> 8`. */
  function UnRight17(y: bv64): bv64 { y ^ (y >> 17) ^ (y >> 34) ^ (y >> 51) }
  function UnLeft31(y: bv64): bv64 { y ^ (y << 31) ^ (y << 62) }
  function UnRight8(y: bv64): bv64
  {
    y ^ (y >> 8) ^ (y >> 16) ^ (y >> 24) ^ (y >> 32) ^ (y >> 40) ^ (y >> 48) ^ (y >> 56)
  }

  /** The state before a step. */
  function Prev(y: bv64): bv64
  {
    UnRight17(UnLeft31(UnRight8(y)))
  }

  lemma UnRight17Bits(x: bv64)
    ensures UnRight17(x ^ (x >> 17)) == x
  {
  }

  lemma UnLeft31Bits(x: bv64)
    ensures UnLeft31(x ^ (x << 31)) == x
  {
  }

  lemma UnRight8Bits(x: bv64)
    ensures UnRight8(x ^ (x >> 8)) == x
  {
  }

  lemma UnRight17Undoes(x: bv64)
    ensures UnRight17(Step17(x)) == x
  {
    UnRight17Bits(x);
  }

  lemma UnLeft31Undoes(x: bv64)
    ensures UnLeft31(Step31(x)) == x
  {
    UnLeft31Bits(x);
  }

  lemma UnRight8Undoes(x: bv64)
    ensures UnRight8(Step8(x)) == x
  {
    UnRight8Bits(x);
  }

  /** Prev undoes a step, so no two states step to the same one. */
  lemma PrevNext(r: bv64)
    ensures Prev(Next(r)) == r
  {
    UnRight17Undoes(r);
    UnLeft31Undoes(Step17(r));
    UnRight8Undoes(Step31(Step17(r)));
  }

  lemma NextInjective(r: bv64, s: bv64)
    ensures Next(r) == Next(s) <==> r == s
  {
    PrevNext(r);
    PrevNext(s);
  }

  /** Zero is the one fixed state: a zero seed gives zeros for ever, and a
      nonzero state never reaches zero. */
  lemma ZeroIsStuck(r: bv64)
    ensures Next(r) == 0 <==> r == 0
  {
    NextInjective(r, 0);
  }

  /** The state after k steps. */
  function Iterate(r: bv64, k: nat): bv64
  {
    if k == 0 then r else Next(Iterate(r, k - 1))
  }

  // ---- seeding

  /** The two ints of the seed union after hashing ints[..]: ints at even
      positions are chained into word 0, at odd positions into word 1. */
  function SeedWords(ints: seq<Int32>, hash: Hash): (w: seq<Int32>)
    ensures |w| == 2
  {
    if |ints| == 0 then [HashInit, 2 * HashInit + 7]
    else
      var w := SeedWords(ints[..|ints| - 1], hash);
      var index := (|ints| - 1) % 2;
      w[index := hash(ints[|ints| - 1], w[index])]
  }

  /** Hash chaining over a list, starting from a seed. */
  function Chain(xs: seq<Int32>, seed: Int32, hash: Hash): Int32
  {
    if |xs| == 0 then seed else hash(xs[|xs| - 1], Chain(xs[..|xs| - 1], seed, hash))
  }

  /** The elements at positions of the given parity. */
  function Positions(ints: seq<Int32>, parity: nat): (r: seq<Int32>)
    requires parity < 2
    ensures |r| <= |ints|
  {
    if |ints| == 0 then []
    else if (|ints| - 1) % 2 == parity then Positions(ints[..|ints| - 1], parity) + [ints[|ints| - 1]]
    else Positions(ints[..|ints| - 1], parity)
  }

  /** Word 0 is the chain over the even positions from 17, word 1 the chain
      over the odd positions from 41. */
  lemma {:induction false} SeedWordsByParity(ints: seq<Int32>, hash: Hash)
    ensures SeedWords(ints, hash) == [Chain(Positions(ints, 0), HashInit, hash), Chain(Positions(ints, 1), 2 * HashInit + 7, hash)]
  {
    if |ints| > 0 {
      var init := ints[..|ints| - 1];
      SeedWordsByParity(init, hash);
      var x := ints[|ints| - 1];
      var p := (|ints| - 1) % 2;
      assert Positions(ints, p) == Positions(init, p) + [x];
      assert Positions(ints, 1 - p) == Positions(init, 1 - p);
      assert (Positions(init, p) + [x])[..|Positions(init, p) + [x]| - 1] == Positions(init, p);
    }
  }

  /** An int as the 32 bits it occupies. */
  function Bits32(x: Int32): (u: nat)
    ensures u < TwoTo32
  {
    if x < 0 then x + TwoTo32 else x
  }

  /** The union read as a uint64 on a little-endian machine: word 0 low, word 1 high. */
  function Combine(w: seq<Int32>): bv64
    requires |w| == 2
  {
    (Bits32(w[0]) + TwoTo32 * Bits32(w[1])) as bv64
  }

  /** rng_seq_init_ints: the seed words, combined, then three warm-up steps. */
  function Init(ints: seq<Int32>, hash: Hash): bv64
  {
    Iterate(Combine(SeedWords(ints, hash)), 3)
  }

  // ---- doubles and ranges

  /** An output as the number it holds. */
  function Value(x: bv64): (v: nat)
    ensures v < TwoTo64
  {
    x as int
  }

  /** rng_double: the output divided by UINT64_MAX, so 1 exactly when the output is UINT64_MAX. */
  function Double(x: bv64): (d: real)
    ensures 0.0 <= d <= 1.0
    ensures d == 1.0 <==> Value(x) == MaxU64
  {
    Value(x) as real / MaxU64 as real
  }

  /** rng_range: the draw scaled into [min, max] of the two bounds, whatever their order. */
  function Range(d: real, x1: real, x2: real): real
  {
    var lo := if x1 < x2 then x1 else x2;
    var hi := if x2 > x1 then x2 else x1;
    (hi - lo) * d + lo
  }

  lemma RangeSymmetric(d: real, x1: real, x2: real)
    ensures Range(d, x1, x2) == Range(d, x2, x1)
  {
  }

  /** A draw in [0, 1] lands between the bounds, at the low one for 0 and the high one for 1. */
  lemma RangeBounds(d: real, x1: real, x2: real)
    requires 0.0 <= d <= 1.0
    ensures var lo := if x1 < x2 then x1 else x2;
      var hi := if x1 < x2 then x2 else x1;
      && lo <= Range(d, x1, x2) <= hi
      && (d == 0.0 ==> Range(d, x1, x2) == lo)
      && (d == 1.0 ==> Range(d, x1, x2) == hi)
  {
    var lo := if x1 < x2 then x1 else x2;
    var hi := if x1 < x2 then x2 else x1;
    assert 0.0 <= (hi - lo) * d <= hi - lo by {
      assert (hi - lo) * d <= (hi - lo) * 1.0;
    }
  }

  // ---- weighted bins

  function Sum(bins: seq<real>): real
  {
    if |bins| == 0 then 0.0 else Sum(bins[..|bins| - 1]) + bins[|bins| - 1]
  }

  /** The loop of rng_select_from_bins: the first i below bin_count - 1 whose
      running total exceeds the selection, else the last bin. */
  function Chosen(bins: seq<real>, select: real, i: nat): (r: nat)
    requires 1 <= |bins| && i < |bins|
    ensures i <= r < |bins|
    decreases |bins| - i
  {
    if i == |bins| - 1 then i
    else if Sum(bins[..i + 1]) > select then i
    else Chosen(bins, select, i + 1)
  }

  lemma {:induction false} SumPrefixGrows(bins: seq<real>, i: nat, j: nat)
    requires i <= j <= |bins| && forall k :: 0 <= k < |bins| ==> bins[k] >= 0.0
    ensures Sum(bins[..i]) <= Sum(bins[..j])
    decreases j
  {
    if i < j {
      SumPrefixGrows(bins, i, j - 1);
      assert bins[..j][..j - 1] == bins[..j - 1];
    }
  }

  /** With weights that are not negative, the chosen bin is the one whose
      slice [sum before it, sum through it) holds the selection. */
  lemma {:induction false} ChosenHoldsSelection(bins: seq<real>, select: real, i: nat)
    requires 1 <= |bins| && i < |bins| && forall k :: 0 <= k < |bins| ==> bins[k] >= 0.0
    requires Sum(bins[..i]) <= select
    ensures var r := Chosen(bins, select, i);
      Sum(bins[..r]) <= select && (r < |bins| - 1 ==> select < Sum(bins[..r + 1]))
    decreases |bins| - i
  {
    if i < |bins| - 1 && Sum(bins[..i + 1]) <= select {
      ChosenHoldsSelection(bins, select, i + 1);
    }
  }

  /** The weighted choice from the first bin on: a selection in [0, total) picks
      the bin whose slice holds it. */
  lemma ChoiceIsWeighted(bins: seq<real>, select: real)
    requires 1 <= |bins| && forall k :: 0 <= k < |bins| ==> bins[k] >= 0.0
    requires 0.0 <= select
    ensures var r := Chosen(bins, select, 0);
      r < |bins| && Sum(bins[..r]) <= select && (r < |bins| - 1 ==> select < Sum(bins[..r + 1]))
  {
    assert bins[..0] == [];
    ChosenHoldsSelection(bins, select, 0);
  }

  /** The summing loop of rng_select_from_bins. */
  method Total(bins: seq<real>) returns (total: real)
    ensures total == Sum(bins)
  {
    total := 0.0;
    var i := 0;
    while i < |bins|
      invariant 0 <= i <= |bins| && total == Sum(bins[..i])
    {
      assert bins[..i + 1][..i] == bins[..i];
      total := total + bins[i];
      i := i + 1;
    }
    assert bins[..i] == bins;
  }

  /** The choosing loop of rng_select_from_bins. */
  method ChooseBin(bins: seq<real>, select: real) returns (r: nat)
    requires 1 <= |bins|
    ensures r == Chosen(bins, select, 0) && r < |bins|
  {
    var accum := 0.0;
    var i := 0;
    while i < |bins| - 1
      invariant 0 <= i <= |bins| - 1
      invariant accum == Sum(bins[..i])
      invariant Chosen(bins, select, 0) == Chosen(bins, select, i)
    {
      assert bins[..i + 1][..i] == bins[..i];
      accum := accum + bins[i];
      if accum > select {
        return i;
      }
      i := i + 1;
    }
    r := i;
  }

  // ---- bytes from a set

  /** (size_t)(rng_double * set_len) as written: exact, it reaches set_len
      when the output is UINT64_MAX. */
  function IndexAsWritten(v: nat, n: nat): nat
  {
    (v * n) / MaxU64
  }

  /** The evidently intended index, a draw in [0, 1) scaled by set_len. */
  function Index(v: nat, n: nat): nat
  {
    (v * n) / TwoTo64
  }

  /** The intended index always selects an element of the set. */
  lemma IndexInSet(v: nat, n: nat)
    requires n > 0 && v < TwoTo64
    ensures Index(v, n) < n
  {
    MulLess(v, TwoTo64, n);
    DivBelow(v * n, TwoTo64, n);
  }

  /** The as-written index stays inside the set except for the output UINT64_MAX. */
  lemma IndexAsWrittenInSet(v: nat, n: nat)
    requires n > 0 && v < TwoTo64
    ensures IndexAsWritten(v, n) < n <==> v < MaxU64
  {
    if v < MaxU64 {
      MulLess(v, MaxU64, n);
      DivBelow(v * n, MaxU64, n);
    } else {
      assert v * n == MaxU64 * n;
    }
  }

  /** rng_bytes_from_set as written: the bytes drawn after state r, or None
      when a draw indexes past the set. */
  function BytesAsWritten(r: bv64, length: nat, choices: seq<Byte>): Option<seq<Byte>>
  {
    if length == 0 then Some([])
    else
      match BytesAsWritten(r, length - 1, choices)
      case None => None
      case Some(prefix) =>
        var k := IndexAsWritten(Value(Iterate(r, length)), |choices|);
        if k < |choices| then Some(prefix + [choices[k]]) else None
  }

  /** The corrected draws: byte i is the set element picked by the (i+1)-th output. */
  function Bytes(r: bv64, length: nat, choices: seq<Byte>): (b: seq<Byte>)
    requires |choices| > 0
    ensures |b| == length
  {
    if length == 0 then []
    else
      var k := Index(Value(Iterate(r, length)), |choices|);
      IndexInSet(Value(Iterate(r, length)), |choices|);
      Bytes(r, length - 1, choices) + [choices[k]]
  }

  /** Every drawn byte comes from the set. */
  lemma {:induction false} BytesFromSet(r: bv64, length: nat, choices: seq<Byte>)
    requires |choices| > 0
    ensures forall i :: 0 <= i < length ==> Bytes(r, length, choices)[i] in choices
  {
    if length > 0 {
      BytesFromSet(r, length - 1, choices);
      var prefix := Bytes(r, length - 1, choices);
      var k := Index(Value(Iterate(r, length)), |choices|);
      IndexInSet(Value(Iterate(r, length)), |choices|);
      assert Bytes(r, length, choices) == prefix + [choices[k]];
    }
  }

  /** The state whose next output is UINT64_MAX. */
  const AllOnesBefore: bv64 := 0x8080_c0c0_9f60_b0b0

  /** The bytes-from-set finding: one byte drawn from state 0x8080c0c09f60b0b0
      reads bytes[set_len], past the set; the intended index stays inside it. */
  lemma DrawPastSet(choices: seq<Byte>)
    requires |choices| > 0
    ensures Value(Next(AllOnesBefore)) == MaxU64
    ensures BytesAsWritten(AllOnesBefore, 1, choices) == None
    ensures Bytes(AllOnesBefore, 1, choices)[0] in choices
  {
    assert Iterate(AllOnesBefore, 1) == Next(AllOnesBefore);
    BytesFromSet(AllOnesBefore, 1, choices);
  }

  /** The characters of rng_string's `select`: digits, upper- and lower-case
      letters; sizeof(select) adds its NUL. */
  const StringChars: seq<Byte> := CharRange(48, 10) + CharRange(65, 26) + CharRange(97, 26)

  /** The `count` consecutive character codes from `first`. */
  function CharRange(first: Byte, count: nat): (s: seq<Byte>)
    requires first + count <= 0x100
    ensures |s| == count && forall i :: 0 <= i < count ==> s[i] == first + i
    decreases count
  {
    if count == 0 then [] else CharRange(first, count - 1) + [first + count - 1]
  }

  lemma NoNulInStringChars()
    ensures |StringChars| == 62 && 0 !in StringChars && StringChars[61] == 122
  {
    assert forall i :: 0 <= i < |StringChars| ==> StringChars[i] >= 48;
  }

  /** rng_string as written draws from sizeof(select) bytes, the terminating
      NUL included. Each draw uses the corrected Index (through Bytes), so the
      finding shown here is the NUL in the set alone. */
  function StringAsWritten(r: bv64, chars: nat): seq<Byte>
  {
    Bytes(r, chars, StringChars + [0])
  }

  /** The evidently intended rng_string: only the 62 letters and digits. */
  function String(r: bv64, chars: nat): (s: seq<Byte>)
    ensures |s| == chars && 0 !in s
  {
    NoNulInStringChars();
    BytesFromSet(r, chars, StringChars);
    Bytes(r, chars, StringChars)
  }

  /** The state whose next output selects the NUL. */
  const NulBefore: bv64 := 0xe414_a5de_6cef_cd7c

  /** The rng_string finding: from state 0xe414a5de6cefcd7c the one-character
      string is a NUL, an empty C string. */
  lemma StringCanEndEarly()
    ensures StringAsWritten(NulBefore, 1) == [0]
    ensures String(NulBefore, 1) != [0]
  {
    assert Iterate(NulBefore, 1) == Next(NulBefore);
    assert Value(Next(NulBefore)) == 0xfbef_befb_efbe_fbf0;
    assert Index(0xfbef_befb_efbe_fbf0, 63) == 62;
    NoNulInStringChars();
    assert (StringChars + [0])[62] == 0;
  }

  datatype Option<T> = None | Some(value: T)
}

/** The sequence object: rng_seq_t and the functions that advance it. */
module DetRngObject {
  import R = DetRng

  class RngSeq {
    var r: bv64

    /** rng_seq_init_ints: hash the ints into the two seed words, store
        them as one 64-bit state, then step three times. */
    constructor InitInts(ints: seq<R.Int32>, hash: R.Hash)
      ensures r == R.Init(ints, hash)
    {
      var seed: seq<R.Int32> := [R.HashInit, 2 * R.HashInit + 7];
      var i := 0;
      while i < |ints|
        invariant 0 <= i <= |ints| && seed == R.SeedWords(ints[..i], hash)
      {
        assert ints[..i + 1][..i] == ints[..i];
        var index := i % 2;
        seed := seed[index := hash(ints[i], seed[index])];
        i := i + 1;
      }
      assert ints[..i] == ints;
      r := R.Combine(seed);
      new;
      var k := 0;
      while k < 3
        invariant 0 <= k <= 3 && r == R.Iterate(R.Combine(seed), k)
      {
        var _ := Ui64();
        k := k + 1;
      }
    }

    /** rng_ui64: one step; the new state is the output. */
    method Ui64() returns (x: bv64)
      modifies this
      ensures r == R.Next(old(r)) && x == r
    {
      var s := r;
      s := R.Step17(s);
      s := R.Step31(s);
      s := R.Step8(s);
      r := s;
      x := s;
    }

    /** rng_double. */
    method NextDouble() returns (d: real)
      modifies this
      ensures r == R.Next(old(r)) && d == R.Double(r)
    {
      var x := Ui64();
      d := R.Double(x);
    }

    /** rng_range. */
    method NextRange(x1: real, x2: real) returns (v: real)
      modifies this
      ensures r == R.Next(old(r)) && v == R.Range(R.Double(r), x1, x2)
    {
      var d := NextDouble();
      v := R.Range(d, x1, x2);
    }

    /** rng_select_from_bins: one draw in [0, total), then the weighted choice. */
    method SelectFromBins(bins: seq<real>) returns (index: nat)
      requires 1 <= |bins|
      modifies this
      ensures r == R.Next(old(r)) && index < |bins|
      ensures index == R.Chosen(bins, R.Range(R.Double(r), 0.0, R.Sum(bins)), 0)
    {
      var total := R.Total(bins);
      var select := NextRange(0.0, total);
      index := R.ChooseBin(bins, select);
    }

    /** rng_bytes_from_set with the intended index: length draws, each picking
        one byte of the set, then a NUL at fill[length]. */
    method BytesFromSet(fill: array<R.Byte>, length: nat, bytes: seq<R.Byte>)
      requires length < fill.Length && |bytes| > 0
      modifies this, fill
      ensures r == R.Iterate(old(r), length)
      ensures fill[..length] == R.Bytes(old(r), length, bytes) && fill[length] == 0
      ensures fill[length + 1..] == old(fill[length + 1..])
    {
      ghost var start := r;
      var i := 0;
      while i < length
        invariant 0 <= i <= length && r == R.Iterate(start, i)
        invariant fill[..i] == R.Bytes(start, i, bytes)
        invariant fill[length + 1..] == old(fill[length + 1..])
      {
        var x := Ui64();
        R.IndexInSet(R.Value(x), |bytes|);
        fill[i] := bytes[R.Index(R.Value(x), |bytes|)];
        i := i + 1;
      }
      fill[length] := 0;
    }
  }
}
