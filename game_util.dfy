// The position helpers of include/game/util.h: the fudged box test done in
// 64-bit arithmetic, and the reduction of a position into the playfield.
// A position_t holds two uint32 coordinates.

module GameUtil {
  import opened Arith

  const Two32: int := 0x1_0000_0000
  /** UINT32_MAX. */
  const U32Max: int := 0xFFFF_FFFF
  const Two63: int := 0x8000_0000_0000_0000
  const Two64: int := 0x1_0000_0000_0000_0000

  type Uint32 = x: int | 0 <= x < 0x1_0000_0000
  type Int32 = x: int | -0x8000_0000 <= x < 0x8000_0000

  datatype Position = Position(px: Uint32, py: Uint32)

  /** A value stored into a uint32: reduced modulo 2^32. */
  function ToU32(v: int): (u: Uint32)
    ensures 0 <= v < Two32 ==> u == v
  {
    v % Two32
  }

  /** An int64_t result in two's complement. */
  function Wrap64(v: int): (w: int)
    ensures -Two63 <= w < Two63
    ensures -Two63 <= v < Two63 ==> w == v
  {
    (v + Two63) % Two64 - Two63
  }

  /** position_in_bounds: the position, widened by fudge on every side, meets
      the box [min, max]; coordinates and fudge are widened to int64_t first. */
  function InBounds(p: Position, fudge: Int32, min: Position, max: Position): bool
  {
    if Wrap64(p.px + fudge) < min.px then false
    else if Wrap64(p.py + fudge) < min.py then false
    else if Wrap64(p.px - fudge) > max.px then false
    else if Wrap64(p.py - fudge) > max.py then false
    else true
  }

  /** No 64-bit sum of a uint32 and an int wraps, so the test is the exact
      box test on the mathematical values. */
  lemma InBoundsIsBox(p: Position, fudge: Int32, min: Position, max: Position)
    ensures InBounds(p, fudge, min, max) <==>
      && min.px <= p.px + fudge && p.px - fudge <= max.px
      && min.py <= p.py + fudge && p.py - fudge <= max.py
  {
  }

  /** With fudge 0 it is the inclusive box test. */
  lemma ZeroFudgeIsInclusiveBox(p: Position, min: Position, max: Position)
    ensures InBounds(p, 0, min, max) <==> min.px <= p.px <= max.px && min.py <= p.py <= max.py
  {
    InBoundsIsBox(p, 0, min, max);
  }

  /** A larger fudge accepts every position a smaller one does. */
  lemma MoreFudgeAcceptsMore(p: Position, f: Int32, g: Int32, min: Position, max: Position)
    requires f <= g && InBounds(p, f, min, max)
    ensures InBounds(p, g, min, max)
  {
    InBoundsIsBox(p, f, min, max);
    InBoundsIsBox(p, g, min, max);
  }

  /** position_mod's result: both coordinates reduced modulo PLAYFIELD_MAX. */
  function Wrapped(p: Position, playfieldMax: int): (r: Position)
    requires playfieldMax > 0
    ensures r.px < playfieldMax && r.py < playfieldMax
  {
    Position(p.px % playfieldMax, p.py % playfieldMax)
  }

  /** A position already inside the playfield is left alone, so reducing twice
      is reducing once. */
  lemma WrappedKeepsInside(p: Position, playfieldMax: int)
    requires playfieldMax > 0 && p.px < playfieldMax && p.py < playfieldMax
    ensures Wrapped(p, playfieldMax) == p
  {
    DivMod(p.px, playfieldMax, 0, p.px);
    DivMod(p.py, playfieldMax, 0, p.py);
  }

  lemma WrappedIdempotent(p: Position, playfieldMax: int)
    requires playfieldMax > 0
    ensures Wrapped(Wrapped(p, playfieldMax), playfieldMax) == Wrapped(p, playfieldMax)
  {
    WrappedKeepsInside(Wrapped(p, playfieldMax), playfieldMax);
  }

  /** Reduction moves each coordinate by a whole number of playfields. */
  lemma WrappedByPlayfields(p: Position, playfieldMax: int)
    requires playfieldMax > 0
    ensures (p.px - Wrapped(p, playfieldMax).px) % playfieldMax == 0
    ensures (p.py - Wrapped(p, playfieldMax).py) % playfieldMax == 0
  {
    RowOf(p.px, playfieldMax);
    DivMod(p.px - p.px % playfieldMax, playfieldMax, p.px / playfieldMax, 0);
    RowOf(p.py, playfieldMax);
    DivMod(p.py - p.py % playfieldMax, playfieldMax, p.py / playfieldMax, 0);
  }
}

/** position_mod works through a pointer to the caller's position_t. */
module GameUtilObject {
  import opened GameUtil

  class PositionRef {
    var px: Uint32
    var py: Uint32

    constructor (p: Position)
      ensures px == p.px && py == p.py
    {
      px := p.px;
      py := p.py;
    }

    function Value(): Position
      reads this
    {
      Position(px, py)
    }

    /** position_mod: reduce both coordinates in place. PLAYFIELD_MAX is a parameter. */
    method Mod(playfieldMax: int)
      requires playfieldMax > 0
      modifies this
      ensures Value() == Wrapped(old(Value()), playfieldMax)
    {
      px := px % playfieldMax;
      py := py % playfieldMax;
    }
  }
}
