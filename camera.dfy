// camera_calculate_center of src/game/camera.c: the nudged centre is pushed
// back so that a view of draw_area's size stays inside the 32-bit playfield,
// then the centre and the view's corners are stored as uint32. The
// intermediate values are int64_t; none of them can overflow 64 bits.

module Camera {
  import opened GameUtil

  /** camera.center, camera.min and camera.max after a call. */
  datatype Frame = Frame(center: Position, min: Position, max: Position)

  /** `v >> 1` on an int: an arithmetic shift, rounding toward minus infinity. */
  function Half(v: Int32): int
  {
    v / 2
  }

  /** The `min < 0` step: a coordinate closer than half to 0 is moved out to half. */
  function Raise(v: int, half: int): int
  {
    if v - half < 0 then v - (v - half) else v
  }

  /** The `max > UINT32_MAX` step: how far the far edge runs past UINT32_MAX. */
  function Excess(v: int, half: int): int
  {
    if v + half > U32Max then v + half - U32Max else 0
  }

  /** Both steps on one axis. */
  function ClampAxis(v: int, half: int): int
  {
    var r := Raise(v, half);
    r - Excess(r, half)
  }

  /** The stores into camera.center, camera.min and camera.max. */
  function Store(x: int, y: int, hw: int, hh: int): Frame
  {
    var c := Position(ToU32(x), ToU32(y));
    Frame(c, Position(ToU32(c.px - hw), ToU32(c.py - hh)), Position(ToU32(c.px + hw), ToU32(c.py + hh)))
  }

  /** camera_calculate_center as written: x running past UINT32_MAX is
      subtracted from y, and x keeps its value. */
  function ClampedAsWritten(center: Position, nudgeX: Int32, nudgeY: Int32, width: Int32, height: Int32): Frame
  {
    var hw := Half(width);
    var hh := Half(height);
    var x := Raise(center.px + nudgeX, hw);
    var y := ClampAxis(center.py + nudgeY - Excess(x, hw), hh);
    Store(x, y, hw, hh)
  }

  /** The evidently intended camera_calculate_center: each axis clamped on its own. */
  function Clamped(center: Position, nudgeX: Int32, nudgeY: Int32, width: Int32, height: Int32): Frame
  {
    var hw := Half(width);
    var hh := Half(height);
    Store(ClampAxis(center.px + nudgeX, hw), ClampAxis(center.py + nudgeY, hh), hw, hh)
  }

  /** The intended clamp stores the two clamped axes. */
  lemma ClampedStores(center: Position, nudgeX: Int32, nudgeY: Int32, width: Int32, height: Int32, x: int, y: int)
    requires x == ClampAxis(center.px + nudgeX, Half(width))
    requires y == ClampAxis(center.py + nudgeY, Half(height))
    ensures Store(x, y, Half(width), Half(height)) == Clamped(center, nudgeX, nudgeY, width, height)
  {
  }

  /** The code as written stores the raised x and the y that absorbed x's overshoot. */
  lemma ClampedAsWrittenStores(center: Position, nudgeX: Int32, nudgeY: Int32, width: Int32, height: Int32, x: int, y: int)
    requires x == Raise(center.px + nudgeX, Half(width))
    requires y == ClampAxis(center.py + nudgeY - Excess(x, Half(width)), Half(height))
    ensures Store(x, y, Half(width), Half(height)) == ClampedAsWritten(center, nudgeX, nudgeY, width, height)
  {
  }

  /** One clamped axis keeps half a view from either end of the uint32 range,
      and leaves a coordinate that already does alone. */
  lemma ClampAxisInside(v: int, half: int)
    requires 0 <= half && 2 * half <= U32Max
    ensures half <= ClampAxis(v, half) <= U32Max - half
    ensures half <= v <= U32Max - half ==> ClampAxis(v, half) == v
  {
  }

  /** With a draw area of non-negative size the stored view is exactly
      centre - half to centre + half, with no uint32 wrap-around, and the
      centre lies inside it. */
  lemma ClampedFrameInside(center: Position, nudgeX: Int32, nudgeY: Int32, width: Int32, height: Int32)
    requires 0 <= width && 0 <= height
    ensures var f := Clamped(center, nudgeX, nudgeY, width, height);
      && f.min.px == f.center.px - Half(width) && f.max.px == f.center.px + Half(width)
      && f.min.py == f.center.py - Half(height) && f.max.py == f.center.py + Half(height)
      && InBounds(f.center, 0, f.min, f.max)
  {
    var hw, hh := Half(width), Half(height);
    ClampAxisInside(center.px + nudgeX, hw);
    ClampAxisInside(center.py + nudgeY, hh);
    var f := Clamped(center, nudgeX, nudgeY, width, height);
    ZeroFudgeIsInclusiveBox(f.center, f.min, f.max);
  }

  /** The nudge is added before clamping: a nudged centre at least half a view
      from the edges is kept as it is. */
  lemma ClampedKeepsNudgedCentre(center: Position, nudgeX: Int32, nudgeY: Int32, width: Int32, height: Int32)
    requires 0 <= width && 0 <= height
    requires Half(width) <= center.px + nudgeX <= U32Max - Half(width)
    requires Half(height) <= center.py + nudgeY <= U32Max - Half(height)
    ensures Clamped(center, nudgeX, nudgeY, width, height).center == Position(center.px + nudgeX, center.py + nudgeY)
  {
    ClampAxisInside(center.px + nudgeX, Half(width));
    ClampAxisInside(center.py + nudgeY, Half(height));
  }

  /** Clamping the stored centre again, without a nudge, changes nothing. */
  lemma ClampedIdempotent(center: Position, nudgeX: Int32, nudgeY: Int32, width: Int32, height: Int32)
    requires 0 <= width && 0 <= height
    ensures var f := Clamped(center, nudgeX, nudgeY, width, height);
      Clamped(f.center, 0, 0, width, height) == f
  {
    var hw, hh := Half(width), Half(height);
    ClampAxisInside(center.px + nudgeX, hw);
    ClampAxisInside(center.py + nudgeY, hh);
    var f := Clamped(center, nudgeX, nudgeY, width, height);
    ClampAxisInside(f.center.px, hw);
    ClampAxisInside(f.center.py, hh);
  }

  /** Away from the right edge the code as written agrees with the intended one. */
  lemma ClampedAsWrittenAgrees(center: Position, nudgeX: Int32, nudgeY: Int32, width: Int32, height: Int32)
    requires 0 <= width
    requires Raise(center.px + nudgeX, Half(width)) + Half(width) <= U32Max
    ensures ClampedAsWritten(center, nudgeX, nudgeY, width, height) == Clamped(center, nudgeX, nudgeY, width, height)
  {
  }

  /** The camera finding: a centre at x = UINT32_MAX with a 100 x 100 draw
      area moves y down by 50 and stores max.px = 49, a view that wraps past
      the playfield's right edge; the intended clamp moves x instead. */
  lemma RightEdgeMovesY()
    ensures var f := ClampedAsWritten(Position(U32Max, 1000), 0, 0, 100, 100);
      f.center == Position(U32Max, 950) && f.max.px == 49 && f.max.px < f.min.px
    ensures var f := Clamped(Position(U32Max, 1000), 0, 0, 100, 100);
      f.center == Position(U32Max - 50, 1000) && f.max.px == U32Max
  {
    AsWrittenAtRightEdge();
    ClampedAtRightEdge();
    WrapOnce(U32Max + 50);
  }

  /** The steps of the code as written for that centre. */
  lemma AsWrittenAtRightEdge()
    ensures ClampedAsWritten(Position(U32Max, 1000), 0, 0, 100, 100) == Store(U32Max, 950, 50, 50)
  {
    assert Half(100) == 50;
    assert Raise(U32Max, 50) == U32Max && Excess(U32Max, 50) == 50;
    assert ClampAxis(950, 50) == 950;
  }

  /** The steps of the intended clamp for that centre. */
  lemma ClampedAtRightEdge()
    ensures Clamped(Position(U32Max, 1000), 0, 0, 100, 100) == Store(U32Max - 50, 1000, 50, 50)
  {
    assert Half(100) == 50;
    assert ClampAxis(1000, 50) == 1000;
    assert ClampAxis(U32Max, 50) == U32Max - 50;
  }

  /** A value one wrap above the uint32 range loses 2^32. */
  lemma WrapOnce(v: int)
    requires Two32 <= v < 2 * Two32
    ensures ToU32(v) == v - Two32
  {
  }
}

/** The global camera and the step-by-step computation on int64_t locals. */
module CameraObject {
  import opened GameUtil
  import C = Camera

  class Camera {
    /** camera.draw_area's size. */
    var drawWidth: Int32
    var drawHeight: Int32
    var center: Position
    var min: Position
    var max: Position

    constructor (width: Int32, height: Int32)
      ensures drawWidth == width && drawHeight == height
      ensures center == min == max == Position(0, 0)
    {
      drawWidth, drawHeight := width, height;
      center, min, max := Position(0, 0), Position(0, 0), Position(0, 0);
    }

    function Current(): C.Frame
      reads this
    {
      C.Frame(center, min, max)
    }

    /** The stores that end camera_calculate_center. */
    method StoreFrame(x: int, y: int, halfWidth: int, halfHeight: int)
      modifies this
      ensures Current() == C.Store(x, y, halfWidth, halfHeight)
      ensures drawWidth == old(drawWidth) && drawHeight == old(drawHeight)
    {
      center := Position(ToU32(x), ToU32(y));
      min := Position(ToU32(center.px - halfWidth), ToU32(center.py - halfHeight));
      max := Position(ToU32(center.px + halfWidth), ToU32(center.py + halfHeight));
    }

    /** camera_calculate_center with each axis clamped on its own. */
    method CalculateCenter(c: Position, nudgeX: Int32, nudgeY: Int32)
      modifies this
      ensures Current() == C.Clamped(c, nudgeX, nudgeY, drawWidth, drawHeight)
      ensures drawWidth == old(drawWidth) && drawHeight == old(drawHeight)
    {
      var x: int := c.px;
      var y: int := c.py;
      x := x + nudgeX;
      y := y + nudgeY;
      var halfWidth := drawWidth / 2;
      var halfHeight := drawHeight / 2;
      var minX := x - halfWidth;
      if minX < 0 {
        x := x - minX;
      }
      var maxX := x + halfWidth;
      if maxX > U32Max {
        x := x - (maxX - U32Max);
      }
      assert x == C.ClampAxis(c.px + nudgeX, C.Half(drawWidth));
      var minY := y - halfHeight;
      if minY < 0 {
        y := y - minY;
      }
      var maxY := y + halfHeight;
      if maxY > U32Max {
        y := y - (maxY - U32Max);
      }
      assert y == C.ClampAxis(c.py + nudgeY, C.Half(drawHeight));
      C.ClampedStores(c, nudgeX, nudgeY, drawWidth, drawHeight, x, y);
      StoreFrame(x, y, halfWidth, halfHeight);
    }

    /** camera_calculate_center as written: the x overshoot is taken off y. */
    method CalculateCenterAsWritten(c: Position, nudgeX: Int32, nudgeY: Int32)
      modifies this
      ensures Current() == C.ClampedAsWritten(c, nudgeX, nudgeY, drawWidth, drawHeight)
      ensures drawWidth == old(drawWidth) && drawHeight == old(drawHeight)
    {
      var x: int := c.px;
      var y: int := c.py;
      x := x + nudgeX;
      y := y + nudgeY;
      var halfWidth := drawWidth / 2;
      var halfHeight := drawHeight / 2;
      var minX := x - halfWidth;
      if minX < 0 {
        x := x - minX;
      }
      var maxX := x + halfWidth;
      if maxX > U32Max {
        y := y - (maxX - U32Max);
      }
      assert x == C.Raise(c.px + nudgeX, C.Half(drawWidth));
      ghost var shifted := c.py + nudgeY - C.Excess(x, C.Half(drawWidth));
      assert y == shifted;
      var minY := y - halfHeight;
      if minY < 0 {
        y := y - minY;
      }
      assert y == C.Raise(shifted, C.Half(drawHeight));
      var maxY := y + halfHeight;
      if maxY > U32Max {
        y := y - (maxY - U32Max);
      }
      assert y == C.ClampAxis(shifted, C.Half(drawHeight));
      C.ClampedAsWrittenStores(c, nudgeX, nudgeY, drawWidth, drawHeight, x, y);
      StoreFrame(x, y, halfWidth, halfHeight);
    }
  }
}
