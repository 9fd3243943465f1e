// The geometry side of src-xpl/xpl_command_render.c: colour packing, the
// vertex layout of a blended polygon, the two-generation geometry cache and
// the reset of a render command. Vertex positions are floats computed from
// normals; the model records which point each vertex is (a polygon corner
// or its pushed-out twin) rather than its coordinates.

module CommandRender {
  import opened Color

  /** TEMP_COORD_COUNT: the size of the static normal and coordinate buffers. */
  const TempCoordCount: nat := 1000
  const Two64: int := 0x1_0000_0000_0000_0000

  /** rgba: the uint8 arguments are promoted before they are shifted. */
  function RgbaBytes(r: bv8, g: bv8, b: bv8, a: bv8): bv32
  {
    (r as bv32) | ((g as bv32) << 8) | ((b as bv32) << 16) | ((a as bv32) << 24)
  }

  /** rgba packs exactly as the RGBA macro does, each byte landing in its channel. */
  lemma RgbaBytesPacks(r: bv8, g: bv8, b: bv8, a: bv8)
    ensures RgbaBytes(r, g, b, a) == Rgba(r as bv32, g as bv32, b as bv32, a as bv32)
    ensures Channel(RgbaBytes(r, g, b, a), 0) == r as bv32 && Channel(RgbaBytes(r, g, b, a), 1) == g as bv32
    ensures Channel(RgbaBytes(r, g, b, a), 2) == b as bv32 && Channel(RgbaBytes(r, g, b, a), 3) == a as bv32
  {
  }

  /** color_transparent: the colour's red, green and blue with alpha 0. */
  function Transparent(color: bv32): (t: bv32)
    ensures Channel(t, 0) == Channel(color, 0) && Channel(t, 1) == Channel(color, 1)
    ensures Channel(t, 2) == Channel(color, 2) && Channel(t, 3) == 0
  {
    Rgba(color & 0xff, (color >> 8) & 0xff, (color >> 16) & 0xff, 0)
  }

  /** Only an already clear colour is its own transparent twin. */
  lemma TransparentFixesOnlyClear(color: bv32)
    ensures Transparent(color) == color <==> Channel(color, 3) == 0
  {
    var t := Transparent(color);
    RepackIdentity(color);
    RepackIdentity(t);
    if Channel(color, 3) == 0 {
      RgbaInjective(Channel(t, 0), Channel(t, 1), Channel(t, 2), Channel(t, 3),
                    Channel(color, 0), Channel(color, 1), Channel(color, 2), Channel(color, 3));
    }
  }

  /** A vertex of the mesh: coords[i], or s_temp_coords[i], the corner pushed
      out by blend_r along its averaged normal. */
  datatype Corner = Outer(i: nat) | Inner(i: nat)

  /** The trailing iterator j: the corner before i, the last one before 0. */
  function Trailing(i: nat, n: nat): nat
    requires i < n
  {
    if i == 0 then n - 1 else i - 1
  }

  /** The two triangles of the blended border along the side from corner j to corner i. */
  function EdgeQuad(i: nat, n: nat): seq<Corner>
    requires i < n
  {
    var j := Trailing(i, n);
    [Outer(i), Outer(j), Inner(j), Inner(j), Inner(i), Outer(i)]
  }

  /** The border triangles of the first m sides. */
  function Edges(n: nat, m: nat): (s: seq<Corner>)
    requires m <= n
    ensures |s| == 6 * m
  {
    if m == 0 then [] else Edges(n, m - 1) + EdgeQuad(m - 1, n)
  }

  /** The interior fan: a triangle (0, i - 1, i) for each i from 2 below m. */
  function Fan(m: nat): (s: seq<Corner>)
    ensures |s| == if m < 2 then 0 else 3 * (m - 2)
  {
    if m <= 2 then [] else Fan(m - 1) + [Outer(0), Outer(m - 2), Outer(m - 1)]
  }

  /** Every vertex geometry_cache_polygon emits for n corners, in order. */
  function Mesh(n: nat): seq<Corner>
  {
    Edges(n, n) + Fan(n)
  }

  /** The colour of a vertex: the polygon's colour on its corners, the
      transparent colour on the pushed-out points. */
  function Shade(v: Corner, color: bv32): bv32
  {
    if v.Outer? then color else Transparent(color)
  }

  /** `vertices` as computed in size_t. */
  function Allocated(n: nat): nat
  {
    (n * 6 + (n - 2) * 3) % Two64
  }

  /** With at least two corners, and no more than the temporary buffers
      hold, the allocation is the mesh's size and the assertion holds. */
  lemma AllocatedFitsMesh(n: nat)
    requires 2 <= n <= TempCoordCount
    ensures Allocated(n) == |Mesh(n)| == n * 6 + (n - 2) * 3
  {
  }

  /** With fewer than two corners the size_t arithmetic wraps: one corner
      allocates room for 3 vertices and the edge loop writes 6. */
  lemma FewCornersWrap()
    ensures Allocated(1) == 3 && |Edges(1, 1)| == 6
    ensures Allocated(0) == Two64 - 6
  {
  }

  /** The six vertices at 6 * i are the border of side i. */
  lemma {:induction false} EdgesAt(n: nat, m: nat, i: nat)
    requires i < m <= n
    ensures Edges(n, m)[6 * i .. 6 * i + 6] == EdgeQuad(i, n)
    decreases m
  {
    if i < m - 1 {
      EdgesAt(n, m - 1, i);
      assert Edges(n, m)[..6 * (m - 1)] == Edges(n, m - 1);
    }
  }

  /** Each side of the polygon, from its trailing corner to itself, gets its
      border quad, in side order. */
  lemma MeshEdge(n: nat, i: nat)
    requires i < n
    ensures Mesh(n)[6 * i .. 6 * i + 6] == EdgeQuad(i, n)
  {
    EdgesAt(n, n, i);
    assert Mesh(n)[..6 * n] == Edges(n, n);
  }

  /** The three vertices at 3 * t after the fan's start are the triangle
      (0, t + 1, t + 2). */
  lemma {:induction false} FanAt(m: nat, t: nat)
    requires t + 2 < m
    ensures Fan(m)[3 * t .. 3 * t + 3] == [Outer(0), Outer(t + 1), Outer(t + 2)]
    decreases m
  {
    if t + 3 < m {
      FanAt(m - 1, t);
      assert Fan(m)[..3 * (m - 3)] == Fan(m - 1);
    }
  }

  lemma MeshFan(n: nat, t: nat)
    requires t + 2 < n
    ensures Mesh(n)[6 * n + 3 * t .. 6 * n + 3 * t + 3] == [Outer(0), Outer(t + 1), Outer(t + 2)]
  {
    FanAt(n, t);
    assert Mesh(n)[6 * n..] == Fan(n);
  }

  /** Every vertex names one of the n corners. */
  lemma {:induction false} EdgesInRange(n: nat, m: nat)
    requires m <= n
    ensures forall k :: 0 <= k < |Edges(n, m)| ==> Edges(n, m)[k].i < n
  {
    if m > 0 {
      EdgesInRange(n, m - 1);
    }
  }

  lemma {:induction false} FanInRange(m: nat)
    ensures forall k :: 0 <= k < |Fan(m)| ==> Fan(m)[k].i < m
  {
    if m > 2 {
      FanInRange(m - 1);
    }
  }

  lemma MeshInRange(n: nat)
    ensures forall k :: 0 <= k < |Mesh(n)| ==> Mesh(n)[k].i < n
  {
    EdgesInRange(n, n);
    FanInRange(n);
  }

  /** A cached geometry: its key, its vertices and their colours. */
  datatype Geometry = Geometry(key: int, mesh: seq<Corner>, colors: seq<bv32>)

  /** The vertex count drawn for a geometry. */
  function Vertices(g: Geometry): nat
  {
    |g.mesh|
  }

  /** The render command types, numbered as in the enum. */
  const Invalid: int := 0
  const Rect: int := 1
  const Triangle: int := 2
  const Polygon: int := 3
  const Line: int := 4
  const Text: int := 5
  const Scissor: int := 6

  /** What a reset hands back to the allocator. */
  datatype Allocation = Markup | TextString | Points

  /** The allocations a command of the given type owns. */
  function OwnedBy(kind: int): (r: seq<Allocation>)
    ensures r != [] <==> kind == Text || kind == Polygon
    ensures Points in r <==> kind == Polygon
  {
    if kind == Text then [Markup, TextString]
    else if kind == Polygon then [Points]
    else []
  }

  /** An xmat4 is column major: entry (row, col) is data[4 * col + row]. */
  function Entry(m: seq<real>, row: nat, col: nat): real
    requires |m| == 16 && row < 4 && col < 4
  {
    m[4 * col + row]
  }

  /** xmat4_identity. */
  function Identity(): (m: seq<real>)
    ensures |m| == 16
    ensures forall row: nat, col: nat :: row < 4 && col < 4 ==>
      Entry(m, row, col) == if row == col then 1.0 else 0.0
  {
    [1.0, 0.0, 0.0, 0.0,
     0.0, 1.0, 0.0, 0.0,
     0.0, 0.0, 1.0, 0.0,
     0.0, 0.0, 0.0, 1.0]
  }
}

/** The loops that fill the vertex arrays, the geometry cache and the render command. */
module CommandRenderObject {
  import opened FrameCache
  import opened Color
  import opened CommandRender

  /** One `v[k] = ...; c[k++] = ...;` step: the arrays grow by one vertex
      and its colour. */
  method Put(v: array<Corner>, c: array<bv32>, k: nat, x: Corner, shade: bv32, ghost color: bv32)
    requires v as object != c as object && k < v.Length == c.Length && shade == Shade(x, color)
    requires forall m :: 0 <= m < k ==> c[m] == Shade(v[m], color)
    modifies v, c
    ensures v[..k + 1] == old(v[..k]) + [x]
    ensures forall m :: 0 <= m < k + 1 ==> c[m] == Shade(v[m], color)
  {
    v[k] := x;
    c[k] := shade;
    assert v[..k] == old(v[..k]);
    assert v[..k + 1] == v[..k] + [x];
  }

  /** One pass of the edge loop: the six vertices of side i's border. */
  method EmitSide(v: array<Corner>, c: array<bv32>, k: nat, i: nat, j: nat, n: nat, color: bv32, transparent: bv32)
    requires i < n && j == Trailing(i, n) && transparent == Transparent(color)
    requires v as object != c as object && k + 6 <= v.Length == c.Length
    requires forall m :: 0 <= m < k ==> c[m] == Shade(v[m], color)
    modifies v, c
    ensures v[..k + 6] == old(v[..k]) + EdgeQuad(i, n)
    ensures forall m :: 0 <= m < k + 6 ==> c[m] == Shade(v[m], color)
  {
    ghost var s0 := v[..k];
    Put(v, c, k, Outer(i), color, color);
    Put(v, c, k + 1, Outer(j), color, color);
    Put(v, c, k + 2, Inner(j), transparent, color);
    Put(v, c, k + 3, Inner(j), transparent, color);
    Put(v, c, k + 4, Inner(i), transparent, color);
    Put(v, c, k + 5, Outer(i), color, color);
    assert v[..k + 6] == s0 + [Outer(i), Outer(j), Inner(j), Inner(j), Inner(i), Outer(i)];
  }

  /** The edge loop of geometry_cache_polygon: two border triangles per
      side, with j trailing i. */
  method EmitEdges(v: array<Corner>, c: array<bv32>, n: nat, color: bv32)
    requires v as object != c as object && 2 <= n && 6 * n <= v.Length == c.Length
    modifies v, c
    ensures v[..6 * n] == Edges(n, n)
    ensures forall m :: 0 <= m < 6 * n ==> c[m] == Shade(v[m], color)
  {
    var transparent := Rgba(color & 0xff, (color >> 8) & 0xff, (color >> 16) & 0xff, 0);
    var k := 0;
    var i, j := 0, n - 1;
    while i < n
      invariant 0 <= i <= n && k == 6 * i
      invariant i < n ==> j == Trailing(i, n)
      invariant v[..k] == Edges(n, i)
      invariant forall m :: 0 <= m < k ==> c[m] == Shade(v[m], color)
    {
      EmitSide(v, c, k, i, j, n, color, transparent);
      k := k + 6;
      j, i := i, i + 1;
    }
  }

  /** One pass of the interior loop: the triangle (0, i - 1, i). */
  method EmitTriangle(v: array<Corner>, c: array<bv32>, k: nat, i: nat, color: bv32)
    requires v as object != c as object && 1 <= i && k + 3 <= v.Length == c.Length
    requires forall m :: 0 <= m < k ==> c[m] == Shade(v[m], color)
    modifies v, c
    ensures v[..k + 3] == old(v[..k]) + [Outer(0), Outer(i - 1), Outer(i)]
    ensures forall m :: 0 <= m < k + 3 ==> c[m] == Shade(v[m], color)
  {
    ghost var s0 := v[..k];
    Put(v, c, k, Outer(0), color, color);
    Put(v, c, k + 1, Outer(i - 1), color, color);
    Put(v, c, k + 2, Outer(i), color, color);
    assert v[..k + 3] == s0 + [Outer(0), Outer(i - 1), Outer(i)];
  }

  /** The interior loop: the fan of triangles (0, i - 1, i) after the border. */
  method EmitFan(v: array<Corner>, c: array<bv32>, n: nat, color: bv32)
    requires v as object != c as object && 2 <= n && v.Length == c.Length == |Mesh(n)|
    requires v[..6 * n] == Edges(n, n)
    requires forall m :: 0 <= m < 6 * n ==> c[m] == Shade(v[m], color)
    modifies v, c
    ensures v[..] == Mesh(n)
    ensures forall m :: 0 <= m < v.Length ==> c[m] == Shade(v[m], color)
  {
    var k := 6 * n;
    var i := 2;
    while i < n
      invariant 2 <= i <= n && k == 6 * n + 3 * (i - 2)
      invariant v[..k] == Edges(n, n) + Fan(i)
      invariant forall m :: 0 <= m < k ==> c[m] == Shade(v[m], color)
    {
      EmitTriangle(v, c, k, i, color);
      k := k + 3;
      i := i + 1;
    }
    assert v[..] == v[..k];
  }

  /** The vertex and colour arrays of geometry_cache_polygon; k ends at
      `vertices`, as its assertion demands. */
  method EmitPolygon(n: nat, color: bv32) returns (v: array<Corner>, c: array<bv32>)
    requires 2 <= n <= TempCoordCount
    ensures v.Length == c.Length == Allocated(n)
    ensures v[..] == Mesh(n)
    ensures forall k :: 0 <= k < c.Length ==> c[k] == Shade(v[k], color)
  {
    var vertices := n * 6 + (n - 2) * 3;
    AllocatedFitsMesh(n);
    v := new Corner[vertices](_ => Outer(0));
    c := new bv32[vertices];
    EmitEdges(v, c, n, color);
    EmitFan(v, c, n, color);
  }

  /** geometry_cache_polygon without its final geometry_cache call: the
      entry for a polygon of n corners. */
  method PolygonGeometry(key: int, n: nat, color: bv32) returns (g: Geometry)
    requires 2 <= n <= TempCoordCount
    ensures g.key == key && g.mesh == Mesh(n) && Vertices(g) == n * 6 + (n - 2) * 3
    ensures |g.colors| == |g.mesh| && forall k :: 0 <= k < |g.mesh| ==> g.colors[k] == Shade(g.mesh[k], color)
  {
    var v, c := EmitPolygon(n, color);
    g := Geometry(key, v[..], c[..]);
  }

  /** g_geom_cache: the two uthash tables of geometry entries by key. */
  class GeometryCache {
    var lastFrame: map<int, Geometry>
    var thisFrame: map<int, Geometry>

    ghost predicate Valid()
      reads this
    {
      Disjoint(Tables(lastFrame, thisFrame))
    }

    function Current(): Tables<Geometry>
      reads this
    {
      Tables(lastFrame, thisFrame)
    }

    /** geometry_cache_create: two empty tables. */
    constructor ()
      ensures Valid() && Current() == Tables(map[], map[])
    {
      lastFrame, thisFrame := map[], map[];
    }

    /** geometry_cache_get. */
    method Get(key: int) returns (g: Option<Geometry>)
      requires Valid()
      modifies this
      ensures Valid()
      ensures (Current(), g) == Fetch(old(Current()), key)
    {
      FetchMovesOnly(Current(), key);
      if key in thisFrame {
        return Some(thisFrame[key]);
      }
      if key !in lastFrame {
        return None;
      }
      g := Some(lastFrame[key]);
      lastFrame := lastFrame - {key};
      thisFrame := thisFrame[key := g.value];
    }

    /** geometry_cache: add a geometry built after a miss. */
    method Cache(g: Geometry)
      requires Valid() && g.key !in Held(Current())
      modifies this
      ensures Valid() && Current() == Added(old(Current()), g.key, g)
    {
      thisFrame := thisFrame[g.key := g];
    }

    /** geometry_cache_advance_frame. */
    method AdvanceFrame()
      requires Valid()
      modifies this
      ensures Valid() && Current() == Advanced(old(Current()))
    {
      lastFrame := thisFrame;
      thisFrame := map[];
    }

    /** The cache pass of draw_polygon under an already computed hash: a
        held geometry is reused, otherwise one is built and cached. */
    method PolygonFor(key: int, n: nat, color: bv32) returns (g: Geometry)
      requires Valid() && 2 <= n <= TempCoordCount
      modifies this
      ensures Valid() && key in thisFrame && thisFrame[key] == g
      ensures key in Held(old(Current())) ==> g == Held(old(Current()))[key] && Held(Current()) == Held(old(Current()))
      ensures key !in Held(old(Current())) ==> g.key == key && g.mesh == Mesh(n) && Held(Current()) == Held(old(Current()))[key := g]
    {
      FetchFinds(Current(), key);
      var found := Get(key);
      if found.Some? {
        return found.value;
      }
      g := PolygonGeometry(key, n, color);
      AddedAfterMiss(old(Current()), key, g);
      Cache(g);
    }
  }

  /** An xpl_render_cmd_t, with the fields content_reset touches. */
  class RenderCmd {
    var kind: int
    var matrix: seq<real>
    var pointsLen: nat

    constructor (kind: int, matrix: seq<real>, pointsLen: nat)
      ensures this.kind == kind && this.matrix == matrix && this.pointsLen == pointsLen
    {
      this.kind, this.matrix, this.pointsLen := kind, matrix, pointsLen;
    }

    /** xpl_render_cmd_content_reset: frees what the command owns, clears a
        polygon's length, and leaves an invalid command with the identity
        matrix, which owns nothing more. */
    method ContentReset() returns (freed: seq<Allocation>)
      modifies this
      ensures freed == OwnedBy(old(kind))
      ensures kind == Invalid && matrix == Identity() && OwnedBy(kind) == []
      ensures pointsLen == if old(kind) == Polygon then 0 else old(pointsLen)
    {
      freed := [];
      if kind == Text {
        freed := [Markup, TextString];
      } else if kind == Polygon {
        freed := [Points];
        pointsLen := 0;
      }
      matrix := Identity();
      kind := Invalid;
    }
  }
}
