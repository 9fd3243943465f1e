// The skyline allocator of src-xpl/xpl_texture_atlas.c. The node list is a
// sequence of segments (left, top, size) that tile the usable width [1,
// width - 1) of the atlas from left to right; a segment's top is the lowest
// free row above it. A request for a width x height region picks the best
// segment, raises the skyline over the region and merges level neighbours.

module TextureAtlas {

  /** xpl_texture_atlas_node_t without its list links. */
  datatype Node = Node(left: int, top: int, size: int)

  /** xirect: origin and size. */
  datatype Rect = Rect(x: int, y: int, width: int, height: int)

  const NoRegion := Rect(-1, -1, 0, 0)

  function Max(a: int, b: int): int { if a >= b then a else b }

  /** The segments start at `start`, each begins where the previous one
      ends, none has negative size, and the last ends at `end`. */
  predicate Chain(start: int, ns: seq<Node>, end: int)
    decreases |ns|
  {
    if ns == [] then start == end
    else ns[0].left == start && ns[0].size >= 0 && Chain(start + ns[0].size, ns[1..], end)
  }

  /** Every segment's top is below the top border row. */
  predicate AboveBorder(ns: seq<Node>)
  {
    forall k :: 0 <= k < |ns| ==> ns[k].top >= 1
  }

  /** A well-formed skyline for an atlas of the given width. */
  predicate Skyline(ns: seq<Node>, width: int)
  {
    |ns| > 0 && Chain(1, ns, width - 1) && AboveBorder(ns)
  }

  /** texture_atlas_add_initial_node: one segment over the whole usable width. */
  function Initial(width: int): (ns: seq<Node>)
    requires width >= 2
    ensures Skyline(ns, width)
  {
    [Node(1, 1, width - 2)]
  }

  /** The skyline height at column px: the top of the segment covering it. */
  function HeightAt(start: int, ns: seq<Node>, px: int): int
    decreases |ns|
  {
    if ns == [] then 0
    else if px < start + ns[0].size then ns[0].top
    else HeightAt(start + ns[0].size, ns[1..], px)
  }

  // ---- chains split and join

  lemma {:induction false} ChainConcat(s: int, a: seq<Node>, m: int, c: seq<Node>, e: int)
    requires Chain(s, a, m) && Chain(m, c, e)
    ensures Chain(s, a + c, e)
    decreases |a|
  {
    if a == [] {
      assert a + c == c;
    } else {
      assert (a + c)[1..] == a[1..] + c;
      ChainConcat(s + a[0].size, a[1..], m, c, e);
    }
  }

  /** Where segment b starts (the end when b is past the last segment). */
  function LeftOf(s: int, ns: seq<Node>, e: int, b: nat): int
  {
    if b < |ns| then ns[b].left else e
  }

  lemma {:induction false} ChainSplit(s: int, ns: seq<Node>, e: int, b: nat)
    requires Chain(s, ns, e) && b <= |ns|
    ensures Chain(s, ns[..b], LeftOf(s, ns, e, b)) && Chain(LeftOf(s, ns, e, b), ns[b..], e)
    decreases |ns|
  {
    if b > 0 {
      ChainSplit(s + ns[0].size, ns[1..], e, b - 1);
      assert ns[1..][..b - 1] == ns[..b][1..];
      assert ns[1..][b - 1..] == ns[b..];
    }
  }

  lemma {:induction false} HeightAtConcat(s: int, a: seq<Node>, m: int, c: seq<Node>, px: int)
    requires Chain(s, a, m) && s <= px
    ensures HeightAt(s, a + c, px) == if px < m then HeightAt(s, a, px) else HeightAt(m, c, px)
    decreases |a|
  {
    if a == [] {
      assert a + c == c;
    } else {
      assert (a + c)[1..] == a[1..] + c;
      assert (a + c)[0] == a[0];
      ChainEndsAfterStart(s + a[0].size, a[1..], m);
      if px >= s + a[0].size {
        HeightAtConcat(s + a[0].size, a[1..], m, c, px);
      }
    }
  }

  lemma {:induction false} ChainEndsAfterStart(s: int, ns: seq<Node>, e: int)
    requires Chain(s, ns, e)
    ensures s <= e
    decreases |ns|
  {
    if ns != [] {
      ChainEndsAfterStart(s + ns[0].size, ns[1..], e);
    }
  }

  // ---- fit

  /** How many segments from `pos` on start before `limit`: the ones a
      region ending at `limit` spans. */
  function SpanCount(pos: int, ns: seq<Node>, limit: int): (n: nat)
    ensures n <= |ns|
    decreases |ns|
  {
    if ns == [] || pos >= limit then 0 else 1 + SpanCount(pos + ns[0].size, ns[1..], limit)
  }

  /** The highest top among some segments. */
  function MaxTop(ns: seq<Node>): (t: int)
    requires |ns| > 0
    ensures forall k :: 0 <= k < |ns| ==> ns[k].top <= t
  {
    if |ns| == 1 then ns[0].top
    else
      var t := Max(MaxTop(ns[..|ns| - 1]), ns[|ns| - 1].top);
      assert forall k :: 0 <= k < |ns| - 1 ==> ns[..|ns| - 1][k] == ns[k];
      t
  }

  /** texture_atlas_fit: the row a width x height region starting at
      segment `index` would sit on (the highest top of the segments it
      spans), or -1 when it runs past the right border or the top border.
      A zero-width region spans nothing and sits on the segment's own top. */
  function Fit(ns: seq<Node>, index: nat, w: int, h: int, width: int, height: int): int
    requires index < |ns|
  {
    var x := ns[index].left;
    if x + w > width - 1 then -1
    else
      var n := SpanCount(x, ns[index..], x + w);
      if n == 0 then ns[index].top
      else
        var t := MaxTop(ns[index..index + n]);
        if t + h > height - 1 then -1 else t
  }

  /** A fit lies inside the border and on or above every segment it spans. */
  lemma FitInsideBorder(ns: seq<Node>, index: nat, w: int, h: int, width: int, height: int)
    requires Skyline(ns, width) && index < |ns| && w > 0 && h >= 0
    requires Fit(ns, index, w, h, width, height) >= 0
    ensures var y := Fit(ns, index, w, h, width, height);
      && 1 <= ns[index].left && ns[index].left + w <= width - 1
      && 1 <= y && y + h <= height - 1
      && forall k :: index <= k < |ns| && ns[k].left < ns[index].left + w ==> ns[k].top <= y
  {
    var x := ns[index].left;
    ChainSplit(1, ns, width - 1, index);
    LeftsFromStart(1, ns[..index], x);
    var n := SpanCount(x, ns[index..], x + w);
    SpanCovers(x, ns[index..], width - 1, x + w);
    assert n >= 1;
    var y := MaxTop(ns[index..index + n]);
    forall k | index <= k < |ns| && ns[k].left < x + w
      ensures ns[k].top <= y
    {
      assert ns[index..][k - index] == ns[k];
      assert ns[index..index + n][k - index] == ns[k];
    }
    assert ns[index..index + n][0] == ns[index];
  }

  /** The first segment of a chain from s starts at s, so a prefix ending at x means x >= s. */
  lemma LeftsFromStart(s: int, a: seq<Node>, x: int)
    requires Chain(s, a, x)
    ensures s <= x
  {
    ChainEndsAfterStart(s, a, x);
  }

  /** The segments a span counts are exactly those starting before the limit. */
  lemma {:induction false} SpanCovers(pos: int, ns: seq<Node>, e: int, limit: int)
    requires Chain(pos, ns, e) && limit <= e
    ensures var n := SpanCount(pos, ns, limit);
      && (forall k :: 0 <= k < |ns| ==> (k < n <==> ns[k].left < limit))
      && (pos < limit ==> n >= 1)
    decreases |ns|
  {
    if ns != [] {
      ChainEndsAfterStart(pos + ns[0].size, ns[1..], e);
      SpanCovers(pos + ns[0].size, ns[1..], e, limit);
      LeftsAscend(pos, ns, e);
      forall k | 1 <= k < |ns|
        ensures ns[k] == ns[1..][k - 1]
      {
      }
    } else {
      assert pos == e;
    }
  }

  /** Segment starts never decrease along a chain. */
  lemma {:induction false} LeftsAscend(s: int, ns: seq<Node>, e: int)
    requires Chain(s, ns, e)
    ensures forall k :: 0 <= k < |ns| ==> s <= ns[k].left <= e
    decreases |ns|
  {
    if ns != [] {
      LeftsAscend(s + ns[0].size, ns[1..], e);
      ChainEndsAfterStart(s, ns, e);
      forall k | 1 <= k < |ns|
        ensures s <= ns[k].left <= e
      {
        assert ns[k] == ns[1..][k - 1];
      }
    }
  }

  // ---- placing a region

  /** The shrink pass of xpl_texture_atlas_get_region over the segments
      after the new one: a segment starting before `pe` (the end of the last
      kept segment) is cut to start at `pe`, and dropped when nothing of it
      is left. */
  function Shrink(pe: int, rest: seq<Node>): seq<Node>
    decreases |rest|
  {
    if rest == [] then []
    else
      var c := rest[0];
      if c.left < pe then
        var cut := Node(pe, c.top, c.size - (pe - c.left));
        if cut.size <= 0 then Shrink(pe, rest[1..])
        else [cut] + Shrink(cut.left + cut.size, rest[1..])
      else [c] + Shrink(c.left + c.size, rest[1..])
  }

  /** Shrinking a chain from s at any pe between s and its end gives a
      chain from pe with the same heights from pe on. */
  lemma {:induction false} ShrinkSpec(s: int, rest: seq<Node>, e: int, pe: int)
    requires Chain(s, rest, e) && AboveBorder(rest) && s <= pe <= e
    ensures Chain(pe, Shrink(pe, rest), e) && AboveBorder(Shrink(pe, rest))
    ensures forall px :: pe <= px ==> HeightAt(pe, Shrink(pe, rest), px) == HeightAt(s, rest, px)
    decreases |rest|
  {
    if rest != [] {
      var c := rest[0];
      var tail := rest[1..];
      var s1 := s + c.size;
      ChainEndsAfterStart(s1, tail, e);
      assert AboveBorder(tail) by {
        forall k | 0 <= k < |tail| ensures tail[k].top >= 1 { assert tail[k] == rest[k + 1]; }
      }
      if c.left < pe {
        if s1 <= pe {
          ShrinkSpec(s1, tail, e, pe);
        } else {
          ShrinkSpec(s1, tail, e, s1);
          var r := Shrink(pe, rest);
          assert r[1..] == Shrink(s1, tail);
          assert AboveBorder(r) by {
            forall k | 0 <= k < |r| ensures r[k].top >= 1 {
              if k > 0 { assert r[k] == Shrink(s1, tail)[k - 1]; }
            }
          }
        }
      } else {
        ShrinkSpec(s1, tail, e, s1);
        var r := Shrink(pe, rest);
        assert r[1..] == Shrink(s1, tail);
        assert AboveBorder(r) by {
          forall k | 0 <= k < |r| ensures r[k].top >= 1 {
            if k > 0 { assert r[k] == Shrink(s1, tail)[k - 1]; }
          }
        }
      }
    }
  }

  /** No two neighbouring segments are level. */
  predicate NoLevelNeighbours(ns: seq<Node>)
  {
    forall k :: 0 <= k < |ns| - 1 ==> ns[k].top != ns[k + 1].top
  }

  /** texture_atlas_merge_nodes: fold each segment into its left neighbour
      when both have the same top. */
  function Merge(ns: seq<Node>): (r: seq<Node>)
    ensures |r| <= |ns| && (|ns| > 0 ==> |r| > 0 && r[0].top == ns[0].top && r[0].left == ns[0].left)
    ensures NoLevelNeighbours(r)
    decreases |ns|
  {
    if |ns| <= 1 then ns
    else if ns[0].top == ns[1].top then
      Merge([Node(ns[0].left, ns[0].top, ns[0].size + ns[1].size)] + ns[2..])
    else
      var m := Merge(ns[1..]);
      var r := [ns[0]] + m;
      assert forall k :: 1 <= k < |r| ==> r[k] == m[k - 1];
      r
  }

  /** Merging keeps the chain, the border and every column's height. */
  lemma {:induction false} MergeSpec(s: int, ns: seq<Node>, e: int)
    requires Chain(s, ns, e) && AboveBorder(ns)
    ensures Chain(s, Merge(ns), e) && AboveBorder(Merge(ns))
    ensures forall px :: s <= px ==> HeightAt(s, Merge(ns), px) == HeightAt(s, ns, px)
    decreases |ns|
  {
    if |ns| > 1 {
      if ns[0].top == ns[1].top {
        var joined := [Node(ns[0].left, ns[0].top, ns[0].size + ns[1].size)] + ns[2..];
        assert ns[1..][1..] == ns[2..] && joined[1..] == ns[2..];
        assert AboveBorder(joined) by {
          forall k | 0 <= k < |joined| ensures joined[k].top >= 1 {
            if k > 0 { assert joined[k] == ns[k + 1]; }
          }
        }
        MergeSpec(s, joined, e);
      } else {
        var tail := ns[1..];
        assert AboveBorder(tail) by {
          forall k | 0 <= k < |tail| ensures tail[k].top >= 1 { assert tail[k] == ns[k + 1]; }
        }
        MergeSpec(s + ns[0].size, tail, e);
        var r := Merge(ns);
        assert r[1..] == Merge(tail);
        assert AboveBorder(r) by {
          forall k | 0 <= k < |r| ensures r[k].top >= 1 {
            if k > 0 { assert r[k] == Merge(tail)[k - 1]; }
          }
        }
      }
    }
  }

  /** The skyline after placing a width w, height h region at segment b on
      row y, before merging: the new segment goes in before segment b and
      the segments it covers are cut back. */
  function Spliced(ns: seq<Node>, b: nat, w: int, h: int, y: int): seq<Node>
    requires b < |ns|
  {
    var x := ns[b].left;
    ns[..b] + [Node(x, y + h, w)] + Shrink(x + w, ns[b..])
  }

  /** ... and after merging level neighbours. */
  function Place(ns: seq<Node>, b: nat, w: int, h: int, y: int): seq<Node>
    requires b < |ns|
  {
    Merge(Spliced(ns, b, w, h, y))
  }

  lemma SuffixAboveBorder(ns: seq<Node>, b: nat)
    requires AboveBorder(ns) && b <= |ns|
    ensures AboveBorder(ns[b..])
  {
    forall k | 0 <= k < |ns| - b ensures ns[b..][k].top >= 1 { assert ns[b..][k] == ns[b + k]; }
  }

  lemma JoinAboveBorder(a: seq<Node>, c: seq<Node>)
    requires AboveBorder(a) && AboveBorder(c)
    ensures AboveBorder(a + c)
  {
    forall k | 0 <= k < |a + c| ensures (a + c)[k].top >= 1 {
      if k >= |a| { assert (a + c)[k] == c[k - |a|]; }
    }
  }

  lemma SingleChain(n: Node)
    requires n.size >= 0
    ensures Chain(n.left, [n], n.left + n.size)
  {
    assert [n][1..] == [];
  }

  /** The pieces of a split skyline around segment b. */
  lemma SplitAt(ns: seq<Node>, width: int, b: nat)
    requires Skyline(ns, width) && b < |ns|
    ensures Chain(1, ns[..b], ns[b].left) && Chain(ns[b].left, ns[b..], width - 1)
    ensures AboveBorder(ns[..b]) && AboveBorder(ns[b..]) && ns[..b] + ns[b..] == ns
  {
    ChainSplit(1, ns, width - 1, b);
    SuffixAboveBorder(ns, b);
    assert forall k :: 0 <= k < b ==> ns[..b][k] == ns[k];
  }

  /** A prefix ending at x, one segment [x, x + w) and a chain from x + w
      to the right border form a skyline. */
  lemma JoinSkyline(pre: seq<Node>, n: Node, post: seq<Node>, width: int)
    requires Chain(1, pre, n.left) && n.size >= 0 && Chain(n.left + n.size, post, width - 1)
    requires AboveBorder(pre) && n.top >= 1 && AboveBorder(post)
    ensures Skyline(pre + [n] + post, width)
  {
    SingleChain(n);
    ChainConcat(n.left, [n], n.left + n.size, post, width - 1);
    ChainConcat(1, pre, n.left, [n] + post, width - 1);
    JoinAboveBorder([n], post);
    JoinAboveBorder(pre, [n] + post);
    assert pre + ([n] + post) == pre + [n] + post;
  }

  lemma SplicedChain(ns: seq<Node>, width: int, b: nat, w: int, h: int, y: int)
    requires Skyline(ns, width) && b < |ns| && w >= 0 && h >= 0 && y >= 1
    requires ns[b].left + w <= width - 1
    ensures Skyline(Spliced(ns, b, w, h, y), width)
  {
    var x := ns[b].left;
    SplitAt(ns, width, b);
    ShrinkSpec(x, ns[b..], width - 1, x + w);
    JoinSkyline(ns[..b], Node(x, y + h, w), Shrink(x + w, ns[b..]), width);
  }

  lemma SplicedHeights(ns: seq<Node>, width: int, b: nat, w: int, h: int, y: int, px: int)
    requires Skyline(ns, width) && b < |ns| && w >= 0 && h >= 0 && y >= 1
    requires ns[b].left + w <= width - 1 && 1 <= px
    ensures HeightAt(1, Spliced(ns, b, w, h, y), px)
         == if ns[b].left <= px < ns[b].left + w then y + h else HeightAt(1, ns, px)
  {
    var x := ns[b].left;
    var node := [Node(x, y + h, w)];
    SplitAt(ns, width, b);
    ShrinkSpec(x, ns[b..], width - 1, x + w);
    var shrunk := Shrink(x + w, ns[b..]);
    assert ns[..b] + (node + shrunk) == Spliced(ns, b, w, h, y);
    HeightAtConcat(1, ns[..b], x, node + shrunk, px);
    HeightAtConcat(1, ns[..b], x, ns[b..], px);
    if px >= x {
      SingleChain(Node(x, y + h, w));
      HeightAtConcat(x, node, x + w, shrunk, px);
    }
  }

  /** Placing keeps a well-formed skyline without level neighbours, and
      raises exactly the columns under the region to its top edge. */
  lemma PlaceSpec(ns: seq<Node>, width: int, b: nat, w: int, h: int, y: int)
    requires Skyline(ns, width) && b < |ns| && w >= 0 && h >= 0 && y >= 1
    requires ns[b].left + w <= width - 1
    ensures var p := Place(ns, b, w, h, y);
      && Skyline(p, width) && NoLevelNeighbours(p)
      && forall px :: 1 <= px ==>
           HeightAt(1, p, px) == if ns[b].left <= px < ns[b].left + w then y + h else HeightAt(1, ns, px)
  {
    SplicedChain(ns, width, b, w, h, y);
    MergeSpec(1, Spliced(ns, b, w, h, y), width - 1);
    forall px | 1 <= px
      ensures HeightAt(1, Place(ns, b, w, h, y), px)
           == if ns[b].left <= px < ns[b].left + w then y + h else HeightAt(1, ns, px)
    {
      SplicedHeights(ns, width, b, w, h, y, px);
    }
  }

  // ---- choosing the segment

  /** A candidate with bottom edge yh and segment size `size` is strictly
      better than one with yh2 and size2: lower, or as low and narrower. */
  predicate Beats(yh: int, size: int, yh2: int, size2: int)
  {
    yh < yh2 || (yh == yh2 && size < size2)
  }

  datatype Option<T> = None | Some(value: T)

  /** The fit of every segment. */
  function Fits(ns: seq<Node>, w: int, h: int, width: int, height: int): (fits: seq<int>)
    ensures |fits| == |ns|
    ensures forall k :: 0 <= k < |ns| ==> fits[k] == Fit(ns, k, w, h, width, height)
  {
    seq(|ns|, k requires 0 <= k < |ns| => Fit(ns, k, w, h, width, height))
  }

  /** The loop of xpl_texture_atlas_get_region over segments k.. with the
      best so far: a fitting segment replaces the best only when it beats it. */
  function BestFrom(ns: seq<Node>, fits: seq<int>, h: int, k: nat, best: Option<nat>): (r: Option<nat>)
    requires |fits| == |ns| && k <= |ns| && (best.Some? ==> best.value < k)
    ensures r.Some? ==> r.value < |ns|
    decreases |ns| - k
  {
    if k == |ns| then best
    else if fits[k] >= 0 && (best.None? || Beats(fits[k] + h, ns[k].size, fits[best.value] + h, ns[best.value].size))
    then BestFrom(ns, fits, h, k + 1, Some(k))
    else BestFrom(ns, fits, h, k + 1, best)
  }

  /** The segment get_region chooses, if any. */
  function Best(ns: seq<Node>, w: int, h: int, width: int, height: int): (r: Option<nat>)
    ensures r.Some? ==> r.value < |ns|
  {
    BestFrom(ns, Fits(ns, w, h, width, height), h, 0, None)
  }

  /** Among the segments before `upto`, b fits, no fitting segment beats it,
      and it beats every fitting segment before it. */
  predicate IsBestAmong(ns: seq<Node>, fits: seq<int>, h: int, upto: nat, b: nat)
    requires |fits| == |ns| && b < upto <= |ns|
  {
    && fits[b] >= 0
    && (forall k :: 0 <= k < upto && fits[k] >= 0 ==> !Beats(fits[k] + h, ns[k].size, fits[b] + h, ns[b].size))
    && (forall k :: 0 <= k < b && fits[k] >= 0 ==> Beats(fits[b] + h, ns[b].size, fits[k] + h, ns[k].size))
  }

  lemma {:induction false} BestFromSpec(ns: seq<Node>, fits: seq<int>, h: int, k: nat, best: Option<nat>)
    requires |fits| == |ns| && k <= |ns| && (best.Some? ==> best.value < k)
    requires best.None? ==> forall j :: 0 <= j < k ==> fits[j] < 0
    requires best.Some? ==> IsBestAmong(ns, fits, h, k, best.value)
    ensures var r := BestFrom(ns, fits, h, k, best);
      && (r.None? <==> forall j :: 0 <= j < |ns| ==> fits[j] < 0)
      && (r.Some? ==> IsBestAmong(ns, fits, h, |ns|, r.value))
    decreases |ns| - k
  {
    if k < |ns| {
      if fits[k] >= 0 && (best.None? || Beats(fits[k] + h, ns[k].size, fits[best.value] + h, ns[best.value].size)) {
        BestFromSpec(ns, fits, h, k + 1, Some(k));
      } else {
        BestFromSpec(ns, fits, h, k + 1, best);
      }
    }
  }

  /** The choice of xpl_texture_atlas_get_region: the lowest fit, the
      narrower segment on a tie, the first of equals; none when nothing fits. */
  lemma BestIsBest(ns: seq<Node>, w: int, h: int, width: int, height: int)
    ensures var fits := Fits(ns, w, h, width, height);
      && (Best(ns, w, h, width, height).None? <==> forall j :: 0 <= j < |ns| ==> fits[j] < 0)
      && (Best(ns, w, h, width, height).Some? ==> IsBestAmong(ns, fits, h, |ns|, Best(ns, w, h, width, height).value))
  {
    BestFromSpec(ns, Fits(ns, w, h, width, height), h, 0, None);
  }

  /** The region get_region returns for a skyline. */
  function Region(ns: seq<Node>, w: int, h: int, width: int, height: int): Rect
  {
    match Best(ns, w, h, width, height)
    case None => NoRegion
    case Some(b) => Rect(ns[b].left, Fit(ns, b, w, h, width, height), w, h)
  }

  /** A region found for a non-empty request lies inside the one-pixel border. */
  lemma RegionInsideBorder(ns: seq<Node>, w: int, h: int, width: int, height: int)
    requires Skyline(ns, width) && w > 0 && h >= 0
    requires Region(ns, w, h, width, height) != NoRegion
    ensures var r := Region(ns, w, h, width, height);
      1 <= r.x && r.x + r.width <= width - 1 && 1 <= r.y && r.y + r.height <= height - 1
  {
    BestIsBest(ns, w, h, width, height);
    var b := Best(ns, w, h, width, height).value;
    FitInsideBorder(ns, b, w, h, width, height);
  }

  /** A fit is -1 or a segment top, so at least 1. */
  lemma FitAtLeastOne(ns: seq<Node>, index: nat, w: int, h: int, width: int, height: int)
    requires AboveBorder(ns) && index < |ns|
    ensures Fit(ns, index, w, h, width, height) == -1 || Fit(ns, index, w, h, width, height) >= 1
    ensures Fit(ns, index, w, h, width, height) >= 0 ==> ns[index].left + w <= width - 1
  {
    var x := ns[index].left;
    if x + w <= width - 1 {
      var n := SpanCount(x, ns[index..], x + w);
      if n > 0 {
        assert ns[index..index + n][0] == ns[index];
      }
    }
  }

  // ---- the loops of the source

  /** The highest top is some segment's top. */
  lemma {:induction false} MaxTopAttained(ns: seq<Node>)
    requires |ns| > 0
    ensures exists k :: 0 <= k < |ns| && ns[k].top == MaxTop(ns)
  {
    if |ns| > 1 {
      var front := ns[..|ns| - 1];
      MaxTopAttained(front);
      var j :| 0 <= j < |front| && front[j].top == MaxTop(front);
      assert front[j] == ns[j];
      assert front == ns[..|ns| - 1];
      if MaxTop(front) >= ns[|ns| - 1].top {
        assert ns[j].top == MaxTop(ns);
      } else {
        assert ns[|ns| - 1].top == MaxTop(ns);
      }
    } else {
      assert ns[0].top == MaxTop(ns);
    }
  }

  /** MaxTop of a longer run is at least that of its prefix. */
  lemma MaxTopOfPrefix(ns: seq<Node>, k: nat)
    requires 0 < k <= |ns|
    ensures MaxTop(ns[..k]) <= MaxTop(ns)
  {
    var t := MaxTop(ns[..k]);
    MaxTopAttained(ns[..k]);
    var j :| 0 <= j < k && ns[..k][j].top == t;
    assert ns[..k][j] == ns[j];
  }

  lemma FitFound(ns: seq<Node>, index: nat, w: int, h: int, width: int, height: int, y: int, n: nat)
    requires index < |ns| && ns[index].left + w <= width - 1
    requires n == SpanCount(ns[index].left, ns[index..], ns[index].left + w) && index + n <= |ns|
    requires n == 0 ==> y == ns[index].top
    requires n > 0 ==> y == MaxTop(ns[index..index + n]) && y + h <= height - 1
    ensures y == Fit(ns, index, w, h, width, height)
  {
  }

  lemma FitFails(ns: seq<Node>, index: nat, w: int, h: int, width: int, height: int, y: int, n: nat, i: nat)
    requires index <= i < index + n && index < |ns| && ns[index].left + w <= width - 1
    requires n == SpanCount(ns[index].left, ns[index..], ns[index].left + w) && index + n <= |ns|
    requires y == MaxTop(ns[index..i + 1]) && y + h > height - 1
    ensures Fit(ns, index, w, h, width, height) == -1
  {
    assert ns[index..index + n][..i + 1 - index] == ns[index..i + 1];
    MaxTopOfPrefix(ns[index..index + n], i + 1 - index);
  }

  lemma ScanStep(ns: seq<Node>, i: nat, pos: int, limit: int, e: int)
    requires i <= |ns| && Chain(pos, ns[i..], e) && pos < limit <= e
    ensures i < |ns| && ns[i].left == pos
    ensures Chain(pos + ns[i].size, ns[i + 1..], e)
    ensures SpanCount(pos, ns[i..], limit) == 1 + SpanCount(pos + ns[i].size, ns[i + 1..], limit)
  {
    assert ns[i..] != [];
    assert ns[i..][0] == ns[i] && ns[i..][1..] == ns[i + 1..];
  }

  lemma MaxTopStep(ns: seq<Node>, index: nat, i: nat, y: int)
    requires index <= i < |ns|
    requires i == index ==> y == ns[index].top
    requires i > index ==> y == MaxTop(ns[index..i])
    ensures Max(y, ns[i].top) == MaxTop(ns[index..i + 1])
  {
    if i > index {
      assert ns[index..i + 1][..i - index] == ns[index..i];
    }
  }

  /** texture_atlas_fit: walks the segments under the region, keeping the
      highest top, and gives up as soon as the region would cross the top border. */
  method FitScan(ns: seq<Node>, index: nat, w: int, h: int, width: int, height: int) returns (y: int)
    requires Skyline(ns, width) && index < |ns| && w >= 0
    ensures y == Fit(ns, index, w, h, width, height)
  {
    var x := ns[index].left;
    y := ns[index].top;
    var widthLeft := w;
    var i := index;
    if x + w > width - 1 {
      return -1;
    }
    ghost var limit := x + w;
    ghost var n := SpanCount(x, ns[index..], limit);
    ghost var pos := x;
    ChainSplit(1, ns, width - 1, index);
    while widthLeft > 0
      invariant Walk(ns, index, limit, width - 1, n, i, pos) && widthLeft == limit - pos
      invariant i == index ==> y == ns[index].top && widthLeft == w
      invariant i > index ==> y == MaxTop(ns[index..i]) && y + h <= height - 1
      decreases |ns| - i
    {
      var fails;
      y, fails := FitStep(ns, index, w, h, width, height, y, limit, n, i, pos);
      if fails {
        return -1;
      }
      widthLeft := widthLeft - ns[i].size;
      pos := pos + ns[i].size;
      i := i + 1;
    }
    WalkDone(ns, index, limit, width - 1, n, i, pos);
    FitFound(ns, index, w, h, width, height, y, n);
  }

  /** texture_atlas_fit's walk has reached segment i at `pos`; n counts the
      segments a region ending at `limit` spans from `index` on. */
  ghost predicate Walk(ns: seq<Node>, index: nat, limit: int, e: int, n: nat, i: nat, pos: int)
  {
    index <= i <= |ns| && Chain(pos, ns[i..], e) && n == (i - index) + SpanCount(pos, ns[i..], limit)
  }

  /** A walk that has reached the region's end has passed all n spanned segments. */
  lemma WalkDone(ns: seq<Node>, index: nat, limit: int, e: int, n: nat, i: nat, pos: int)
    requires Walk(ns, index, limit, e, n, i, pos) && pos >= limit
    ensures i == index + n
  {
  }

  /** One segment of texture_atlas_fit's walk: raise the running top to this
      segment's, and fail if the region no longer fits under the border. */
  method FitStep(ns: seq<Node>, index: nat, w: int, h: int, width: int, height: int, y: int,
                 ghost limit: int, ghost n: nat, i: nat, ghost pos: int)
    returns (y': int, fails: bool)
    requires index < |ns| && limit == ns[index].left + w && limit <= width - 1 && index + n <= |ns|
    requires n == SpanCount(ns[index].left, ns[index..], limit)
    requires Walk(ns, index, limit, width - 1, n, i, pos) && pos < limit
    requires i == index ==> y == ns[index].top
    requires i > index ==> y == MaxTop(ns[index..i])
    ensures i < |ns| && ns[i].left == pos
    ensures Walk(ns, index, limit, width - 1, n, i + 1, pos + ns[i].size)
    ensures fails ==> Fit(ns, index, w, h, width, height) == -1
    ensures !fails ==> y' == MaxTop(ns[index..i + 1]) && y' + h <= height - 1
  {
    ScanStep(ns, i, pos, limit, width - 1);
    MaxTopStep(ns, index, i, y);
    y' := Max(y, ns[i].top);
    fails := y' + h > height - 1;
    if fails {
      FitFails(ns, index, w, h, width, height, y', n, i);
    }
  }

  /** The candidate loop of xpl_texture_atlas_get_region. */
  method ChooseNode(ns: seq<Node>, w: int, h: int, width: int, height: int) returns (best: Option<nat>, bestY: int)
    requires Skyline(ns, width) && w >= 0
    ensures best == Best(ns, w, h, width, height)
    ensures best.Some? ==> bestY == Fit(ns, best.value, w, h, width, height)
  {
    ghost var fits := Fits(ns, w, h, width, height);
    best := None;
    bestY := 0;
    var bestHeight := 0;
    var bestWidth := 0;
    var i := 0;
    while i < |ns|
      invariant 0 <= i <= |ns| && (best.Some? ==> best.value < i)
      invariant BestFrom(ns, fits, h, i, best) == Best(ns, w, h, width, height)
      invariant best.Some? ==> bestY == fits[best.value] && bestHeight == bestY + h && bestWidth == ns[best.value].size
    {
      var y := FitScan(ns, i, w, h, width, height);
      if y >= 0 && (best.None? || y + h < bestHeight || (y + h == bestHeight && ns[i].size < bestWidth)) {
        best := Some(i);
        bestY := y;
        bestHeight := y + h;
        bestWidth := ns[i].size;
      }
      i := i + 1;
    }
  }

  /** The shrink loop of xpl_texture_atlas_get_region over the segments
      after the new one. */
  method ShrinkFollowing(pe: int, rest: seq<Node>) returns (r: seq<Node>)
    ensures r == Shrink(pe, rest)
  {
    r := [];
    var prevEnd := pe;
    var j := 0;
    while j < |rest|
      invariant 0 <= j <= |rest|
      invariant r + Shrink(prevEnd, rest[j..]) == Shrink(pe, rest)
    {
      assert rest[j..][0] == rest[j] && rest[j..][1..] == rest[j + 1..];
      var c := rest[j];
      if c.left < prevEnd {
        var shrink := prevEnd - c.left;
        c := Node(c.left + shrink, c.top, c.size - shrink);
        if c.size > 0 {
          assert r + Shrink(prevEnd, rest[j..]) == r + [c] + Shrink(c.left + c.size, rest[j + 1..]);
          r := r + [c];
          prevEnd := c.left + c.size;
        }
      } else {
        assert r + Shrink(prevEnd, rest[j..]) == r + [c] + Shrink(c.left + c.size, rest[j + 1..]);
        r := r + [c];
        prevEnd := c.left + c.size;
      }
      j := j + 1;
    }
    assert rest[j..] == [];
  }

  /** Merging stops short of segment i on the merged prefix. */
  predicate MergedUpTo(cur: seq<Node>, i: nat, ns: seq<Node>)
    requires i <= |cur|
  {
    cur[..i] + Merge(cur[i..]) == Merge(ns)
  }

  /** Folding segment i + 1 into segment i keeps the merge ahead the same. */
  lemma MergeJoinStep(cur: seq<Node>, i: nat, ns: seq<Node>, next: seq<Node>)
    requires i + 1 < |cur| && cur[i].top == cur[i + 1].top && MergedUpTo(cur, i, ns)
    requires next == cur[..i] + [Node(cur[i].left, cur[i].top, cur[i].size + cur[i + 1].size)] + cur[i + 2..]
    ensures i < |next| && MergedUpTo(next, i, ns)
  {
    var joined := Node(cur[i].left, cur[i].top, cur[i].size + cur[i + 1].size);
    assert cur[i..][0] == cur[i] && cur[i..][1] == cur[i + 1] && cur[i..][2..] == cur[i + 2..];
    assert Merge(cur[i..]) == Merge([joined] + cur[i + 2..]);
    assert next[..i] == cur[..i] && next[i..] == [joined] + cur[i + 2..];
  }

  /** Keeping segment i moves the merged prefix one on. */
  lemma MergeKeepStep(cur: seq<Node>, i: nat, ns: seq<Node>)
    requires i + 1 < |cur| && cur[i].top != cur[i + 1].top && MergedUpTo(cur, i, ns)
    ensures MergedUpTo(cur, i + 1, ns)
  {
    assert cur[i..][0] == cur[i] && cur[i..][1] == cur[i + 1] && cur[i..][1..] == cur[i + 1..];
    assert Merge(cur[i..]) == [cur[i]] + Merge(cur[i + 1..]);
    assert cur[..i + 1] == cur[..i] + [cur[i]];
  }

  /** The end of the walk: nothing is left to merge. */
  lemma MergeDone(cur: seq<Node>, i: nat, ns: seq<Node>)
    requires i < |cur| && i + 1 >= |cur| && MergedUpTo(cur, i, ns)
    ensures cur == Merge(ns)
  {
    assert cur[..i] + cur[i..] == cur;
  }

  /** The update of xpl_texture_atlas_get_region once a segment is chosen:
      insert the new segment, shrink the ones it covers, merge. */
  method PlaceNode(ns: seq<Node>, b: nat, w: int, h: int, y: int) returns (r: seq<Node>)
    requires b < |ns|
    ensures r == Place(ns, b, w, h, y)
  {
    var x := ns[b].left;
    var rest := ShrinkFollowing(x + w, ns[b..]);
    var spliced := ns[..b] + [Node(x, y + h, w)] + rest;
    r := MergeNodes(spliced);
  }

  /** texture_atlas_merge_nodes, in place on the list. */
  method MergeNodes(ns: seq<Node>) returns (cur: seq<Node>)
    requires |ns| > 0
    ensures cur == Merge(ns)
  {
    cur := ns;
    var i := 0;
    assert cur[..0] + cur[0..] == cur;
    while i + 1 < |cur|
      invariant 0 <= i < |cur|
      invariant MergedUpTo(cur, i, ns)
      decreases |cur| - i
    {
      if cur[i].top == cur[i + 1].top {
        var next := cur[..i] + [Node(cur[i].left, cur[i].top, cur[i].size + cur[i + 1].size)] + cur[i + 2..];
        MergeJoinStep(cur, i, ns, next);
        cur := next;
      } else {
        MergeKeepStep(cur, i, ns);
        i := i + 1;
      }
    }
    MergeDone(cur, i, ns);
  }
}

/** The atlas object: the skyline, the pixel buffer and the texture. */
module TextureAtlasObject {
  import opened Arith
  import TA = TextureAtlas
  import DB = DynamicBuffer
  import DBO = DynamicBufferObject

  type Byte = DB.Byte

  /** The region lies inside the one-pixel border (the asserts of
      xpl_texture_atlas_set_region), and the source holds every row it reads. */
  predicate Blittable(r: TA.Rect, width: int, height: int, depth: int, srcLen: int, stride: int)
  {
    && 0 <= r.x && 0 <= r.y && r.x < width - 1 && r.y < height - 1
    && r.x + r.width <= width - 1 && r.y + r.height <= height - 1
    && r.width >= 0 && r.height >= 0 && depth >= 1 && stride >= 0
    && (r.height > 0 ==> (r.height - 1) * stride + depth * r.width <= srcLen)
  }

  /** A rectangular copy into a row-major buffer: `rows` rows of `rowLen`
      bytes, the first at `first`, rows `pitch` bytes apart in the buffer
      and `stride` bytes apart in the source. */
  datatype Patch = Patch(first: int, pitch: int, rowLen: int, stride: int, rows: nat)

  /** Where row i starts in the buffer. */
  function RowAt(p: Patch, i: nat): int
  {
    if i == 0 then p.first else RowAt(p, i - 1) + p.pitch
  }

  /** Where row i starts in the source. */
  function SrcAt(p: Patch, i: nat): int
  {
    if i == 0 then 0 else SrcAt(p, i - 1) + p.stride
  }

  /** Rows do not overlap and every row lies inside the buffer and the source. */
  predicate PatchFits(p: Patch, total: int, srcLen: int)
  {
    && p.first >= 0 && p.rowLen >= 0 && p.pitch >= p.rowLen && p.stride >= 0
    && (p.rows > 0 ==> RowAt(p, p.rows - 1) + p.rowLen <= total && SrcAt(p, p.rows - 1) + p.rowLen <= srcLen)
  }

  lemma {:induction false} RowsAscend(p: Patch, i: nat, j: nat)
    requires i <= j && p.pitch >= 0 && p.stride >= 0 && p.first >= 0
    ensures p.first <= RowAt(p, i) <= RowAt(p, j) && 0 <= SrcAt(p, i) <= SrcAt(p, j)
    ensures i < j ==> RowAt(p, i) + p.pitch <= RowAt(p, j)
    decreases j
  {
    if j > 0 {
      if i < j {
        RowsAscend(p, i, j - 1);
      }
      RowsAscend(p, 0, j - 1);
    }
  }

  lemma RowInside(p: Patch, i: nat, total: int, srcLen: int)
    requires PatchFits(p, total, srcLen) && i < p.rows
    ensures 0 <= RowAt(p, i) && RowAt(p, i) + p.rowLen <= total
    ensures 0 <= SrcAt(p, i) && SrcAt(p, i) + p.rowLen <= srcLen
  {
    RowsAscend(p, i, p.rows - 1);
  }

  /** The row loop of xpl_texture_atlas_set_region after `rows` rows: each
      row of the source is written over its row of the buffer. */
  function Blit(s: DB.BufferState, p: Patch, rows: nat, src: seq<Byte>): (t: DB.BufferState)
    requires DB.Valid(s) && PatchFits(p, s.length, |src|) && rows <= p.rows
    ensures DB.Valid(t) && t.length == s.length
    ensures rows > 0 && p.rowLen > 0 ==> !DB.IsClean(t)
    ensures rows == 0 || p.rowLen == 0 ==> t == s
    decreases rows
  {
    if rows == 0 then s
    else
      var prev := Blit(s, p, rows - 1, src);
      RowInside(p, rows - 1, s.length, |src|);
      var row := src[SrcAt(p, rows - 1)..SrcAt(p, rows - 1) + p.rowLen];
      DB.UpdateSpec(prev, RowAt(p, rows - 1), row);
      DB.Update(prev, RowAt(p, rows - 1), row)
  }

  /** One more row of the loop splices that row into the data. */
  lemma BlitStep(s: DB.BufferState, p: Patch, i: nat, src: seq<Byte>)
    requires DB.Valid(s) && PatchFits(p, s.length, |src|) && i < p.rows
    ensures 0 <= RowAt(p, i) && RowAt(p, i) + p.rowLen <= s.length
    ensures 0 <= SrcAt(p, i) && SrcAt(p, i) + p.rowLen <= |src|
    ensures var d := DB.Data(Blit(s, p, i, src));
      DB.Data(Blit(s, p, i + 1, src))
      == d[..RowAt(p, i)] + src[SrcAt(p, i)..SrcAt(p, i) + p.rowLen] + d[RowAt(p, i) + p.rowLen..]
  {
    var offset, from := RowAt(p, i), SrcAt(p, i);
    BlitNext(s, p, i, src, offset, from);
    DB.UpdateSpec(Blit(s, p, i, src), offset, src[from..from + p.rowLen]);
  }

  /** Row i of the loop is one buffer update, at the row's offsets. */
  lemma BlitNext(s: DB.BufferState, p: Patch, i: nat, src: seq<Byte>, offset: int, from: int)
    requires DB.Valid(s) && PatchFits(p, s.length, |src|) && i < p.rows
    requires offset == RowAt(p, i) && from == SrcAt(p, i)
    ensures 0 <= offset && offset + p.rowLen <= s.length && 0 <= from && from + p.rowLen <= |src|
    ensures Blit(s, p, i + 1, src) == DB.Update(Blit(s, p, i, src), offset, src[from..from + p.rowLen])
  {
    RowInside(p, i, s.length, |src|);
  }

  /** Row j of the buffer holds row j of the source. */
  predicate Copied(d: seq<Byte>, p: Patch, j: nat, src: seq<Byte>)
  {
    && 0 <= RowAt(p, j) && 0 <= p.rowLen && RowAt(p, j) + p.rowLen <= |d|
    && 0 <= SrcAt(p, j) && SrcAt(p, j) + p.rowLen <= |src|
    && d[RowAt(p, j)..RowAt(p, j) + p.rowLen] == src[SrcAt(p, j)..SrcAt(p, j) + p.rowLen]
  }

  /** Byte q lies in none of the first `rows` rows. */
  predicate Outside(p: Patch, rows: nat, q: int)
  {
    forall j: nat :: j < rows ==> !(RowAt(p, j) <= q < RowAt(p, j) + p.rowLen)
  }

  /** Writing row i leaves the rows before it as they were. */
  lemma StepKeepsRows(d: seq<Byte>, d': seq<Byte>, p: Patch, i: nat, src: seq<Byte>)
    requires PatchFits(p, |d|, |src|) && i < p.rows
    requires 0 <= RowAt(p, i) && RowAt(p, i) + p.rowLen <= |d| && 0 <= SrcAt(p, i) && SrcAt(p, i) + p.rowLen <= |src|
    requires d' == d[..RowAt(p, i)] + src[SrcAt(p, i)..SrcAt(p, i) + p.rowLen] + d[RowAt(p, i) + p.rowLen..]
    requires forall j: nat :: j < i ==> Copied(d, p, j, src)
    ensures forall j: nat :: j <= i ==> Copied(d', p, j, src)
  {
    var off := RowAt(p, i);
    forall j: nat | j <= i
      ensures Copied(d', p, j, src)
    {
      if j < i {
        RowsAscend(p, j, i);
        var o := RowAt(p, j);
        assert Copied(d, p, j, src);
        assert d'[o..o + p.rowLen] == d[o..o + p.rowLen] by {
          forall q | o <= q < o + p.rowLen ensures d'[q] == d[q] {
            assert d'[q] == d[..off][q];
          }
        }
      } else {
        assert d'[off..off + p.rowLen] == src[SrcAt(p, i)..SrcAt(p, i) + p.rowLen];
      }
    }
  }

  /** Writing row i changes no byte outside the rows written so far. */
  lemma StepKeepsOutside(d0: seq<Byte>, d: seq<Byte>, d': seq<Byte>, p: Patch, i: nat, src: seq<Byte>)
    requires |d| == |d0| && 0 <= RowAt(p, i) && 0 <= p.rowLen && RowAt(p, i) + p.rowLen <= |d|
    requires 0 <= SrcAt(p, i) && SrcAt(p, i) + p.rowLen <= |src|
    requires d' == d[..RowAt(p, i)] + src[SrcAt(p, i)..SrcAt(p, i) + p.rowLen] + d[RowAt(p, i) + p.rowLen..]
    requires forall q :: 0 <= q < |d0| && Outside(p, i, q) ==> d[q] == d0[q]
    ensures forall q :: 0 <= q < |d0| && Outside(p, i + 1, q) ==> d'[q] == d0[q]
  {
    var off := RowAt(p, i);
    forall q | 0 <= q < |d0| && Outside(p, i + 1, q)
      ensures d'[q] == d0[q]
    {
      assert !(off <= q < off + p.rowLen);
      assert Outside(p, i, q);
      if q < off {
        assert d'[q] == d[..off][q];
      } else {
        assert d'[q] == d[off + p.rowLen..][q - off - p.rowLen];
      }
    }
  }

  /** set_region copies every source row into its row of the buffer and
      leaves every byte outside those rows as it was. */
  lemma {:induction false} BlitSpec(s: DB.BufferState, p: Patch, rows: nat, src: seq<Byte>)
    requires DB.Valid(s) && PatchFits(p, s.length, |src|) && rows <= p.rows
    ensures forall j: nat :: j < rows ==> Copied(DB.Data(Blit(s, p, rows, src)), p, j, src)
    ensures forall q :: 0 <= q < s.length && Outside(p, rows, q) ==> DB.Data(Blit(s, p, rows, src))[q] == DB.Data(s)[q]
    decreases rows
  {
    if rows > 0 {
      var i := rows - 1;
      BlitSpec(s, p, i, src);
      BlitStep(s, p, i, src);
      StepKeepsRows(DB.Data(Blit(s, p, i, src)), DB.Data(Blit(s, p, rows, src)), p, i, src);
      StepKeepsOutside(DB.Data(s), DB.Data(Blit(s, p, i, src)), DB.Data(Blit(s, p, rows, src)), p, i, src);
    }
  }

  /** The copy set_region makes for a region of an atlas of the given width and depth. */
  function PatchOf(r: TA.Rect, width: int, depth: int, stride: int): Patch
    requires r.height >= 0
  {
    Patch((r.y * width + r.x) * depth, width * depth, depth * r.width, stride, r.height)
  }

  /** The rows start where set_region computes them. */
  lemma {:induction false} PatchRows(r: TA.Rect, width: int, depth: int, stride: int, i: nat)
    requires r.height >= 0
    ensures RowAt(PatchOf(r, width, depth, stride), i) == ((r.y + i) * width + r.x) * depth
    ensures SrcAt(PatchOf(r, width, depth, stride), i) == i * stride
  {
    if i > 0 {
      PatchRows(r, width, depth, stride, i - 1);
      assert ((r.y + i) * width + r.x) * depth == ((r.y + i - 1) * width + r.x) * depth + width * depth;
    }
  }

  /** The whole of set_region on the atlas data. */
  function Paint(s: DB.BufferState, r: TA.Rect, width: int, height: int, depth: int, src: seq<Byte>, stride: int): DB.BufferState
    requires DB.Valid(s) && s.length == width * height * depth && Blittable(r, width, height, depth, |src|, stride)
  {
    BlittablePatch(r, width, height, depth, |src|, stride);
    Blit(s, PatchOf(r, width, depth, stride), r.height, src)
  }

  lemma BlittablePatch(r: TA.Rect, width: int, height: int, depth: int, srcLen: int, stride: int)
    requires Blittable(r, width, height, depth, srcLen, stride)
    ensures PatchFits(PatchOf(r, width, depth, stride), width * height * depth, srcLen)
  {
    var p := PatchOf(r, width, depth, stride);
    MulLe(0, r.y * width + r.x, depth);
    MulLe(r.width, width, depth);
    if r.height > 0 {
      var i := r.height - 1;
      PatchRows(r, width, depth, stride, i);
      var row := (r.y + i) * width + r.x;
      assert row + r.width <= (r.y + i + 1) * width;
      MulLe(r.y + i + 1, height, width);
      MulLe(row + r.width, height * width, depth);
      assert height * width * depth == width * height * depth;
    }
  }

  /** What get_region needs to know about the chosen segment. */
  lemma ChosenSegment(ns: seq<TA.Node>, w: int, h: int, width: int, height: int, b: nat, y: int)
    requires TA.Skyline(ns, width) && w >= 0 && h >= 0
    requires TA.Best(ns, w, h, width, height) == TA.Some(b) && y == TA.Fit(ns, b, w, h, width, height)
    ensures b < |ns| && y >= 1 && ns[b].left >= 1 && ns[b].left + w <= width - 1
    ensures TA.Region(ns, w, h, width, height) == TA.Rect(ns[b].left, y, w, h) != TA.NoRegion
    ensures TA.Skyline(TA.Place(ns, b, w, h, y), width)
  {
    TA.BestIsBest(ns, w, h, width, height);
    TA.FitAtLeastOne(ns, b, w, h, width, height);
    TA.LeftsAscend(1, ns, width - 1);
    TA.PlaceSpec(ns, width, b, w, h, y);
  }

  /** The row loop of xpl_texture_atlas_set_region: one buffer update per row. */
  method CopyRows(data: DBO.Buffer, r: TA.Rect, width: int, depth: int, src: seq<Byte>, stride: int)
    requires data.Valid() && r.height >= 0
    requires PatchFits(PatchOf(r, width, depth, stride), data.length, |src|)
    modifies data
    ensures data.Valid()
    ensures data.State() == Blit(old(data.State()), PatchOf(r, width, depth, stride), r.height, src)
  {
    ghost var p := PatchOf(r, width, depth, stride);
    ghost var start := data.State();
    var i := 0;
    while i < r.height
      invariant 0 <= i <= r.height
      invariant data.Valid() && data.State() == Blit(start, p, i, src)
    {
      PatchRows(r, width, depth, stride, i);
      var offset := ((r.y + i) * width + r.x) * depth;
      BlitNext(start, p, i, src, offset, i * stride);
      data.Update(offset, src[i * stride..i * stride + depth * r.width]);
      i := i + 1;
    }
  }

  class Atlas {
    var nodes: seq<TA.Node>
    var width: int
    var height: int
    var depth: int
    var used: int
    var data: DBO.Buffer
    var hasTexture: bool
    var texture: seq<Byte>

    /** The skyline is well formed, the buffer holds width x height pixels
        of depth bytes, and a clean buffer with a texture matches it. */
    ghost predicate Valid()
      reads this, data
    {
      && width >= 2 && height >= 2 && (depth == 1 || depth == 3 || depth == 4)
      && TA.Skyline(nodes, width)
      && DB.Valid(data.State()) && data.length == width * height * depth
      && (hasTexture && DB.IsClean(data.State()) ==> texture == DB.Data(data.State()))
    }

    static lemma AreaPositive(width: int, height: int, depth: int)
      requires width >= 2 && height >= 2 && depth >= 1
      ensures width * height * depth >= 4
    {
      MulLe(2, width, height);
      MulLe(2, height, 2);
      MulLe(1, depth, width * height);
    }

    /** xpl_texture_atlas_new: the initial segment and a zeroed pixel buffer. */
    constructor (width: int, height: int, depth: int)
      requires width >= 2 && height >= 2 && (depth == 1 || depth == 3 || depth == 4)
      ensures Valid() && fresh(data)
      ensures nodes == TA.Initial(width) && used == 0 && !hasTexture
      ensures this.width == width && this.height == height && this.depth == depth
      ensures DB.Data(data.State()) == DB.Zeros(width * height * depth)
    {
      this.width := width;
      this.height := height;
      this.depth := depth;
      nodes := TA.Initial(width);
      used := 0;
      hasTexture := false;
      texture := [];
      AreaPositive(width, height, depth);
      var buffer := new DBO.Buffer();
      DB.AllocAsDataSpec(buffer.State(), width * height * depth);
      buffer.Alloc(width * height * depth, true);
      assert DB.Data(DB.Empty) == [];
      data := buffer;
    }

    /** xpl_texture_atlas_get_region. */
    method GetRegion(w: int, h: int) returns (region: TA.Rect)
      requires Valid() && w >= 0 && h >= 0
      modifies this
      ensures Valid()
      ensures width == old(width) && height == old(height) && depth == old(depth) && data == old(data)
      ensures hasTexture == old(hasTexture) && texture == old(texture)
      ensures region == TA.Region(old(nodes), w, h, width, height)
      ensures region == TA.NoRegion ==> nodes == old(nodes) && used == old(used)
      ensures region != TA.NoRegion ==>
        && nodes == TA.Place(old(nodes), TA.Best(old(nodes), w, h, width, height).value, w, h, region.y)
        && used == old(used) + w * h
    {
      var best, y := TA.ChooseNode(nodes, w, h, width, height);
      if best.None? {
        region := TA.NoRegion;
        return;
      }
      var b := best.value;
      ChosenSegment(nodes, w, h, width, height, b, y);
      region := TA.Rect(nodes[b].left, y, w, h);
      nodes := TA.PlaceNode(nodes, b, w, h, y);
      used := used + w * h;
    }

    /** xpl_texture_atlas_set_region. */
    method SetRegion(r: TA.Rect, src: seq<Byte>, stride: int)
      requires Valid() && Blittable(r, width, height, depth, |src|, stride)
      modifies data
      ensures Valid()
      ensures data.State() == Paint(old(data.State()), r, width, height, depth, src, stride)
    {
      BlittablePatch(r, width, height, depth, |src|, stride);
      CopyRows(data, r, width, depth, src, stride);
    }

    /** xpl_texture_atlas_commit: upload unless a texture exists and the
        buffer is clean; the buffer is clean afterwards. */
    method Commit()
      requires Valid()
      modifies this, data
      ensures Valid() && hasTexture && DB.IsClean(data.State())
      ensures texture == DB.Data(data.State()) && DB.Data(data.State()) == old(DB.Data(data.State()))
      ensures nodes == old(nodes) && used == old(used) && data == old(data)
      ensures width == old(width) && height == old(height) && depth == old(depth)
    {
      if hasTexture && data.IsClean() {
        return;
      }
      hasTexture := true;
      texture := DB.Data(data.State());
      data.MarkClean();
    }

    /** xpl_texture_atlas_clear: the initial segment and a fresh zeroed buffer. */
    method Clear()
      requires Valid()
      modifies this
      ensures Valid() && fresh(data)
      ensures nodes == TA.Initial(width) && used == 0
      ensures DB.Data(data.State()) == DB.Zeros(width * height * depth)
      ensures width == old(width) && height == old(height) && depth == old(depth)
      ensures hasTexture == old(hasTexture) && texture == old(texture)
    {
      nodes := TA.Initial(width);
      used := 0;
      AreaPositive(width, height, depth);
      var buffer := new DBO.Buffer();
      DB.AllocAsDataSpec(buffer.State(), width * height * depth);
      buffer.Alloc(width * height * depth, true);
      assert DB.Data(DB.Empty) == [];
      data := buffer;
    }
  }
}
