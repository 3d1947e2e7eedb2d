/** How the stages hand over to each other: what ring construction,
    interleaving and filtering guarantee is what the next stage and the
    triangle walks need, and packing, which only renumbers `source`, keeps
    all of it. */
module Readiness {
  import opened Records
  import opened Chains
  import opened EdgeVertices
  import opened InitialChains
  import opened Interleave
  import opened Filter
  import opened Packing
  import opened Strips
  import opened Tubes
  import opened RingLayout
  import opened TubeRings
  import opened StripRings

  /** The first block of the layout is center point 0's own ring. */
  lemma {:induction false} LayoutHead(corner: seq<bool>, smooth: bool, edges: nat, radial: nat, k: nat)
    requires 1 <= edges <= 2 && 1 <= |corner| && k < BlockSize(edges, radial)
    ensures k < |Layout(corner, smooth, edges, radial)|
    ensures Layout(corner, smooth, edges, radial)[k] == if k < radial then Slot(0, 0, k, false) else Slot(0, 1, k - radial, false)
    decreases |corner|
  {
    var n := |corner| - 1;
    var prefix := Layout(corner[..n], smooth, edges, radial);
    var first := prefix + Ring(n, false, edges, radial);
    assert Layout(corner, smooth, edges, radial)[..|first|] == first;
    if n > 0 {
      LayoutHead(corner[..n], smooth, edges, radial, k);
      assert first[k] == prefix[k];
    } else {
      assert prefix == [];
      RingAt(0, false, edges, radial, k);
    }
  }

  /** Every slot of whole rows lies on one of the edges. */
  lemma StripedEdge(s: seq<Slot>, radial: nat, edges: nat, k: nat)
    requires 1 <= edges && Striped(s, radial, edges) && k < |s|
    ensures s[k].edge < edges
  {
    if k >= radial {
      assert RowStep(s, radial, edges, k);
    }
  }

  /** In a one-edge layout, slot `off` of every block is on spoke `off`. */
  lemma {:induction false} StripedSpoke(s: seq<Slot>, radial: nat, b: nat, off: nat)
    requires 0 < radial && Striped(s, radial, 1) && off < radial && Blocks(b, radial) + off < |s|
    ensures s[Blocks(b, radial) + off].spoke == off
    decreases b
  {
    if b > 0 {
      assert RowStep(s, radial, 1, Blocks(b, radial) + off);
      StripedSpoke(s, radial, b - 1, off);
    }
  }

  /** With a corner at center point 0, ring construction leaves every
      chain a live corner vertex on each edge: vertex j and, with two
      edges, vertex j + radial. */
  lemma {:induction false} FreshRooted(ep: seq<EdgePoint>, corner: seq<bool>, smooth: bool, radial: nat, edges: nat, closed: bool,
                    shade: Slot -> Attributes)
    requires 1 <= edges <= 2 && 0 < radial && 1 <= |corner| && corner[0]
    requires radial <= |Layout(corner, smooth, edges, radial)|
    requires Fresh(ep, Layout(corner, smooth, edges, radial), radial, edges, closed, shade)
    ensures Rooted(ep, Spokes(Layout(corner, smooth, edges, radial)), corner, radial, edges)
  {
    var tag := Spokes(Layout(corner, smooth, edges, radial));
    forall j | 0 <= j < radial
      ensures RootAt(ep, tag, corner, j, 0, j) && (edges == 2 ==> RootAt(ep, tag, corner, j, 1, j + radial))
    {
      FreshRoot(ep, corner, smooth, radial, edges, closed, shade, j);
      if edges == 2 {
        FreshRoot(ep, corner, smooth, radial, edges, closed, shade, j + radial);
      }
    }
    LayoutStriped(corner, smooth, edges, radial);
    forall k | 0 <= k < |ep| && !ep[k].removed
      ensures 0 <= ep[k].edge < edges
    {
      FreshEdge(ep, corner, smooth, radial, edges, closed, shade, k);
    }
  }

  /** Slot k of the first block is a live vertex of center point 0, on
      spoke k mod radial. */
  lemma FreshRoot(ep: seq<EdgePoint>, corner: seq<bool>, smooth: bool, radial: nat, edges: nat, closed: bool,
                  shade: Slot -> Attributes, k: nat)
    requires 1 <= edges <= 2 && 0 < radial && 1 <= |corner| && corner[0]
    requires radial <= |Layout(corner, smooth, edges, radial)|
    requires Fresh(ep, Layout(corner, smooth, edges, radial), radial, edges, closed, shade)
    requires k < BlockSize(edges, radial)
    ensures RootAt(ep, Spokes(Layout(corner, smooth, edges, radial)), corner, if k < radial then k else k - radial,
                   if k < radial then 0 else 1, k)
  {
    LayoutHead(corner, smooth, edges, radial, k);
    assert FreshAt(ep, Layout(corner, smooth, edges, radial), radial, edges, closed, shade, k);
  }

  lemma FreshEdge(ep: seq<EdgePoint>, corner: seq<bool>, smooth: bool, radial: nat, edges: nat, closed: bool,
                  shade: Slot -> Attributes, k: nat)
    requires 1 <= edges <= 2 && 0 < radial && radial <= |Layout(corner, smooth, edges, radial)|
    requires Striped(Layout(corner, smooth, edges, radial), radial, edges)
    requires Fresh(ep, Layout(corner, smooth, edges, radial), radial, edges, closed, shade)
    requires k < |ep|
    ensures 0 <= ep[k].edge < edges
  {
    assert FreshAt(ep, Layout(corner, smooth, edges, radial), radial, edges, closed, shade, k);
    StripedEdge(Layout(corner, smooth, edges, radial), radial, edges, k);
  }

  /** Every vertex ring construction makes comes from a center point. */
  lemma {:induction false} FreshSourced(ep: seq<EdgePoint>, corner: seq<bool>, smooth: bool, radial: nat, edges: nat, closed: bool,
                     shade: Slot -> Attributes)
    requires 1 <= edges <= 2 && 0 < radial && radial <= |Layout(corner, smooth, edges, radial)|
    requires Fresh(ep, Layout(corner, smooth, edges, radial), radial, edges, closed, shade)
    ensures Sourced(ep, corner)
  {
    var lay := Layout(corner, smooth, edges, radial);
    LayoutSources(corner, smooth, edges, radial);
    forall k | 0 <= k < |ep|
      ensures 0 <= ep[k].source < |corner|
    {
      assert FreshAt(ep, lay, radial, edges, closed, shade, k);
      assert SourcedAt(lay, corner, smooth, k);
    }
  }

  /** Interleaving keeps the corner anchors, since it only removes vertices
      of non-corner center points, and keeps every source. */
  lemma KeptRooted(ep0: seq<EdgePoint>, ep: seq<EdgePoint>, tag: seq<nat>, corner: seq<bool>, radial: nat, edges: nat)
    requires Kept(ep0, ep) && Gone(ep0, ep, corner) && Rooted(ep0, tag, corner, radial, edges) && Sourced(ep0, corner)
    ensures Rooted(ep, tag, corner, radial, edges) && Sourced(ep, corner)
  {
    forall j | 0 <= j < radial
      ensures RootAt(ep, tag, corner, j, 0, j) && (edges == 2 ==> RootAt(ep, tag, corner, j, 1, j + radial))
    {
      KeptAnchor(ep0, ep, tag, corner, j, 0, j);
      if edges == 2 {
        KeptAnchor(ep0, ep, tag, corner, j, 1, j + radial);
      }
    }
    forall k | 0 <= k < |ep|
      ensures (!ep[k].removed ==> 0 <= ep[k].edge < edges) && 0 <= ep[k].source < |corner|
    {
      assert KeptAt(ep0, ep, k);
    }
  }

  lemma KeptAnchor(ep0: seq<EdgePoint>, ep: seq<EdgePoint>, tag: seq<nat>, corner: seq<bool>, j: nat, e: int, m: int)
    requires Kept(ep0, ep) && Gone(ep0, ep, corner) && RootAt(ep0, tag, corner, j, e, m)
    ensures RootAt(ep, tag, corner, j, e, m)
  {
    assert KeptAt(ep0, ep, m);
    assert Newly(ep0, ep, m) ==> GoneAt(ep0, ep, corner, m);
  }

  /** Ring construction's chains start at their spoke: they are the
      vertices j, j + radial, ... and hold at least two of them. */
  lemma {:induction false} StartHeaded(radial: nat, n: nat, j: nat)
    requires 0 < radial && j < radial && radial + radial <= n
    ensures Headed(ChainFrom(j, radial, n), j)
  {
    var c := ChainFrom(j, radial, n);
    assert c[0] == j;
  }

  /** Chains that start at their spoke and alternate edges are ready for
      the strip walk: position 1 is on the other edge. */
  lemma HeadedReady(ep: seq<EdgePoint>, tag: seq<nat>, orders: seq<seq<int>>, radial: nat)
    requires Chained(ep, tag, orders) && |orders| == radial
    requires forall j :: 0 <= j < radial ==> Headed(orders[j], j) && Alternating(ep, orders[j], 2)
    ensures StripsReady(ep, orders, radial)
  {
    forall j | 0 <= j < radial
      ensures ChainReady(ep, orders[j], j)
    {
      var o := orders[j];
      assert Cycle(ep, o) && Headed(o, j) && Alternating(ep, o, 2);
      forall t | 0 <= t < |o|
        ensures Live(ep, o[t]) && 0 <= ep[o[t]].edge <= 1
      {
        assert CycleAt(ep, o, t);
      }
      assert o[0] == j && ep[o[1]].edge != ep[j].edge;
    }
  }

  /** Chains that hold a live anchor on each edge are ready for the strip
      walk. */
  lemma RootedReady(ep: seq<EdgePoint>, tag: seq<nat>, corner: seq<bool>, orders: seq<seq<int>>, radial: nat)
    requires Chained(ep, tag, orders) && |orders| == radial && Rooted(ep, tag, corner, radial, 2)
    ensures StripsReady(ep, orders, radial)
  {
    forall j | 0 <= j < radial
      ensures ChainReady(ep, orders[j], j)
    {
      var o := orders[j];
      assert RootAt(ep, tag, corner, j, 0, j) && RootAt(ep, tag, corner, j, 1, j + radial);
      assert Cycle(ep, o) && j in o && j + radial in o;
      forall t | 0 <= t < |o|
        ensures Live(ep, o[t]) && 0 <= ep[o[t]].edge <= 1
      {
        assert CycleAt(ep, o, t);
      }
      var w := IndexOf(o, j + radial);
      assert ep[o[w]].edge != ep[j].edge;
    }
  }

  /** Slot `off` of every block of `tag` is on spoke `off`. */
  ghost predicate Spoked(tag: seq<nat>, radial: nat)
  {
    forall b, off :: 0 <= off < radial && Spot(b, off, radial) < |tag| ==> tag[Spot(b, off, radial)] == off
  }

  /** Slot `off` of block b. */
  function Spot(b: nat, off: nat, radial: nat): nat
  {
    Blocks(b, radial) + off
  }

  /** The spokes of a one-edge layout. */
  lemma {:induction false} LayoutSpoked(corner: seq<bool>, smooth: bool, radial: nat)
    requires 0 < radial && 1 <= |corner|
    ensures Spoked(Spokes(Layout(corner, smooth, 1, radial)), radial)
  {
    var lay := Layout(corner, smooth, 1, radial);
    LayoutStriped(corner, smooth, 1, radial);
    forall b, off | 0 <= off < radial && Spot(b, off, radial) < |lay|
      ensures Spokes(lay)[Spot(b, off, radial)] == off
    {
      StripedSpoke(lay, radial, b, off);
    }
  }

  lemma {:induction false} SpokedAt(tag: seq<nat>, radial: nat, b: nat, off: nat)
    requires Spoked(tag, radial) && off < radial && Blocks(b, radial) + off < |tag|
    ensures tag[Blocks(b, radial) + off] == off
  {
    assert tag[Spot(b, off, radial)] == off;
  }

  /** After filtering, a tube's chains still run spoke by spoke: the vertex
      a live vertex links to is on its spoke, in a later ring or, wrapping
      around, the first, so the tube walk can run. */
  lemma {:induction false} ChainedTubeReady(ep: seq<EdgePoint>, tag: seq<nat>, orders: seq<seq<int>>, radial: nat, rings: nat,
                         rank: seq<nat>, clock: nat)
    requires 0 < radial && |ep| == Blocks(rings, radial) && Stale(ep, rank, clock)
    requires Chained(ep, tag, orders) && Spoked(tag, radial)
    ensures TubeReady(ep, radial, rings, rank, clock)
  {
    forall r, j | 0 <= r < rings && 0 <= j < radial
      ensures SpokeReady(ep, radial, Blocks(r, radial), j)
    {
      SpokeFollows(ep, tag, orders, radial, rings, r, j);
    }
  }

  lemma {:induction false} SpokeFollows(ep: seq<EdgePoint>, tag: seq<nat>, orders: seq<seq<int>>, radial: nat, rings: nat, r: nat, j: nat)
    requires 0 < radial && |ep| == Blocks(rings, radial) && r < rings && j < radial
    requires Chained(ep, tag, orders) && Spoked(tag, radial)
    ensures SpokeReady(ep, radial, Blocks(r, radial), j)
  {
    var i := Blocks(r, radial);
    BlocksMono(r, rings, radial);
    var k := i + j;
    if !ep[k].removed {
      SpokedAt(tag, radial, r, j);
      var o := orders[j];
      assert Cycle(ep, o) && Tagged(tag, o, j) && k in o;
      var t := IndexOf(o, k);
      assert CycleAt(ep, o, t);
      var nx := ep[k].next;
      assert nx == o[Succ(t, |o|)] && CycleAt(ep, o, Succ(t, |o|));
      assert tag[nx] == j;
      var b := BlockOf(nx, rings, radial);
      SpokedAt(tag, radial, b, nx - Blocks(b, radial));
      assert nx - j == Blocks(b, radial);
      BlocksMono(b, rings, radial);
    }
  }

  /** Packing renumbers `source` and nothing else. */
  lemma RenumberedAt(ep0: seq<EdgePoint>, ep: seq<EdgePoint>, k: nat)
    requires Renumbered(ep0, ep) && k < |ep|
    ensures ep[k] == ep0[k].(source := ep[k].source)
  {
  }

  /** The strip walk's requirements survive packing. */
  lemma RenumberedStrips(ep0: seq<EdgePoint>, ep: seq<EdgePoint>, orders: seq<seq<int>>, radial: nat)
    requires Renumbered(ep0, ep) && StripsReady(ep0, orders, radial)
    ensures StripsReady(ep, orders, radial)
  {
    forall j | 0 <= j < radial
      ensures ChainReady(ep, orders[j], j)
    {
      RenumberedChain(ep0, ep, orders[j], j);
    }
  }

  lemma RenumberedChain(ep0: seq<EdgePoint>, ep: seq<EdgePoint>, o: seq<int>, j: nat)
    requires Renumbered(ep0, ep) && ChainReady(ep0, o, j)
    ensures ChainReady(ep, o, j)
  {
    RenumberedCycle(ep0, ep, o);
    var w :| 0 <= w < |o| && ep0[o[w]].edge != ep0[j].edge;
    RenumberedAt(ep0, ep, o[w]);
    RenumberedAt(ep0, ep, j);
    assert ep[o[w]].edge != ep[j].edge;
  }

  lemma RenumberedCycle(ep0: seq<EdgePoint>, ep: seq<EdgePoint>, o: seq<int>)
    requires Renumbered(ep0, ep) && Walkable(ep0, o)
    ensures Walkable(ep, o)
  {
    forall t | 0 <= t < |o|
      ensures CycleAt(ep, o, t) && 0 <= ep[o[t]].edge <= 1
    {
      assert CycleAt(ep0, o, t) && 0 <= ep0[o[t]].edge <= 1;
      RenumberedAt(ep0, ep, o[t]);
    }
  }

  /** The tube walk's requirements survive packing. */
  lemma RenumberedTube(ep0: seq<EdgePoint>, ep: seq<EdgePoint>, radial: nat, rings: nat, rank: seq<nat>, clock: nat)
    requires Renumbered(ep0, ep) && TubeReady(ep0, radial, rings, rank, clock)
    ensures TubeReady(ep, radial, rings, rank, clock)
  {
    forall k | 0 <= k < |ep| && ep[k].removed
      ensures StaleAt(ep, rank, clock, k)
    {
      RenumberedAt(ep0, ep, k);
      assert StaleAt(ep0, rank, clock, k);
      RenumberedAt(ep0, ep, ep[k].next);
      RenumberedAt(ep0, ep, ep[k].prev);
    }
    forall r, j | 0 <= r < rings && 0 <= j < radial
      ensures SpokeReady(ep, radial, Blocks(r, radial), j)
    {
      var i := Blocks(r, radial);
      assert SpokeReady(ep0, radial, i, j);
      RenumberedAt(ep0, ep, i + j);
      if !ep[i + j].removed {
        RenumberedAt(ep0, ep, ep[i + j].next);
      }
    }
  }

  /** Packing keeps an unfiltered tube array's ring structure. */
  lemma RenumberedShaped(ep0: seq<EdgePoint>, ep: seq<EdgePoint>, flags: seq<bool>, radial: nat, closed: bool)
    requires Renumbered(ep0, ep) && Shaped(ep0, flags, radial, closed)
    ensures Shaped(ep, flags, radial, closed)
  {
    forall r, off | 0 <= r < |flags| && 0 <= off < radial
      ensures ShapedAt(ep, flags, radial, closed, r, off)
    {
      assert ShapedAt(ep0, flags, radial, closed, r, off);
      RenumberedAt(ep0, ep, Blocks(r, radial) + off);
    }
  }

  /** Packing keeps a strip array's ring structure. */
  lemma RenumberedStripShaped(ep0: seq<EdgePoint>, ep: seq<EdgePoint>, cut: seq<bool>, radial: nat)
    requires Renumbered(ep0, ep) && StripShaped(ep0, cut, radial)
    ensures StripShaped(ep, cut, radial)
  {
    forall r, off | 0 <= r < |cut| && 0 <= off < radial + radial
      ensures StripShapedAt(ep, cut, radial, r, off)
    {
      assert StripShapedAt(ep0, cut, radial, r, off);
      RenumberedAt(ep0, ep, Blocks(r, radial + radial) + off);
    }
  }

  /** When nothing is filtered out, the tube walk over the packed array
      closes two triangles per segment between every ring and the ring
      after it where the surface goes on: 2R(P - 1) over P center points of
      an open curve and 2RP over a closed one, corner copies or not. */
  lemma PackedTubeTotal(ep0: seq<EdgePoint>, ep: seq<EdgePoint>, corner: seq<bool>, smooth: bool, radial: nat, closed: bool,
                        shade: Slot -> Attributes, rank: seq<nat>, clock: nat)
    requires FreshTube(ep0, corner, smooth, radial, closed, shade) && Renumbered(ep0, ep) && |rank| == |ep|
    ensures TubeReady(ep, radial, |RingFlags(corner, smooth)|, rank, clock)
    ensures var flags := RingFlags(corner, smooth);
      TubeFaces(ep, radial, |flags|, rank, clock, |flags|) == PairTube(RingCuts(flags, closed), radial, |flags|)
    ensures var rings := |RingFlags(corner, smooth)|;
      |TubeFaces(ep, radial, rings, rank, clock, rings)| == 2 * radial * (|corner| - if closed then 0 else 1)
  {
    var flags := RingFlags(corner, smooth);
    FreshShaped(ep0, corner, smooth, radial, closed, shade);
    RenumberedShaped(ep0, ep, flags, radial, closed);
    ShapedReady(ep, flags, radial, closed, rank, clock);
    ShapedTube(ep, flags, radial, closed, rank, clock, |flags|);
    PairTubeTotal(corner, smooth, radial, closed);
  }

  /** When nothing is removed, the strip walk over the packed array closes
      the two junction triangles of every chain between every ring and the
      ring after it where the surface goes on: 2R(P - 1) over P center
      points of an open curve and 2RP over a closed one, corner copies or
      not. */
  lemma PackedStripTotal(ep0: seq<EdgePoint>, ep: seq<EdgePoint>, corner: seq<bool>, smooth: bool, radial: nat, closed: bool,
                         shade: Slot -> Attributes, starts: seq<Start>)
    requires FreshStrip(ep0, corner, smooth, radial, closed, shade) && Renumbered(ep0, ep)
    requires Started(ep, StartOrders(radial, |ep|), starts, radial)
    ensures StripShaped(ep, RingCuts(RingFlags(corner, smooth), closed), radial)
    ensures AllStrips(ep, StartOrders(radial, |ep|), starts, radial)
              == AllJunctions(StartOrders(radial, |ep|), RingCuts(RingFlags(corner, smooth), closed), radial)
    ensures |AllStrips(ep, StartOrders(radial, |ep|), starts, radial)| == 2 * radial * (|corner| - if closed then 0 else 1)
  {
    var flags := RingFlags(corner, smooth);
    var cut := RingCuts(flags, closed);
    FreshStripShaped(ep0, corner, smooth, radial, closed, shade);
    RenumberedStripShaped(ep0, ep, cut, radial);
    ShapedStripTotal(ep, cut, radial, starts);
    RingCutsUncut(flags, closed);
    RingFlagsCopies(corner, smooth);
    assert Uncut(cut) == |corner| - (if closed then 0 else 1);
  }
}
