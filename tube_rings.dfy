/** The tube triangles of a freshly built array, before any vertex is
    filtered out: every vertex of ring r is joined to the ring its links
    lead to next, and both of its triangles are there exactly when the
    surface does not stop between the two rings. A tube over P center
    points with R segments therefore has 2R(P - 1) triangles when the curve
    is open and 2RP when it is closed, whatever the corners. */
module TubeRings {
  import opened Records
  import opened Chains
  import opened Strips
  import opened EdgeVertices
  import opened InitialChains
  import opened RingLayout
  import opened Tubes

  /** The tube layout: one edge, a block of `radial` vertices per ring. */
  ghost predicate FreshTube(ep: seq<EdgePoint>, corner: seq<bool>, smooth: bool, radial: nat, closed: bool,
                            shade: Slot -> Attributes)
  {
    && 0 < radial && 1 <= |corner|
    && radial <= |Layout(corner, smooth, 1, radial)|
    && Fresh(ep, Layout(corner, smooth, 1, radial), radial, 1, closed, shade)
  }

  /** The array is the rings of the layout, one block each. */
  lemma {:induction false} FreshBlocks(ep: seq<EdgePoint>, corner: seq<bool>, smooth: bool, radial: nat, closed: bool,
                    shade: Slot -> Attributes)
    requires FreshTube(ep, corner, smooth, radial, closed, shade)
    ensures |ep| == Blocks(|RingFlags(corner, smooth)|, radial) && 1 <= |RingFlags(corner, smooth)|
  {
    LayoutBlocks(corner, smooth, 1, radial);
  }

  /** A freshly built vertex of the tube layout is live and linked one
      slot-ring further on, wrapping past the end. */
  lemma FreshLink(ep: seq<EdgePoint>, corner: seq<bool>, smooth: bool, radial: nat, closed: bool,
                  shade: Slot -> Attributes, k: nat, next: nat)
    requires FreshTube(ep, corner, smooth, radial, closed, shade) && k < |ep|
    requires var lay := Layout(corner, smooth, 1, radial);
      next == (if k + radial < |lay| then k + radial else k + radial - |lay|)
    ensures !ep[k].removed && ep[k].next == next
  {
    assert FreshAt(ep, Layout(corner, smooth, 1, radial), radial, 1, closed, shade, k);
  }

  /** Whether the surface goes on from slot k of a tube layout: the slot a
      ring further on is no copy or, past the end, the curve is closed. */
  ghost function GoesOn(lay: seq<Slot>, radial: nat, closed: bool, k: nat): bool
    requires k < |lay|
  {
    if k + radial < |lay| then !lay[k + radial].duplicate else closed
  }

  /** A freshly built vertex of the tube layout goes on unless the slot
      after it is a copy, or, past the end, unless the curve is open. */
  lemma FreshJoin(ep: seq<EdgePoint>, corner: seq<bool>, smooth: bool, radial: nat, closed: bool,
                  shade: Slot -> Attributes, k: nat, joined: bool)
    requires FreshTube(ep, corner, smooth, radial, closed, shade) && k < |ep|
    requires k < |Layout(corner, smooth, 1, radial)|
    requires joined == GoesOn(Layout(corner, smooth, 1, radial), radial, closed, k)
    ensures ep[k].nextConnected == joined
  {
    assert FreshAt(ep, Layout(corner, smooth, 1, radial), radial, 1, closed, shade, k);
  }

  lemma FreshPrev(ep: seq<EdgePoint>, corner: seq<bool>, smooth: bool, radial: nat, closed: bool,
                  shade: Slot -> Attributes, k: nat, joined: bool)
    requires FreshTube(ep, corner, smooth, radial, closed, shade) && k < |ep|
    requires joined == (!Layout(corner, smooth, 1, radial)[k].duplicate && (closed || k >= radial))
    ensures ep[k].prevConnected == joined
  {
    assert FreshAt(ep, Layout(corner, smooth, 1, radial), radial, 1, closed, shade, k);
  }

  /** Slot `off` of the ring after ring r sits one block further on, or
      back at the start past the last ring. */
  lemma LayoutNext(corner: seq<bool>, smooth: bool, radial: nat, r: nat, off: nat)
    requires r < |RingFlags(corner, smooth)| && off < radial
    ensures var rings, lay := |RingFlags(corner, smooth)|, Layout(corner, smooth, 1, radial);
      var k := Blocks(r, radial) + off;
      && k < |lay|
      && (k + radial < |lay| <==> r + 1 < rings)
      && (if k + radial < |lay| then k + radial else k + radial - |lay|) == Blocks(Succ(r, rings), radial) + off
  {
    var rings := |RingFlags(corner, smooth)|;
    LayoutBlocks(corner, smooth, 1, radial);
    BlocksMono(r, rings, radial);
    assert Blocks(r + 1, radial) == Blocks(r, radial) + radial;
    if r + 1 < rings {
      BlocksMono(r + 1, rings, radial);
    }
  }

  /** The surface goes on from ring r exactly where the next slot along is
      no copy, or, past the last ring, where the curve is closed. */
  lemma LayoutJoined(corner: seq<bool>, smooth: bool, radial: nat, closed: bool, r: nat, off: nat)
    requires r < |RingFlags(corner, smooth)| && off < radial
    ensures Blocks(r, radial) + off < |Layout(corner, smooth, 1, radial)|
    ensures GoesOn(Layout(corner, smooth, 1, radial), radial, closed, Blocks(r, radial) + off)
            == !RingCuts(RingFlags(corner, smooth), closed)[r]
  {
    LayoutNext(corner, smooth, radial, r, off);
    TubeSlotAfter(corner, smooth, radial, r, off);
    JoinedFrom(RingFlags(corner, smooth), Layout(corner, smooth, 1, radial), radial, closed, r, off);
  }

  /** LayoutJoined over any flags and layout that agree ring by ring. */
  lemma JoinedFrom(flags: seq<bool>, lay: seq<Slot>, radial: nat, closed: bool, r: nat, off: nat)
    requires r < |flags| && Blocks(r, radial) + off < |lay|
    requires Blocks(r, radial) + off + radial < |lay| <==> r + 1 < |flags|
    requires r + 1 < |flags| ==> Blocks(r + 1, radial) + off < |lay| && lay[Blocks(r + 1, radial) + off].duplicate == flags[r + 1]
    ensures GoesOn(lay, radial, closed, Blocks(r, radial) + off) == !RingCuts(flags, closed)[r]
  {
    if r + 1 < |flags| {
      assert Blocks(r + 1, radial) == Blocks(r, radial) + radial;
      GoesOnNext(lay, radial, closed, Blocks(r, radial) + off, Blocks(r + 1, radial) + off, flags[r + 1]);
    } else {
      GoesOnEnd(lay, radial, closed, Blocks(r, radial) + off);
    }
  }

  /** Slot `off` of the tube ring after ring r, when there is one, is a copy
      exactly when that ring is. */
  lemma TubeSlotAfter(corner: seq<bool>, smooth: bool, radial: nat, r: nat, off: nat)
    requires off < radial
    ensures r + 1 < |RingFlags(corner, smooth)| ==>
      && Blocks(r + 1, radial) + off < |Layout(corner, smooth, 1, radial)|
      && Layout(corner, smooth, 1, radial)[Blocks(r + 1, radial) + off].duplicate == RingFlags(corner, smooth)[r + 1]
  {
    if r + 1 < |RingFlags(corner, smooth)| {
      assert BlockSize(1, radial) == radial;
      LayoutRings(corner, smooth, 1, radial, r + 1, off);
    }
  }

  lemma GoesOnNext(lay: seq<Slot>, radial: nat, closed: bool, k: nat, j: nat, copy: bool)
    requires j == k + radial && j < |lay| && lay[j].duplicate == copy
    ensures GoesOn(lay, radial, closed, k) == !copy
  {
  }

  lemma GoesOnEnd(lay: seq<Slot>, radial: nat, closed: bool, k: nat)
    requires k < |lay| <= k + radial
    ensures GoesOn(lay, radial, closed, k) == closed
  {
  }

  /** The flag ring construction gives slot `off` of ring r for coming
      from the ring before it says whether the surface goes on into ring
      r. */
  lemma {:induction false} LayoutBackward(corner: seq<bool>, smooth: bool, radial: nat, closed: bool, r: nat, off: nat)
    requires r < |RingFlags(corner, smooth)| && off < radial
    ensures var flags, lay := RingFlags(corner, smooth), Layout(corner, smooth, 1, radial);
      var k := Blocks(r, radial) + off;
      && k < |lay|
      && (!lay[k].duplicate && (closed || k >= radial)) == !RingCuts(flags, closed)[Pred(r, |flags|)]
  {
    var flags := RingFlags(corner, smooth);
    var rings := |flags|;
    var k := Blocks(r, radial) + off;
    var cut := RingCuts(flags, closed);
    LayoutRings(corner, smooth, 1, radial, r, off);
    if r > 0 {
      BlocksMono(0, r, radial);
      assert cut[Pred(r, rings)] == flags[r];
    } else {
      assert cut[Pred(r, rings)] == !closed;
    }
  }

  /** Forward from vertex `off` of ring r: the same slot of the next ring. */
  lemma {:induction false} FreshForward(ep: seq<EdgePoint>, corner: seq<bool>, smooth: bool, radial: nat, closed: bool,
                     shade: Slot -> Attributes, r: nat, off: nat)
    requires FreshTube(ep, corner, smooth, radial, closed, shade)
    requires r < |RingFlags(corner, smooth)| && off < radial
    ensures Blocks(r, radial) + off < |ep| && !ep[Blocks(r, radial) + off].removed
    ensures ep[Blocks(r, radial) + off].next == Blocks(Succ(r, |RingFlags(corner, smooth)|), radial) + off
  {
    LayoutNext(corner, smooth, radial, r, off);
    FreshLink(ep, corner, smooth, radial, closed, shade, Blocks(r, radial) + off,
              Blocks(Succ(r, |RingFlags(corner, smooth)|), radial) + off);
  }

  /** Forward from vertex `off` of ring r, the surface goes on unless it
      stops after ring r. */
  lemma {:induction false} FreshOnward(ep: seq<EdgePoint>, corner: seq<bool>, smooth: bool, radial: nat, closed: bool,
                     shade: Slot -> Attributes, r: nat, off: nat)
    requires FreshTube(ep, corner, smooth, radial, closed, shade)
    requires r < |RingFlags(corner, smooth)| && off < radial
    ensures Blocks(r, radial) + off < |ep|
    ensures ep[Blocks(r, radial) + off].nextConnected == !RingCuts(RingFlags(corner, smooth), closed)[r]
  {
    LayoutJoined(corner, smooth, radial, closed, r, off);
    FreshJoin(ep, corner, smooth, radial, closed, shade, Blocks(r, radial) + off,
              !RingCuts(RingFlags(corner, smooth), closed)[r]);
  }

  /** Backward from vertex `off` of ring r. */
  lemma {:induction false} FreshBackward(ep: seq<EdgePoint>, corner: seq<bool>, smooth: bool, radial: nat, closed: bool,
                      shade: Slot -> Attributes, r: nat, off: nat)
    requires FreshTube(ep, corner, smooth, radial, closed, shade)
    requires r < |RingFlags(corner, smooth)| && off < radial
    ensures var rings := |RingFlags(corner, smooth)|;
      var k := Blocks(r, radial) + off;
      k < |ep| && ep[k].prevConnected == !RingCuts(RingFlags(corner, smooth), closed)[Pred(r, rings)]
  {
    LayoutBackward(corner, smooth, radial, closed, r, off);
    FreshPrev(ep, corner, smooth, radial, closed, shade, Blocks(r, radial) + off,
              !RingCuts(RingFlags(corner, smooth), closed)[Pred(r, |RingFlags(corner, smooth)|)]);
  }

  /** Vertex `off` of ring r, in terms of the rings alone: live, linked
      forward to the same spoke of the ring after it (the first ring after
      the last), connected forward unless the surface stops after ring r and
      backward unless it stops before. */
  ghost predicate ShapedAt(ep: seq<EdgePoint>, flags: seq<bool>, radial: nat, closed: bool, r: nat, off: nat)
    requires r < |flags|
  {
    var rings, cut := |flags|, RingCuts(flags, closed);
    var k := Blocks(r, radial) + off;
    && k < |ep| && !ep[k].removed
    && ep[k].next == Blocks(Succ(r, rings), radial) + off
    && ep[k].nextConnected == !cut[r]
    && ep[k].prevConnected == !cut[Pred(r, rings)]
  }

  /** An unfiltered tube array, seen ring by ring. */
  ghost predicate Shaped(ep: seq<EdgePoint>, flags: seq<bool>, radial: nat, closed: bool)
  {
    && 0 < radial && 1 <= |flags| && |ep| == Blocks(|flags|, radial)
    && forall r, off :: 0 <= r < |flags| && 0 <= off < radial ==> ShapedAt(ep, flags, radial, closed, r, off)
  }

  lemma {:induction false} FreshShaped(ep: seq<EdgePoint>, corner: seq<bool>, smooth: bool, radial: nat, closed: bool,
                    shade: Slot -> Attributes)
    requires FreshTube(ep, corner, smooth, radial, closed, shade)
    ensures Shaped(ep, RingFlags(corner, smooth), radial, closed)
  {
    var flags := RingFlags(corner, smooth);
    FreshBlocks(ep, corner, smooth, radial, closed, shade);
    forall r, off | 0 <= r < |flags| && 0 <= off < radial
      ensures ShapedAt(ep, flags, radial, closed, r, off)
    {
      FreshForward(ep, corner, smooth, radial, closed, shade, r, off);
      FreshOnward(ep, corner, smooth, radial, closed, shade, r, off);
      FreshBackward(ep, corner, smooth, radial, closed, shade, r, off);
    }
  }

  /** Nothing is removed from an unfiltered tube array. */
  lemma ShapedLive(ep: seq<EdgePoint>, flags: seq<bool>, radial: nat, closed: bool, k: nat)
    requires Shaped(ep, flags, radial, closed) && k < |ep|
    ensures !ep[k].removed
  {
    var r := BlockOf(k, |flags|, radial);
    assert ShapedAt(ep, flags, radial, closed, r, k - Blocks(r, radial));
  }

  /** The block that holds index k. */
  lemma {:induction false} BlockOf(k: nat, rings: nat, radial: nat) returns (r: nat)
    requires 0 < radial && k < Blocks(rings, radial)
    ensures r < rings && Blocks(r, radial) <= k < Blocks(r, radial) + radial
    decreases rings
  {
    if k < Blocks(rings - 1, radial) {
      r := BlockOf(k, rings - 1, radial);
    } else {
      r := rings - 1;
    }
  }

  /** The tube walk can run over an unfiltered tube array. */
  lemma ShapedReady(ep: seq<EdgePoint>, flags: seq<bool>, radial: nat, closed: bool, rank: seq<nat>, clock: nat)
    requires Shaped(ep, flags, radial, closed) && |rank| == |ep|
    ensures TubeReady(ep, radial, |flags|, rank, clock)
  {
    var rings := |flags|;
    forall k | 0 <= k < |ep|
      ensures !ep[k].removed
    {
      ShapedLive(ep, flags, radial, closed, k);
    }
    forall r, j | 0 <= r < rings && 0 <= j < radial
      ensures SpokeReady(ep, radial, Blocks(r, radial), j)
    {
      ShapedSpoke(ep, flags, radial, closed, r, j);
    }
  }

  lemma {:induction false} ShapedSpoke(ep: seq<EdgePoint>, flags: seq<bool>, radial: nat, closed: bool, r: nat, j: nat)
    requires Shaped(ep, flags, radial, closed) && r < |flags| && j < radial
    ensures SpokeReady(ep, radial, Blocks(r, radial), j)
  {
    var rings := |flags|;
    assert ShapedAt(ep, flags, radial, closed, r, j);
    assert ShapedAt(ep, flags, radial, closed, Succ(r, rings), j);
    BlocksMono(r, rings, radial);
    if Succ(r, rings) + 1 < rings {
      BlocksMono(Succ(r, rings), rings, radial);
    }
  }

  /** Vertex j of ring r has its two triangles, to the same and the
      neighbouring spokes of the ring after it, exactly when the surface
      does not stop after ring r. */
  lemma {:induction false} ShapedSpokeFaces(ep: seq<EdgePoint>, flags: seq<bool>, radial: nat, closed: bool,
                         rank: seq<nat>, clock: nat, r: nat, j: nat)
    requires Shaped(ep, flags, radial, closed) && Stale(ep, rank, clock) && r < |flags| && j < radial
    ensures SpokeReady(ep, radial, Blocks(r, radial), j)
    ensures SpokeFaces(ep, radial, rank, clock, Blocks(r, radial), j)
              == SpokePair(Blocks(r, radial), Blocks(Succ(r, |flags|), radial), j, radial, !RingCuts(flags, closed)[r])
  {
    var rings := |flags|;
    var i, s := Blocks(r, radial), Blocks(Succ(r, rings), radial);
    ShapedSpoke(ep, flags, radial, closed, r, j);
    ShapedCorners(ep, flags, radial, closed, r, j);
    FourCorners(ep, radial, rank, clock, i, j, s, !RingCuts(flags, closed)[r]);
  }

  /** The four corners of the triangles of vertex j of ring r, and their
      connection flags. */
  lemma {:induction false} ShapedCorners(ep: seq<EdgePoint>, flags: seq<bool>, radial: nat, closed: bool, r: nat, j: nat)
    requires Shaped(ep, flags, radial, closed) && r < |flags| && j < radial
    ensures var i, s, on := Blocks(r, radial), Blocks(Succ(r, |flags|), radial), !RingCuts(flags, closed)[r];
      var top, bot := i + Succ(j, radial), s + Pred(j, radial);
      && Live(ep, i + j) && ep[i + j].next == s + j && ep[i + j].nextConnected == on
      && Live(ep, top) && ep[top].nextConnected == on
      && s + j < |ep| && ep[s + j].prevConnected == on
      && Live(ep, bot) && ep[bot].prevConnected == on
  {
    var rings := |flags|;
    assert Pred(Succ(r, rings), rings) == r;
    assert ShapedAt(ep, flags, radial, closed, r, j);
    assert ShapedAt(ep, flags, radial, closed, r, Succ(j, radial));
    assert ShapedAt(ep, flags, radial, closed, Succ(r, rings), j);
    assert ShapedAt(ep, flags, radial, closed, Succ(r, rings), Pred(j, radial));
  }

  /** The triangles of vertex i + j when it and the three other corners
      are live and all four agree on whether the surface goes on between
      ring i and ring s. */
  lemma FourCorners(ep: seq<EdgePoint>, radial: nat, rank: seq<nat>, clock: nat, i: nat, j: nat, s: nat, on: bool)
    requires Stale(ep, rank, clock) && SpokeReady(ep, radial, i, j)
    requires !ep[i + j].removed && ep[i + j].next == s + j
    requires Live(ep, i + Succ(j, radial)) && Live(ep, s + Pred(j, radial))
    requires ep[i + j].nextConnected == on && ep[s + j].prevConnected == on
    requires ep[i + Succ(j, radial)].nextConnected == on && ep[s + Pred(j, radial)].prevConnected == on
    ensures SpokeFaces(ep, radial, rank, clock, i, j) == SpokePair(i, s, j, radial, on)
  {
    SpokeFacesAt(ep, radial, rank, clock, i, j, i + Succ(j, radial), s + Pred(j, radial));
  }

  /** The two triangles of vertex i + j between the ring starting at i
      and the ring starting at s, when the surface goes on between them. */
  function SpokePair(i: nat, s: nat, j: nat, radial: nat, on: bool): (faces: seq<Face>)
    requires j < radial
    ensures |faces| == if on then 2 else 0
  {
    if on then [Face(i + j, s + j, i + Succ(j, radial)), Face(i + j, s + Pred(j, radial), s + j)] else []
  }

  /** The triangles spokes 0 .. m-1 of the ring starting at i make with the
      ring starting at s: two per spoke when the surface goes on between
      them, none when it stops. */
  function PairRing(i: nat, s: nat, radial: nat, on: bool, m: nat): (faces: seq<Face>)
    requires m <= radial
  {
    if m == 0 then [] else PairRing(i, s, radial, on, m - 1) + SpokePair(i, s, m - 1, radial, on)
  }

  lemma {:induction false} PairRingLength(i: nat, s: nat, radial: nat, on: bool, m: nat)
    requires m <= radial
    ensures |PairRing(i, s, radial, on, m)| == if on then m + m else 0
    decreases m
  {
    if m > 0 {
      PairRingLength(i, s, radial, on, m - 1);
    }
  }

  /** The triangles of rings 0 .. r-1 of a tube whose rings are `radial`
      vertices each: every ring is joined to the ring after it (the first
      ring after the last) unless the surface is cut there. */
  function PairTube(cut: seq<bool>, radial: nat, r: nat): (faces: seq<Face>)
    requires r <= |cut|
  {
    if r == 0 then []
    else
      var q := r - 1;
      PairTube(cut, radial, q) + PairRing(Blocks(q, radial), Blocks(Succ(q, |cut|), radial), radial, !cut[q], radial)
  }

  /** w for every false entry. */
  function Weight(cut: seq<bool>, w: nat): (n: nat)
  {
    if cut == [] then 0 else Weight(cut[..|cut| - 1], w) + (if cut[|cut| - 1] then 0 else w)
  }

  lemma {:induction false} WeightUncut(cut: seq<bool>, w: nat)
    ensures Weight(cut, w) == w * Uncut(cut)
    decreases |cut|
  {
    if cut != [] {
      var front := cut[..|cut| - 1];
      WeightUncut(front, w);
      CountStep(w, Uncut(front), cut[|cut| - 1]);
    }
  }

  /** w per uncut entry, one more entry. */
  lemma CountStep(w: nat, u: nat, c: bool)
    ensures w * u + (if c then 0 else w) == w * (u + if c then 0 else 1)
  {
  }

  /** Every ring the surface is not cut after gives 2 * radial triangles. */
  lemma {:induction false} PairTubeLength(cut: seq<bool>, radial: nat, r: nat)
    requires r <= |cut|
    ensures |PairTube(cut, radial, r)| == Weight(cut[..r], radial + radial)
    decreases r
  {
    if r > 0 {
      var q := r - 1;
      PairTubeLength(cut, radial, q);
      PairRingLength(Blocks(q, radial), Blocks(Succ(q, |cut|), radial), radial, !cut[q], radial);
      assert cut[..r][..q] == cut[..q];
    }
  }

  /** A tube over P center points with R segments: 2R(P - 1) triangles
      when the curve is open and 2RP when it is closed, corner copies or
      not. */
  lemma {:induction false} PairTubeTotal(corner: seq<bool>, smooth: bool, radial: nat, closed: bool)
    requires 1 <= |corner|
    ensures var flags := RingFlags(corner, smooth);
      |PairTube(RingCuts(flags, closed), radial, |flags|)| == 2 * radial * (|corner| - if closed then 0 else 1)
  {
    var flags := RingFlags(corner, smooth);
    var cut := RingCuts(flags, closed);
    PairTubeLength(cut, radial, |cut|);
    assert cut[..|cut|] == cut;
    WeightUncut(cut, radial + radial);
    RingCutsUncut(flags, closed);
    RingFlagsCopies(corner, smooth);
    assert Uncut(cut) == |corner| - (if closed then 0 else 1);
    TubeArith(radial, Uncut(cut), |corner|, closed);
  }

  lemma TubeArith(radial: nat, uncut: nat, points: nat, closed: bool)
    requires uncut == points - (if closed then 0 else 1)
    ensures (radial + radial) * uncut == 2 * radial * (points - if closed then 0 else 1)
  {
  }

  /** Spokes 0 .. m-1 of the ring starting at i give the paired triangles
      when each spoke does. */
  lemma {:induction false} RingMatch(ep: seq<EdgePoint>, radial: nat, rank: seq<nat>, clock: nat, i: nat, s: nat,
                                     on: bool, m: nat)
    requires Stale(ep, rank, clock) && m <= radial
    requires forall j :: 0 <= j < m ==> SpokeReady(ep, radial, i, j)
    requires forall j :: 0 <= j < m ==> SpokeFaces(ep, radial, rank, clock, i, j) == SpokePair(i, s, j, radial, on)
    ensures RingFaces(ep, radial, rank, clock, i, m) == PairRing(i, s, radial, on, m)
    decreases m
  {
    if m > 0 {
      RingMatch(ep, radial, rank, clock, i, s, on, m - 1);
      RingJoin(ep, radial, rank, clock, i, s, on, m);
    }
  }

  /** One more matched spoke keeps the ring matched. */
  lemma RingJoin(ep: seq<EdgePoint>, radial: nat, rank: seq<nat>, clock: nat, i: nat, s: nat, on: bool, m: nat)
    requires Stale(ep, rank, clock) && 0 < m <= radial
    requires forall j :: 0 <= j < m ==> SpokeReady(ep, radial, i, j)
    requires RingFaces(ep, radial, rank, clock, i, m - 1) == PairRing(i, s, radial, on, m - 1)
    requires SpokeFaces(ep, radial, rank, clock, i, m - 1) == SpokePair(i, s, m - 1, radial, on)
    ensures RingFaces(ep, radial, rank, clock, i, m) == PairRing(i, s, radial, on, m)
  {
    RingStep(ep, radial, rank, clock, i, m);
  }

  /** One more spoke adds its own triangles. */
  lemma RingStep(ep: seq<EdgePoint>, radial: nat, rank: seq<nat>, clock: nat, i: nat, m: nat)
    requires Stale(ep, rank, clock) && 0 < m <= radial
    requires forall j :: 0 <= j < m ==> SpokeReady(ep, radial, i, j)
    ensures RingFaces(ep, radial, rank, clock, i, m)
              == RingFaces(ep, radial, rank, clock, i, m - 1) + SpokeFaces(ep, radial, rank, clock, i, m - 1)
  {
  }

  /** The spokes of ring r are joined to the ring after it exactly when the
      surface is not cut after ring r. */
  lemma {:induction false} ShapedRing(ep: seq<EdgePoint>, flags: seq<bool>, radial: nat, closed: bool, rank: seq<nat>, clock: nat, r: nat)
    requires Shaped(ep, flags, radial, closed) && Stale(ep, rank, clock) && r < |flags|
    ensures forall j :: 0 <= j < radial ==> SpokeReady(ep, radial, Blocks(r, radial), j)
    ensures RingFaces(ep, radial, rank, clock, Blocks(r, radial), radial)
              == PairRing(Blocks(r, radial), Blocks(Succ(r, |flags|), radial), radial, !RingCuts(flags, closed)[r], radial)
  {
    var i, s := Blocks(r, radial), Blocks(Succ(r, |flags|), radial);
    var on := !RingCuts(flags, closed)[r];
    forall j | 0 <= j < radial
      ensures SpokeReady(ep, radial, i, j) && SpokeFaces(ep, radial, rank, clock, i, j) == SpokePair(i, s, j, radial, on)
    {
      ShapedSpokeFaces(ep, flags, radial, closed, rank, clock, r, j);
    }
    RingMatch(ep, radial, rank, clock, i, s, on, radial);
  }

  /** Ring q gives the paired triangles: joined to the ring after it
      exactly when the surface is not cut after ring q. */
  ghost predicate RingMatched(ep: seq<EdgePoint>, radial: nat, rank: seq<nat>, clock: nat, cut: seq<bool>, q: nat)
    requires TubeReady(ep, radial, |cut|, rank, clock) && q < |cut|
  {
    RingFaces(ep, radial, rank, clock, Blocks(q, radial), radial)
      == PairRing(Blocks(q, radial), Blocks(Succ(q, |cut|), radial), radial, !cut[q], radial)
  }

  /** Rings 0 .. r-1 give the paired triangles when each ring does. */
  lemma {:induction false} TubeMatch(ep: seq<EdgePoint>, radial: nat, rank: seq<nat>, clock: nat, cut: seq<bool>, r: nat)
    requires TubeReady(ep, radial, |cut|, rank, clock) && r <= |cut|
    requires forall q :: 0 <= q < r ==> RingMatched(ep, radial, rank, clock, cut, q)
    ensures TubeFaces(ep, radial, |cut|, rank, clock, r) == PairTube(cut, radial, r)
    decreases r
  {
    if r > 0 {
      TubeMatch(ep, radial, rank, clock, cut, r - 1);
      TubeJoin(ep, radial, rank, clock, cut, r);
    }
  }

  /** One more matched ring keeps the tube matched. */
  lemma TubeJoin(ep: seq<EdgePoint>, radial: nat, rank: seq<nat>, clock: nat, cut: seq<bool>, r: nat)
    requires TubeReady(ep, radial, |cut|, rank, clock) && 0 < r <= |cut|
    requires TubeFaces(ep, radial, |cut|, rank, clock, r - 1) == PairTube(cut, radial, r - 1)
    requires RingMatched(ep, radial, rank, clock, cut, r - 1)
    ensures TubeFaces(ep, radial, |cut|, rank, clock, r) == PairTube(cut, radial, r)
  {
    TubeStep(ep, radial, |cut|, rank, clock, r);
    PairTubeStep(cut, radial, r);
  }

  lemma PairTubeStep(cut: seq<bool>, radial: nat, r: nat)
    requires 0 < r <= |cut|
    ensures PairTube(cut, radial, r)
              == PairTube(cut, radial, r - 1) + PairRing(Blocks(r - 1, radial), Blocks(Succ(r - 1, |cut|), radial), radial, !cut[r - 1], radial)
  {
  }

  /** One more ring adds its own triangles. */
  lemma TubeStep(ep: seq<EdgePoint>, radial: nat, rings: nat, rank: seq<nat>, clock: nat, r: nat)
    requires TubeReady(ep, radial, rings, rank, clock) && 0 < r <= rings
    ensures TubeFaces(ep, radial, rings, rank, clock, r)
              == TubeFaces(ep, radial, rings, rank, clock, r - 1) + RingFaces(ep, radial, rank, clock, Blocks(r - 1, radial), radial)
  {
  }

  /** Rings 0 .. r-1 of an unfiltered tube are each joined to the ring
      after it exactly where the surface is not cut. */
  lemma {:induction false} ShapedTube(ep: seq<EdgePoint>, flags: seq<bool>, radial: nat, closed: bool,
                   rank: seq<nat>, clock: nat, r: nat)
    requires Shaped(ep, flags, radial, closed) && TubeReady(ep, radial, |flags|, rank, clock) && r <= |flags|
    ensures TubeFaces(ep, radial, |flags|, rank, clock, r) == PairTube(RingCuts(flags, closed), radial, r)
  {
    var cut := RingCuts(flags, closed);
    forall q | 0 <= q < r
      ensures RingMatched(ep, radial, rank, clock, cut, q)
    {
      ShapedRing(ep, flags, radial, closed, rank, clock, q);
    }
    TubeMatch(ep, radial, rank, clock, cut, r);
  }

  /** Before filtering, the tube walk can run, and it gives every ring's
      two triangles per spoke exactly where the surface goes on: a tube
      over P center points with R segments has 2R(P - 1) triangles on an
      open curve and 2RP on a closed one, corner copies or not. */
  lemma {:induction false} FreshTubeTotal(ep: seq<EdgePoint>, corner: seq<bool>, smooth: bool, radial: nat, closed: bool,
                       shade: Slot -> Attributes, rank: seq<nat>, clock: nat)
    requires FreshTube(ep, corner, smooth, radial, closed, shade) && |rank| == |ep|
    ensures TubeReady(ep, radial, |RingFlags(corner, smooth)|, rank, clock)
    ensures var flags := RingFlags(corner, smooth);
      TubeFaces(ep, radial, |flags|, rank, clock, |flags|) == PairTube(RingCuts(flags, closed), radial, |flags|)
    ensures var rings := |RingFlags(corner, smooth)|;
      |TubeFaces(ep, radial, rings, rank, clock, rings)| == 2 * radial * (|corner| - if closed then 0 else 1)
  {
    var flags := RingFlags(corner, smooth);
    FreshShaped(ep, corner, smooth, radial, closed, shade);
    ShapedReady(ep, flags, radial, closed, rank, clock);
    ShapedTube(ep, flags, radial, closed, rank, clock, |flags|);
    PairTubeTotal(corner, smooth, radial, closed);
  }
}
