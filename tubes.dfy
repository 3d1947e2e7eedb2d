/** The second half of triangle generation for the tube profile: there is
    one edge, so every vertex is joined to the vertex on the same spoke in
    the ring it links to next and to the neighbouring spokes, two triangles
    per vertex, each dropped when the connection flags say it would cross a
    gap. Neighbours that were filtered out are replaced by the first live
    vertex reached along their chain. */
module Tubes {
  import opened Records
  import opened Chains
  import opened Strips
  import opened RingLayout

  /** The neighbouring spokes of j around the ring, `Succ(j, radial)` and
      `Pred(j, radial)`, are the source's remainders of j + 1 and
      j + radial - 1 by the spoke count. */
  lemma SpokesModulo(j: nat, radial: nat)
    requires j < radial
    ensures Succ(j, radial) == (j + 1) % radial
    ensures Pred(j, radial) == (j + radial - 1) % radial
  {
    ModOnce(j + 1, radial);
    ModOnce(j + radial - 1, radial);
  }

  /** The remainder of a value below twice the divisor. */
  lemma ModOnce(x: nat, n: nat)
    requires 0 < n && x < n + n
    ensures x % n == if x < n then x else x - n
  {
    if x < n {
      assert x == n * 0 + x;
    } else {
      assert x == n * 1 + (x - n);
    }
  }

  /** The vertex that stands in for vertex k: k itself when it is live,
      otherwise the one reached by following `next` (forward) or `prev`
      links from it until a live vertex. The removal ranks make the walk
      finite. */
  ghost function Surviving(ep: seq<EdgePoint>, rank: seq<nat>, clock: nat, k: nat, forward: bool): (r: nat)
    requires Stale(ep, rank, clock) && k < |ep|
    ensures Live(ep, r)
    ensures !ep[k].removed ==> r == k
    decreases if ep[k].removed then clock - rank[k] else 0
  {
    if !ep[k].removed then k
    else
      var m := if forward then ep[k].next else ep[k].prev;
      assert StaleAt(ep, rank, clock, k);
      Surviving(ep, rank, clock, m, forward)
  }

  /** What spoke j of the ring starting at i needs: the ring lies in the
      array and, when its vertex is live, that vertex links forward to a
      live vertex on the same spoke of a ring that lies in the array. */
  ghost predicate SpokeReady(ep: seq<EdgePoint>, radial: nat, i: nat, j: nat)
  {
    && j < radial && i + radial <= |ep|
    && (!ep[i + j].removed ==>
          var nx := ep[i + j].next;
          Live(ep, nx) && j <= nx && nx - j + radial <= |ep|)
  }

  /** What the tube walk needs: the array is `rings` whole rings of
      `radial` vertices, the links of removed vertices lead to live ones,
      and every spoke is ready. */
  ghost predicate TubeReady(ep: seq<EdgePoint>, radial: nat, rings: nat, rank: seq<nat>, clock: nat)
  {
    && 0 < radial && |ep| == Blocks(rings, radial) && Stale(ep, rank, clock)
    && forall r, j :: 0 <= r < rings && 0 <= j < radial ==> SpokeReady(ep, radial, Blocks(r, radial), j)
  }

  /** The two triangles of vertex k = i + j: one to the vertex it links to
      next and the live stand-in for the next spoke of its own ring, one to
      the live stand-in for the previous spoke of the next vertex's ring and
      the next vertex. The first is kept when the next vertex is connected
      backward or the stand-in forward, the second when k is connected
      forward or its stand-in backward; a removed vertex has none. */
  ghost function SpokeFaces(ep: seq<EdgePoint>, radial: nat, rank: seq<nat>, clock: nat, i: nat, j: nat): (faces: seq<Face>)
    requires Stale(ep, rank, clock) && SpokeReady(ep, radial, i, j)
    ensures LiveFaces(ep, faces)
  {
    var k := i + j;
    if ep[k].removed then []
    else
      var nx := ep[k].next;
      var top := Surviving(ep, rank, clock, i + Succ(j, radial), false);
      var bot := Surviving(ep, rank, clock, nx - j + Pred(j, radial), true);
      (if ep[nx].prevConnected || ep[top].nextConnected then [Face(k, nx, top)] else [])
      + (if ep[k].nextConnected || ep[bot].prevConnected then [Face(k, bot, nx)] else [])
  }

  /** The triangles of spokes 0 .. m-1 of the ring starting at i. */
  ghost function RingFaces(ep: seq<EdgePoint>, radial: nat, rank: seq<nat>, clock: nat, i: nat, m: nat): (faces: seq<Face>)
    requires Stale(ep, rank, clock) && m <= radial
    requires forall j :: 0 <= j < m ==> SpokeReady(ep, radial, i, j)
    ensures LiveFaces(ep, faces)
  {
    if m == 0 then []
    else
      var front := RingFaces(ep, radial, rank, clock, i, m - 1);
      var spoke := SpokeFaces(ep, radial, rank, clock, i, m - 1);
      LiveFacesAppend(ep, front, spoke);
      front + spoke
  }

  /** The triangles of rings 0 .. r-1. */
  ghost function TubeFaces(ep: seq<EdgePoint>, radial: nat, rings: nat, rank: seq<nat>, clock: nat, r: nat): (faces: seq<Face>)
    requires TubeReady(ep, radial, rings, rank, clock) && r <= rings
    ensures LiveFaces(ep, faces)
  {
    if r == 0 then []
    else
      var front := TubeFaces(ep, radial, rings, rank, clock, r - 1);
      var ring := RingFaces(ep, radial, rank, clock, Blocks(r - 1, radial), radial);
      LiveFacesAppend(ep, front, ring);
      front + ring
  }

  lemma LiveFacesAppend(ep: seq<EdgePoint>, f: seq<Face>, g: seq<Face>)
    requires LiveFaces(ep, f) && LiveFaces(ep, g)
    ensures LiveFaces(ep, f + g)
  {
    forall x | 0 <= x < |f + g|
      ensures Live(ep, (f + g)[x].a) && Live(ep, (f + g)[x].b) && Live(ep, (f + g)[x].c)
    {
      if x >= |f| {
        assert (f + g)[x] == g[x - |f|];
      }
    }
  }

  /** The triangles of a live vertex, given where the two walks end. */
  lemma {:induction false} SpokeFacesAt(ep: seq<EdgePoint>, radial: nat, rank: seq<nat>, clock: nat, i: nat, j: nat, top: nat, bot: nat)
    requires Stale(ep, rank, clock) && SpokeReady(ep, radial, i, j) && !ep[i + j].removed
    requires top == Surviving(ep, rank, clock, i + Succ(j, radial), false)
    requires bot == Surviving(ep, rank, clock, ep[i + j].next - j + Pred(j, radial), true)
    ensures var k, nx := i + j, ep[i + j].next;
      SpokeFaces(ep, radial, rank, clock, i, j)
        == (if ep[nx].prevConnected || ep[top].nextConnected then [Face(k, nx, top)] else [])
           + (if ep[k].nextConnected || ep[bot].prevConnected then [Face(k, bot, nx)] else [])
  {
  }

  lemma {:induction false} EmitOne(ep: seq<EdgePoint>, f: Face)
    ensures Emit(ep, [f]) == [Slot(ep, f.a), Slot(ep, f.b), Slot(ep, f.c)]
  {
    assert [f][..0] == [];
  }

  /** Appending the three output slots of face f when `keep` holds. */
  method EmitIf(ep: seq<EdgePoint>, keep: bool, f: Face, indices: seq<int>) returns (indices': seq<int>, ghost faces: seq<Face>)
    requires 0 <= f.a < |ep| && 0 <= f.b < |ep| && 0 <= f.c < |ep|
    ensures faces == if keep then [f] else []
    ensures indices' == indices + Emit(ep, faces)
  {
    if keep {
      faces := [f];
      indices' := indices + [ep[f.a].source, ep[f.b].source, ep[f.c].source];
      EmitOne(ep, f);
    } else {
      faces := [];
      indices' := indices;
    }
  }

  /** Following links from vertex k while the vertex reached is removed:
      `next` links when `forward`, `prev` links otherwise. */
  method WalkLive(ep: seq<EdgePoint>, ghost rank: seq<nat>, ghost clock: nat, k: nat, forward: bool) returns (r: nat)
    requires Stale(ep, rank, clock) && k < |ep|
    ensures r == Surviving(ep, rank, clock, k, forward)
  {
    r := k;
    while ep[r].removed
      invariant r < |ep| && Surviving(ep, rank, clock, r, forward) == Surviving(ep, rank, clock, k, forward)
      decreases if ep[r].removed then clock - rank[r] else 0
    {
      assert StaleAt(ep, rank, clock, r);
      r := if forward then ep[r].next else ep[r].prev;
    }
  }

  /** The triangles of vertex i + j, with the two walks past removed
      vertices of the source. */
  method TubeSpoke(ep: seq<EdgePoint>, radial: nat, ghost rank: seq<nat>, ghost clock: nat, i: nat, j: nat,
                   indices: seq<int>)
    returns (indices': seq<int>, ghost faces: seq<Face>)
    requires Stale(ep, rank, clock) && SpokeReady(ep, radial, i, j)
    ensures faces == SpokeFaces(ep, radial, rank, clock, i, j)
    ensures indices' == indices + Emit(ep, faces)
  {
    var k := i + j;
    if ep[k].removed {
      return indices, [];
    }
    var nx := ep[k].next;
    var top := WalkLive(ep, rank, clock, i + Succ(j, radial), false);
    ghost var first, second;
    indices', first := EmitIf(ep, ep[nx].prevConnected || ep[top].nextConnected, Face(k, nx, top), indices);
    var bot := WalkLive(ep, rank, clock, nx - j + Pred(j, radial), true);
    var mid := indices';
    indices', second := EmitIf(ep, ep[k].nextConnected || ep[bot].prevConnected, Face(k, bot, nx), mid);
    SpokeFacesAt(ep, radial, rank, clock, i, j, top, bot);
    faces := first + second;
    EmitAppend(ep, first, second);
    Associative(indices, Emit(ep, first), Emit(ep, second));
  }

  /** One more spoke of the ring starting at i. */
  method TubeRingStep(ep: seq<EdgePoint>, radial: nat, ghost rank: seq<nat>, ghost clock: nat, i: nat, j: nat,
                      ghost indices0: seq<int>, indices: seq<int>)
    returns (indices': seq<int>)
    requires Stale(ep, rank, clock) && j < radial
    requires forall s :: 0 <= s < radial ==> SpokeReady(ep, radial, i, s)
    requires indices == indices0 + Emit(ep, RingFaces(ep, radial, rank, clock, i, j))
    ensures indices' == indices0 + Emit(ep, RingFaces(ep, radial, rank, clock, i, j + 1))
  {
    ghost var before := RingFaces(ep, radial, rank, clock, i, j);
    ghost var spoke := SpokeFaces(ep, radial, rank, clock, i, j);
    ghost var faces;
    indices', faces := TubeSpoke(ep, radial, rank, clock, i, j, indices);
    EmitAppend(ep, before, spoke);
    Associative(indices0, Emit(ep, before), Emit(ep, spoke));
  }

  /** The triangles of every spoke of the ring starting at i, in spoke
      order. */
  method TubeRing(ep: seq<EdgePoint>, radial: nat, ghost rank: seq<nat>, ghost clock: nat, i: nat, indices: seq<int>)
    returns (indices': seq<int>)
    requires Stale(ep, rank, clock)
    requires forall j :: 0 <= j < radial ==> SpokeReady(ep, radial, i, j)
    ensures indices' == indices + Emit(ep, RingFaces(ep, radial, rank, clock, i, radial))
  {
    indices' := indices;
    for j := 0 to radial
      invariant indices' == indices + Emit(ep, RingFaces(ep, radial, rank, clock, i, j))
    {
      indices' := TubeRingStep(ep, radial, rank, clock, i, j, indices, indices');
    }
  }

  /** One more ring of the tube. */
  method TubeNextRing(ep: seq<EdgePoint>, radial: nat, ghost rings: nat, ghost rank: seq<nat>, ghost clock: nat,
                      ghost r: nat, i: nat, ghost indices0: seq<int>, indices: seq<int>)
    returns (indices': seq<int>)
    requires TubeReady(ep, radial, rings, rank, clock) && r < rings && i == Blocks(r, radial)
    requires indices == indices0 + Emit(ep, TubeFaces(ep, radial, rings, rank, clock, r))
    ensures indices' == indices0 + Emit(ep, TubeFaces(ep, radial, rings, rank, clock, r + 1))
  {
    ghost var before := TubeFaces(ep, radial, rings, rank, clock, r);
    ghost var ring := RingFaces(ep, radial, rank, clock, i, radial);
    indices' := TubeRing(ep, radial, rank, clock, i, indices);
    EmitAppend(ep, before, ring);
    Associative(indices0, Emit(ep, before), Emit(ep, ring));
  }

  /** The triangles of the tube profile: every ring in array order. */
  method TubeTriangles(ep: seq<EdgePoint>, radial: nat, ghost rings: nat, ghost rank: seq<nat>, ghost clock: nat,
                       indices: seq<int>)
    returns (indices': seq<int>)
    requires TubeReady(ep, radial, rings, rank, clock)
    ensures indices' == indices + Emit(ep, TubeFaces(ep, radial, rings, rank, clock, rings))
  {
    indices' := indices;
    var i := 0;
    ghost var r := 0;
    while i < |ep|
      invariant r <= rings && i == Blocks(r, radial)
      invariant indices' == indices + Emit(ep, TubeFaces(ep, radial, rings, rank, clock, r))
      decreases |ep| - i
    {
      BlocksOrder(r, rings, radial);
      indices' := TubeNextRing(ep, radial, rings, rank, clock, r, i, indices, indices');
      r := r + 1;
      i := i + radial;
    }
    BlocksOrder(r, rings, radial);
  }
}
