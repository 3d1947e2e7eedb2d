/** The chains as ring construction leaves them: chain j runs through
    spoke j of every ring in array order, so its vertices lie one ring
    apart, its edges alternate and each pair of vertices on the two edges of
    one ring shares its center point. */
module InitialChains {
  import opened Records
  import opened Chains
  import opened EdgeVertices

  /** The vertices from k on, one ring apart, up to the end of the array. */
  function ChainFrom(k: nat, radial: nat, n: nat): (c: seq<int>)
    requires 0 < radial
    ensures k < n <==> 1 <= |c|
    ensures 1 <= |c| ==> c[0] == k && c[|c| - 1] + radial >= n
    ensures forall t :: 0 <= t < |c| ==> k <= c[t] < n
    ensures forall t :: 0 <= t < |c| - 1 ==> c[t + 1] == c[t] + radial
    ensures forall s, t :: 0 <= s < t < |c| ==> c[s] < c[t]
    decreases n - k
  {
    if k >= n then [] else [k] + ChainFrom(k + radial, radial, n)
  }

  /** The chain of every spoke. */
  function StartOrders(radial: nat, n: nat): (orders: seq<seq<int>>)
    requires 0 < radial
    ensures |orders| == radial && forall j :: 0 <= j < radial ==> orders[j] == ChainFrom(j, radial, n)
  {
    seq(radial, j requires 0 <= j < radial => ChainFrom(j, radial, n))
  }

  /** Each vertex's spoke. */
  function Spokes(lay: seq<Slot>): (tag: seq<nat>)
    ensures |tag| == |lay| && forall k :: 0 <= k < |lay| ==> tag[k] == lay[k].spoke
  {
    seq(|lay|, k requires 0 <= k < |lay| => lay[k].spoke)
  }

  /** The array that ring construction returns for a layout. */
  ghost predicate Fresh(ep: seq<EdgePoint>, lay: seq<Slot>, radial: nat, edges: nat, closed: bool,
                        shade: Slot -> Attributes)
    requires 1 <= edges <= 2 && 0 < radial <= |lay|
  {
    |ep| == |lay| && forall k :: 0 <= k < |ep| ==> FreshAt(ep, lay, radial, edges, closed, shade, k)
  }

  /** Vertex k is the one ring construction builds for slot k. */
  ghost predicate FreshAt(ep: seq<EdgePoint>, lay: seq<Slot>, radial: nat, edges: nat, closed: bool,
                          shade: Slot -> Attributes, k: nat)
    requires 1 <= edges <= 2 && 0 < radial <= |lay| && |ep| == |lay| && k < |lay|
  {
    ep[k] == Expected(lay, BlockSize(edges, radial), radial, closed, shade, k)
  }

  /** Positions in a chain alternate edges, starting on edge 0, and with
      two edges the chain has even length. */
  ghost predicate Alternating(ep: seq<EdgePoint>, order: seq<int>, edges: nat)
  {
    && (forall t :: 0 <= t < |order| ==> 0 <= order[t] < |ep| && ep[order[t]].edge == (if edges == 2 then t % 2 else 0))
    && (edges == 2 ==> |order| % 2 == 0)
  }

  /** From position `from` on, the vertices at positions 2s and 2s+1 share
      their center point. */
  ghost predicate PairedFrom(ep: seq<EdgePoint>, order: seq<int>, from: nat)
  {
    forall t :: from <= t < |order| - 1 && t % 2 == 0 ==>
      0 <= order[t] < |ep| && 0 <= order[t + 1] < |ep| && ep[order[t]].source == ep[order[t + 1]].source
  }

  /** Along a chain, every vertex is on the chain's spoke, and consecutive
      vertices are consecutive rows. */
  lemma {:induction false} ChainSpokes(lay: seq<Slot>, radial: nat, edges: nat, j: nat)
    requires 1 <= edges <= 2 && 0 < radial && Striped(lay, radial, edges) && j < radial
    ensures forall t :: 0 <= t < |ChainFrom(j, radial, |lay|)| ==>
              OnSpoke(lay, ChainFrom(j, radial, |lay|), radial, edges, j, t)
  {
    var c := ChainFrom(j, radial, |lay|);
    var t := 0;
    while t < |c|
      invariant t <= |c|
      invariant forall s :: 0 <= s < t ==> OnSpoke(lay, c, radial, edges, j, s)
    {
      SpokeStep(lay, radial, edges, j, c, t);
      t := t + 1;
    }
  }

  /** The first vertex of the chain is slot j of the first row, and each
      later one is one row past the one before it. */
  lemma SpokeStep(lay: seq<Slot>, radial: nat, edges: nat, j: nat, c: seq<int>, t: nat)
    requires 1 <= edges <= 2 && 0 < radial && Striped(lay, radial, edges) && j < radial
    requires t < |c| && 0 <= c[t] < |lay|
    requires t == 0 ==> c[t] == j
    requires t > 0 ==> c[t] == c[t - 1] + radial && OnSpoke(lay, c, radial, edges, j, t - 1)
    ensures OnSpoke(lay, c, radial, edges, j, t)
  {
    if t > 0 {
      assert c[t] - radial == c[t - 1];
      assert RowStep(lay, radial, edges, c[t]);
    }
  }

  ghost predicate OnSpoke(lay: seq<Slot>, c: seq<int>, radial: nat, edges: nat, j: nat, t: nat)
    requires t < |c|
  {
    0 <= c[t] < |lay| && lay[c[t]].spoke == j && lay[c[t]].edge == (if edges == 2 then t % 2 else 0)
  }

  /** Every vertex lies on the chain of its spoke, at position t. */
  lemma OnChain(lay: seq<Slot>, radial: nat, edges: nat, k: nat) returns (t: nat)
    requires 1 <= edges <= 2 && 0 < radial && Striped(lay, radial, edges) && k < |lay|
    ensures lay[k].spoke < radial && t < |ChainFrom(lay[k].spoke, radial, |lay|)|
    ensures ChainFrom(lay[k].spoke, radial, |lay|)[t] == k
  {
    SpokeBound(lay, radial, edges, k);
    var j := lay[k].spoke;
    t := OnChainIn(lay, radial, edges, j, ChainFrom(j, radial, |lay|), k);
  }

  /** Every slot is on one of the first row's spokes. */
  lemma {:induction false} SpokeBound(lay: seq<Slot>, radial: nat, edges: nat, k: nat)
    requires 0 < radial && Striped(lay, radial, edges) && k < |lay|
    ensures lay[k].spoke < radial
    decreases k
  {
    if k >= radial {
      assert RowStep(lay, radial, edges, k);
      SpokeBound(lay, radial, edges, k - radial);
    }
  }

  /** A vertex on spoke j is found along any sequence that starts at j,
      steps one ring at a time and runs to the last row. */
  lemma {:induction false} OnChainIn(lay: seq<Slot>, radial: nat, edges: nat, j: nat, c: seq<int>, k: nat) returns (t: nat)
    requires 0 < radial && Striped(lay, radial, edges) && k < |lay| && lay[k].spoke == j
    requires 1 <= |c| && c[0] == j && c[|c| - 1] + radial >= |lay|
    requires forall s :: 0 <= s < |c| - 1 ==> c[s + 1] == c[s] + radial
    ensures t < |c| && c[t] == k
    decreases k
  {
    if k >= radial {
      assert RowStep(lay, radial, edges, k);
      var u := OnChainIn(lay, radial, edges, j, c, k - radial);
      t := u + 1;
    } else {
      t := 0;
    }
  }

  /** The chain of spoke j in the array ring construction returns is a
      cycle through every ring, edges alternating and, with two edges,
      pairs sharing their center point. */
  lemma {:induction false} ChainCycle(ep: seq<EdgePoint>, lay: seq<Slot>, radial: nat, edges: nat, closed: bool,
                   shade: Slot -> Attributes, j: nat)
    requires 1 <= edges <= 2 && 0 < radial && Striped(lay, radial, edges) && j < radial
    requires Fresh(ep, lay, radial, edges, closed, shade)
    ensures Cycle(ep, ChainFrom(j, radial, |lay|)) && Tagged(Spokes(lay), ChainFrom(j, radial, |lay|), j)
    ensures Alternating(ep, ChainFrom(j, radial, |lay|), edges)
    ensures edges == 2 ==> PairedFrom(ep, ChainFrom(j, radial, |lay|), 0)
  {
    ChainLinks(ep, lay, radial, edges, closed, shade, j);
    ChainTagged(lay, radial, edges, j);
    ChainAlternating(ep, lay, radial, edges, closed, shade, j);
    if edges == 2 {
      ChainPaired(ep, lay, radial, closed, shade, j);
    }
  }

  lemma {:induction false} ChainLinks(ep: seq<EdgePoint>, lay: seq<Slot>, radial: nat, edges: nat, closed: bool,
                   shade: Slot -> Attributes, j: nat)
    requires 1 <= edges <= 2 && 0 < radial && Striped(lay, radial, edges) && j < radial
    requires Fresh(ep, lay, radial, edges, closed, shade)
    ensures Cycle(ep, ChainFrom(j, radial, |lay|))
  {
    var c := ChainFrom(j, radial, |lay|);
    ChainEnds(lay, radial, edges, j);
    forall t | 0 <= t < |c|
      ensures CycleAt(ep, c, t)
    {
      ChainLink(ep, lay, radial, edges, closed, shade, j, t);
    }
  }

  lemma {:induction false} ChainTagged(lay: seq<Slot>, radial: nat, edges: nat, j: nat)
    requires 1 <= edges <= 2 && 0 < radial && Striped(lay, radial, edges) && j < radial
    ensures Tagged(Spokes(lay), ChainFrom(j, radial, |lay|), j)
  {
    var c := ChainFrom(j, radial, |lay|);
    ChainSpokes(lay, radial, edges, j);
    forall t | 0 <= t < |c| ensures 0 <= c[t] < |lay| && Spokes(lay)[c[t]] == j {
      assert OnSpoke(lay, c, radial, edges, j, t);
    }
  }

  lemma {:induction false} ChainAlternating(ep: seq<EdgePoint>, lay: seq<Slot>, radial: nat, edges: nat, closed: bool,
                         shade: Slot -> Attributes, j: nat)
    requires 1 <= edges <= 2 && 0 < radial && Striped(lay, radial, edges) && j < radial
    requires Fresh(ep, lay, radial, edges, closed, shade)
    ensures Alternating(ep, ChainFrom(j, radial, |lay|), edges)
  {
    var c := ChainFrom(j, radial, |lay|);
    ChainSpokes(lay, radial, edges, j);
    assert OnSpoke(lay, c, radial, edges, j, |c| - 1);
    ChainEnds(lay, radial, edges, j);
    forall t | 0 <= t < |c|
      ensures 0 <= c[t] < |ep| && ep[c[t]].edge == (if edges == 2 then t % 2 else 0)
    {
      assert OnSpoke(lay, c, radial, edges, j, t);
      EdgeAt(ep, lay, radial, edges, closed, shade, c[t]);
    }
  }

  /** A freshly built vertex is on the edge of its slot. */
  lemma EdgeAt(ep: seq<EdgePoint>, lay: seq<Slot>, radial: nat, edges: nat, closed: bool,
               shade: Slot -> Attributes, k: int)
    requires 1 <= edges <= 2 && 0 < radial <= |lay| && Fresh(ep, lay, radial, edges, closed, shade) && 0 <= k < |lay|
    ensures k < |ep| && ep[k].edge == lay[k].edge
  {
    assert FreshAt(ep, lay, radial, edges, closed, shade, k);
  }

  lemma {:induction false} ChainPaired(ep: seq<EdgePoint>, lay: seq<Slot>, radial: nat, closed: bool,
                    shade: Slot -> Attributes, j: nat)
    requires 0 < radial && Striped(lay, radial, 2) && j < radial
    requires Fresh(ep, lay, radial, 2, closed, shade)
    ensures PairedFrom(ep, ChainFrom(j, radial, |lay|), 0)
  {
    var c := ChainFrom(j, radial, |lay|);
    ChainSpokes(lay, radial, 2, j);
    forall t | 0 <= t < |c| - 1 && t % 2 == 0
      ensures 0 <= c[t] < |ep| && 0 <= c[t + 1] < |ep| && ep[c[t]].source == ep[c[t + 1]].source
    {
      PairStep(ep, lay, radial, closed, shade, j, c, t);
    }
  }

  lemma PairStep(ep: seq<EdgePoint>, lay: seq<Slot>, radial: nat, closed: bool,
                 shade: Slot -> Attributes, j: nat, c: seq<int>, t: nat)
    requires 0 < radial && Striped(lay, radial, 2) && Fresh(ep, lay, radial, 2, closed, shade)
    requires t + 1 < |c| && t % 2 == 0 && 0 <= c[t] && c[t + 1] == c[t] + radial
    requires OnSpoke(lay, c, radial, 2, j, t + 1)
    ensures 0 <= c[t] < |ep| && 0 <= c[t + 1] < |ep| && ep[c[t]].source == ep[c[t + 1]].source
  {
    PairAt(ep, lay, radial, closed, shade, c[t + 1]);
  }

  /** An edge-1 vertex shares its center point with the vertex one ring
      back. */
  lemma PairAt(ep: seq<EdgePoint>, lay: seq<Slot>, radial: nat, closed: bool,
               shade: Slot -> Attributes, k: nat)
    requires 0 < radial && Striped(lay, radial, 2) && Fresh(ep, lay, radial, 2, closed, shade)
    requires k < |lay| && lay[k].edge == 1
    ensures radial <= k && ep[k].source == ep[k - radial].source
  {
    assert RowStep(lay, radial, 2, k);
    assert FreshAt(ep, lay, radial, 2, closed, shade, k);
    assert FreshAt(ep, lay, radial, 2, closed, shade, k - radial);
  }

  /** A chain starts in the first row and ends in the last, on its own
      spoke. */
  lemma {:induction false} ChainEnds(lay: seq<Slot>, radial: nat, edges: nat, j: nat)
    requires 1 <= edges <= 2 && 0 < radial && Striped(lay, radial, edges) && j < radial
    ensures var c := ChainFrom(j, radial, |lay|);
            1 <= |c| && c[0] == j && c[|c| - 1] == |lay| - radial + j
  {
    var c := ChainFrom(j, radial, |lay|);
    ChainSpokes(lay, radial, edges, j);
    assert OnSpoke(lay, c, radial, edges, j, |c| - 1);
  }

  lemma {:induction false} ChainLink(ep: seq<EdgePoint>, lay: seq<Slot>, radial: nat, edges: nat, closed: bool,
                  shade: Slot -> Attributes, j: nat, t: nat)
    requires 1 <= edges <= 2 && 0 < radial <= |lay| && j < radial
    requires Fresh(ep, lay, radial, edges, closed, shade)
    requires var c := ChainFrom(j, radial, |lay|); 1 <= |c| && c[|c| - 1] == |lay| - radial + j
    requires t < |ChainFrom(j, radial, |lay|)|
    ensures CycleAt(ep, ChainFrom(j, radial, |lay|), t)
  {
    var c := ChainFrom(j, radial, |lay|);
    LinkAt(ep, lay, radial, edges, closed, shade, c, t);
  }

  /** One vertex of a sequence that starts in the first row, steps one ring
      at a time and ends in the last row is linked to its neighbours there. */
  lemma LinkAt(ep: seq<EdgePoint>, lay: seq<Slot>, radial: nat, edges: nat, closed: bool,
               shade: Slot -> Attributes, c: seq<int>, t: nat)
    requires 1 <= edges <= 2 && 0 < radial <= |lay| && Fresh(ep, lay, radial, edges, closed, shade)
    requires t < |c| && 0 <= c[t] < |lay| && 0 <= c[0] < radial && c[|c| - 1] == |lay| - radial + c[0]
    requires t + 1 < |c| ==> c[t + 1] == c[t] + radial && c[t + 1] < |lay|
    requires 0 < t ==> 0 <= c[t - 1] && c[t] == c[t - 1] + radial
    ensures CycleAt(ep, c, t)
  {
    assert FreshAt(ep, lay, radial, edges, closed, shade, c[t]);
  }

  /** Ring construction leaves every chain a cycle of its spoke and nothing
      removed. */
  lemma {:induction false} StartChained(ep: seq<EdgePoint>, corner: seq<bool>, smooth: bool, radial: nat, edges: nat, closed: bool,
                     shade: Slot -> Attributes)
    requires 1 <= edges <= 2 && 0 < radial && 1 <= |corner|
    requires Fresh(ep, Layout(corner, smooth, edges, radial), radial, edges, closed, shade)
    ensures Chained(ep, Spokes(Layout(corner, smooth, edges, radial)), StartOrders(radial, |ep|))
    ensures Stale(ep, seq(|ep|, k => 0), 0)
    ensures forall j :: 0 <= j < radial ==>
              Alternating(ep, ChainFrom(j, radial, |ep|), edges) && (edges == 2 ==> PairedFrom(ep, ChainFrom(j, radial, |ep|), 0))
  {
    var lay := Layout(corner, smooth, edges, radial);
    LayoutStriped(corner, smooth, edges, radial);
    StartChainedStriped(ep, lay, radial, edges, closed, shade);
  }

  lemma {:induction false} StartChainedStriped(ep: seq<EdgePoint>, lay: seq<Slot>, radial: nat, edges: nat, closed: bool,
                            shade: Slot -> Attributes)
    requires 1 <= edges <= 2 && 0 < radial && Striped(lay, radial, edges)
    requires Fresh(ep, lay, radial, edges, closed, shade)
    ensures Chained(ep, Spokes(lay), StartOrders(radial, |ep|))
    ensures Stale(ep, seq(|ep|, k => 0), 0)
    ensures forall j :: 0 <= j < radial ==>
              Alternating(ep, ChainFrom(j, radial, |ep|), edges) && (edges == 2 ==> PairedFrom(ep, ChainFrom(j, radial, |ep|), 0))
  {
    var orders := StartOrders(radial, |ep|);
    forall j | 0 <= j < radial
      ensures Cycle(ep, orders[j]) && Tagged(Spokes(lay), orders[j], j)
      ensures Alternating(ep, orders[j], edges) && (edges == 2 ==> PairedFrom(ep, orders[j], 0))
    {
      ChainCycle(ep, lay, radial, edges, closed, shade, j);
    }
    forall k | 0 <= k < |ep|
      ensures Spokes(lay)[k] < radial && k in orders[Spokes(lay)[k]] && !ep[k].removed
    {
      StartVertex(ep, lay, radial, edges, closed, shade, k);
    }
  }

  /** Vertex k starts live, on the chain of its spoke. */
  lemma StartVertex(ep: seq<EdgePoint>, lay: seq<Slot>, radial: nat, edges: nat, closed: bool,
                    shade: Slot -> Attributes, k: nat)
    requires 1 <= edges <= 2 && 0 < radial && Striped(lay, radial, edges)
    requires Fresh(ep, lay, radial, edges, closed, shade) && k < |ep|
    ensures Spokes(lay)[k] < radial && k in StartOrders(radial, |ep|)[Spokes(lay)[k]] && !ep[k].removed
  {
    var t := OnChain(lay, radial, edges, k);
    assert FreshAt(ep, lay, radial, edges, closed, shade, k);
  }
}
