/** The strip walk on a chain that nothing has been removed from: the chain
    visits the rings in order, the edge-0 vertex then the edge-1 vertex of
    each, and the walk closes two triangles between every ring and the
    ring after it unless the surface stops there. */
module StripRings {
  import opened Records
  import opened Chains
  import opened Filter
  import opened Strips
  import opened RingLayout
  import opened EdgeVertices
  import opened InitialChains
  import opened TubeRings

  /** Chain o passes through the |cut| rings in order, two vertices each;
      `cut[r]` says whether the surface stops between ring r and the ring
      after it, which is what the connection flags of both rings say. */
  ghost predicate Ringed(ep: seq<EdgePoint>, o: seq<int>, cut: seq<bool>)
  {
    && 1 <= |cut| && |o| == 2 * |cut| && Visits(ep, o)
    && forall r :: 0 <= r < |cut| ==> RingedAt(ep, o, cut, r)
  }

  /** Ring r of chain o: its edge-0 vertex then its edge-1 vertex, both
      connected forward unless the surface stops after ring r and backward
      unless it stops before it. */
  ghost predicate RingedAt(ep: seq<EdgePoint>, o: seq<int>, cut: seq<bool>, r: nat)
    requires |o| == 2 * |cut| && r < |cut|
  {
    var p := o[2 * r];
    var q := o[2 * r + 1];
    && 0 <= p < |ep| && 0 <= q < |ep|
    && ep[p].edge == 0 && ep[q].edge == 1
    && ep[p].nextConnected == !cut[r] && ep[q].nextConnected == !cut[r]
    && ep[p].prevConnected == !cut[Pred(r, |cut|)] && ep[q].prevConnected == !cut[Pred(r, |cut|)]
  }

  /** What a junction needs of the two rings it joins. */
  lemma RingedPair(ep: seq<EdgePoint>, o: seq<int>, cut: seq<bool>, r: nat)
    requires Ringed(ep, o, cut) && r < |cut|
    ensures RingedAt(ep, o, cut, r) && RingedAt(ep, o, cut, Succ(r, |cut|)) && Pred(Succ(r, |cut|), |cut|) == r
  {
  }

  /** The two triangles between ring r and ring s of chain o. */
  function JunctionFaces(o: seq<int>, r: nat, s: nat): (faces: seq<Face>)
    requires 2 * r + 1 < |o| && 2 * s + 1 < |o|
    ensures |faces| == 2
  {
    [Face(o[2 * r + 1], o[2 * r], o[2 * s]), Face(o[2 * r + 1], o[2 * s], o[2 * s + 1])]
  }

  /** The triangles between each of the first m rings and the ring after
      it, where the surface does not stop. */
  function Junctions(o: seq<int>, cut: seq<bool>, m: nat): seq<Face>
    requires |o| == 2 * |cut| && m <= |cut|
  {
    if m == 0 then []
    else
      Junctions(o, cut, m - 1) + (if cut[m - 1] then [] else JunctionFaces(o, m - 1, Succ(m - 1, |cut|)))
  }

  /** Two triangles for every ring the surface does not stop after. */
  lemma {:induction false} JunctionsCount(o: seq<int>, cut: seq<bool>, m: nat)
    requires |o| == 2 * |cut| && m <= |cut|
    ensures |Junctions(o, cut, m)| == 2 * Uncut(cut[..m])
    decreases m
  {
    if m > 0 {
      JunctionsCount(o, cut, m - 1);
      assert cut[..m][..m - 1] == cut[..m - 1];
    }
  }

  /** Face f joins some ring to the ring after it, and the surface does not
      stop between them. */
  ghost predicate Bridges(o: seq<int>, cut: seq<bool>, f: Face)
    requires |o| == 2 * |cut|
  {
    exists r :: 0 <= r < |cut| && !cut[r] && f in JunctionFaces(o, r, Succ(r, |cut|))
  }

  /** No triangle crosses a place where the surface stops. */
  lemma {:induction false} JunctionsBridge(o: seq<int>, cut: seq<bool>, m: nat)
    requires |o| == 2 * |cut| && m <= |cut|
    ensures forall i :: 0 <= i < |Junctions(o, cut, m)| ==> Bridges(o, cut, Junctions(o, cut, m)[i])
    decreases m
  {
    if m > 0 {
      JunctionsBridge(o, cut, m - 1);
      var front := Junctions(o, cut, m - 1);
      var all := Junctions(o, cut, m);
      forall i | 0 <= i < |all|
        ensures Bridges(o, cut, all[i])
      {
        if i < |front| {
          assert all[i] == front[i];
        } else {
          assert all[i] in JunctionFaces(o, m - 1, Succ(m - 1, |cut|));
        }
      }
    }
  }

  /** The last vertices the walk of a ringed chain starts with. */
  function FirstLasts(o: seq<int>): Lasts
    requires 2 <= |o|
  {
    Lasts(o[0], o[1])
  }

  /** The two steps across the junction after ring r, from step n = 2r
      to step n2 = 2r + 2: they close the two triangles to the next ring s
      unless the surface stops there, and leave the vertices of ring s as
      the last ones. */
  lemma JunctionStep(ep: seq<EdgePoint>, o: seq<int>, cut: seq<bool>, r: nat, n: nat, n2: nat, s: nat)
    requires Visits(ep, o) && |o| == 2 * |cut| && r < |cut| && n == r + r && n2 == n + 2 && s == Succ(r, |cut|)
    requires RingedAt(ep, o, cut, r) && RingedAt(ep, o, cut, s) && Pred(s, |cut|) == r
    requires LastsIn(ep, FirstLasts(o)) && LastsAfter(ep, o, 1, FirstLasts(o), n) == Lasts(o[n], o[n + 1])
    ensures LastsAfter(ep, o, 1, FirstLasts(o), n2) == Lasts(o[s + s], o[s + s + 1])
    ensures StripFaces(ep, o, 1, FirstLasts(o), n2)
              == StripFaces(ep, o, 1, FirstLasts(o), n) + (if cut[r] then [] else JunctionFaces(o, r, s))
  {
    CrossToEdge0(ep, o, cut, r, s, n);
    CrossToEdge1(ep, o, cut, r, s, n);
    if !cut[r] {
      PairAppend(StripFaces(ep, o, 1, FirstLasts(o), n), JunctionFaces(o, r, s));
    }
  }

  /** The first step across a junction: it reaches the edge-0 vertex of
      the next ring. */
  lemma CrossToEdge0(ep: seq<EdgePoint>, o: seq<int>, cut: seq<bool>, r: nat, s: nat, n: nat)
    requires Visits(ep, o) && |o| == 2 * |cut| && r < |cut| && n == r + r && s == Succ(r, |cut|)
    requires RingedAt(ep, o, cut, r) && RingedAt(ep, o, cut, s) && Pred(s, |cut|) == r
    requires LastsIn(ep, FirstLasts(o)) && LastsAfter(ep, o, 1, FirstLasts(o), n) == Lasts(o[n], o[n + 1])
    ensures LastsAfter(ep, o, 1, FirstLasts(o), n + 1) == Lasts(o[s + s], o[n + 1])
    ensures StripFaces(ep, o, 1, FirstLasts(o), n + 1)
              == StripFaces(ep, o, 1, FirstLasts(o), n) + (if cut[r] then [] else [Face(o[n + 1], o[n], o[s + s])])
  {
    assert Along(1, n + 1, |o|) == s + s;
    WalkStep(ep, o, 1, FirstLasts(o), n);
    ArriveEdge0(ep, o, cut, r, s, n);
  }

  /** The second step across a junction: it reaches the edge-1 vertex of
      the next ring. */
  lemma CrossToEdge1(ep: seq<EdgePoint>, o: seq<int>, cut: seq<bool>, r: nat, s: nat, n: nat)
    requires Visits(ep, o) && |o| == 2 * |cut| && r < |cut| && n == r + r && s == Succ(r, |cut|)
    requires RingedAt(ep, o, cut, r) && RingedAt(ep, o, cut, s) && Pred(s, |cut|) == r
    requires LastsIn(ep, FirstLasts(o)) && LastsAfter(ep, o, 1, FirstLasts(o), n + 1) == Lasts(o[s + s], o[n + 1])
    ensures LastsAfter(ep, o, 1, FirstLasts(o), n + 2) == Lasts(o[s + s], o[s + s + 1])
    ensures StripFaces(ep, o, 1, FirstLasts(o), n + 2)
              == StripFaces(ep, o, 1, FirstLasts(o), n + 1) + (if cut[r] then [] else [Face(o[n + 1], o[s + s], o[s + s + 1])])
  {
    assert Along(1, n + 2, |o|) == s + s + 1;
    WalkStep(ep, o, 1, FirstLasts(o), n + 1);
    ArriveEdge1(ep, o, cut, r, s, n);
  }

  /** Reaching the edge-0 vertex of ring s from the vertices of ring r:
      skipped exactly when the surface stops between them. */
  lemma ArriveEdge0(ep: seq<EdgePoint>, o: seq<int>, cut: seq<bool>, r: nat, s: nat, n: nat)
    requires |o| == 2 * |cut| && r < |cut| && n == r + r && s == Succ(r, |cut|)
    requires RingedAt(ep, o, cut, r) && RingedAt(ep, o, cut, s) && Pred(s, |cut|) == r
    ensures var last := Lasts(o[n], o[n + 1]);
            Skipped(ep, last, o[s + s]) == cut[r] && last.Set(ep[o[s + s]].edge, o[s + s]) == Lasts(o[s + s], o[n + 1])
  {
  }

  /** Reaching the edge-1 vertex of ring s once its edge-0 vertex is
      reached: skipped exactly when the surface stops between the rings. */
  lemma ArriveEdge1(ep: seq<EdgePoint>, o: seq<int>, cut: seq<bool>, r: nat, s: nat, n: nat)
    requires |o| == 2 * |cut| && r < |cut| && n == r + r && s == Succ(r, |cut|)
    requires RingedAt(ep, o, cut, r) && RingedAt(ep, o, cut, s) && Pred(s, |cut|) == r
    ensures var last := Lasts(o[s + s], o[n + 1]);
            Skipped(ep, last, o[s + s + 1]) == cut[r] && last.Set(ep[o[s + s + 1]].edge, o[s + s + 1]) == Lasts(o[s + s], o[s + s + 1])
  {
  }

  lemma PairAppend(faces: seq<Face>, pair: seq<Face>)
    requires |pair| == 2
    ensures faces + [pair[0]] + [pair[1]] == faces + pair
  {
    assert pair == [pair[0]] + [pair[1]];
  }

  /** One step of the walk, unfolded. */
  lemma WalkStep(ep: seq<EdgePoint>, o: seq<int>, u: nat, l: Lasts, n: nat)
    requires Visits(ep, o) && u < |o| && n < |o| && LastsIn(ep, l)
    ensures var p := o[Along(u, n + 1, |o|)];
            var last := LastsAfter(ep, o, u, l, n);
            && 0 <= p < |ep|
            && LastsAfter(ep, o, u, l, n + 1) == last.Set(ep[p].edge, p)
            && StripFaces(ep, o, u, l, n + 1)
               == StripFaces(ep, o, u, l, n) + (if Skipped(ep, last, p) then [] else [Face(last.e1, last.e0, p)])
  {
  }

  /** Whenever the walk reaches ring m, after n = 2m steps, the last
      vertices are the two vertices of ring m. */
  lemma {:induction false} LastsRings(ep: seq<EdgePoint>, o: seq<int>, cut: seq<bool>, m: nat, n: nat)
    requires Ringed(ep, o, cut) && m < |cut| && n == m + m && LastsIn(ep, FirstLasts(o))
    ensures LastsAfter(ep, o, 1, FirstLasts(o), n) == Lasts(o[n], o[n + 1])
    decreases m
  {
    if m > 0 {
      LastsRings(ep, o, cut, m - 1, n - 2);
      RingedPair(ep, o, cut, m - 1);
      assert Succ(m - 1, |cut|) == m;
      JunctionStep(ep, o, cut, m - 1, n - 2, n, m);
    }
  }

  /** Faces that grow, junction by junction, by the triangles of each
      junction where the surface does not stop, are the junctions' faces. */
  lemma {:induction false} JunctionsGrow(o: seq<int>, cut: seq<bool>, steps: seq<seq<Face>>, m: nat)
    requires |o| == 2 * |cut| && |steps| == |cut| + 1 && m <= |cut| && steps[0] == []
    requires forall r :: 0 <= r < |cut| ==>
               steps[r + 1] == steps[r] + (if cut[r] then [] else JunctionFaces(o, r, Succ(r, |cut|)))
    ensures steps[m] == Junctions(o, cut, m)
    decreases m
  {
    if m > 0 {
      JunctionsGrow(o, cut, steps, m - 1);
    }
  }

  /** The faces of the walk of chain o when it reaches ring m, none for
      a walk it cannot make. */
  ghost function RingFaces(ep: seq<EdgePoint>, o: seq<int>, m: int): seq<Face>
  {
    if 2 <= |o| && Visits(ep, o) && LastsIn(ep, FirstLasts(o)) && 0 <= m && m + m <= |o|
    then StripFaces(ep, o, 1, FirstLasts(o), m + m)
    else []
  }

  /** The faces of the walk at ring r and at ring s, the ring after it,
      differ by the triangles of junction r. */
  lemma RingStepAt(ep: seq<EdgePoint>, o: seq<int>, cut: seq<bool>, steps: seq<seq<Face>>, r: nat, s: nat)
    requires Visits(ep, o) && |o| == 2 * |cut| && r < |cut| && s == Succ(r, |cut|)
    requires RingedAt(ep, o, cut, r) && RingedAt(ep, o, cut, s) && Pred(s, |cut|) == r
    requires LastsIn(ep, FirstLasts(o)) && LastsAfter(ep, o, 1, FirstLasts(o), r + r) == Lasts(o[r + r], o[r + r + 1])
    requires |steps| == |cut| + 1
    requires steps[r] == RingFaces(ep, o, r) && steps[r + 1] == RingFaces(ep, o, r + 1)
    ensures steps[r + 1] == steps[r] + (if cut[r] then [] else JunctionFaces(o, r, s))
  {
    JunctionStep(ep, o, cut, r, r + r, (r + 1) + (r + 1), s);
  }

  /** Junction by junction, the faces of the walk at each ring grow by
      the triangles of the junction after it where the surface does not
      stop. */
  lemma RingStepsAll(ep: seq<EdgePoint>, o: seq<int>, cut: seq<bool>, steps: seq<seq<Face>>)
    requires Ringed(ep, o, cut) && |steps| == |cut| + 1
    requires forall m :: 0 <= m <= |cut| ==> steps[m] == RingFaces(ep, o, m)
    ensures forall r :: 0 <= r < |cut| ==>
              steps[r + 1] == steps[r] + (if cut[r] then [] else JunctionFaces(o, r, Succ(r, |cut|)))
  {
    assert RingedAt(ep, o, cut, 0);
    forall r | 0 <= r < |cut|
      ensures steps[r + 1] == steps[r] + (if cut[r] then [] else JunctionFaces(o, r, Succ(r, |cut|)))
    {
      LastsRings(ep, o, cut, r, r + r);
      RingedPair(ep, o, cut, r);
      RingStepAt(ep, o, cut, steps, r, Succ(r, |cut|));
    }
  }

  /** The faces of the walk once it is back at ring 0. */
  lemma {:induction false} RingFacesAll(ep: seq<EdgePoint>, o: seq<int>, cut: seq<bool>)
    requires Ringed(ep, o, cut)
    ensures RingFaces(ep, o, |cut|) == Junctions(o, cut, |cut|)
  {
    var steps := seq(|cut| + 1, m => RingFaces(ep, o, m));
    RingStepsAll(ep, o, cut, steps);
    JunctionsGrow(o, cut, steps, |cut|);
    assert steps[|cut|] == RingFaces(ep, o, |cut|);
  }

  /** The whole walk of a ringed chain from its edge-1 vertex of ring 0
      closes the triangles of the junctions where the surface does not
      stop, and nothing else. */
  lemma {:induction false} RingWalk(ep: seq<EdgePoint>, o: seq<int>, cut: seq<bool>)
    requires Ringed(ep, o, cut)
    ensures LastsIn(ep, FirstLasts(o))
    ensures StripFaces(ep, o, 1, FirstLasts(o), |o|) == Junctions(o, cut, |cut|)
  {
    assert RingedAt(ep, o, cut, 0);
    assert LastsIn(ep, FirstLasts(o));
    RingFacesAll(ep, o, cut);
    RingFacesWhole(ep, o, cut);
  }

  /** At the last ring the walk has covered the whole chain. */
  lemma RingFacesWhole(ep: seq<EdgePoint>, o: seq<int>, cut: seq<bool>)
    requires 1 <= |cut| && |o| == 2 * |cut| && Visits(ep, o) && LastsIn(ep, FirstLasts(o))
    ensures RingFaces(ep, o, |cut|) == StripFaces(ep, o, 1, FirstLasts(o), |o|)
  {
    assert |cut| + |cut| == |o|;
  }

  /** So the walk closes two triangles per junction where the surface does
      not stop, each joining a ring to the ring after it. */
  lemma {:induction false} RingWalkFaces(ep: seq<EdgePoint>, o: seq<int>, cut: seq<bool>)
    requires Ringed(ep, o, cut)
    ensures LastsIn(ep, FirstLasts(o))
    ensures |StripFaces(ep, o, 1, FirstLasts(o), |o|)| == 2 * Uncut(cut)
    ensures forall i :: 0 <= i < |StripFaces(ep, o, 1, FirstLasts(o), |o|)| ==>
              Bridges(o, cut, StripFaces(ep, o, 1, FirstLasts(o), |o|)[i])
  {
    RingWalk(ep, o, cut);
    JunctionsCount(o, cut, |cut|);
    assert cut[..|cut|] == cut;
    JunctionsBridge(o, cut, |cut|);
  }

  /** On a ringed chain headed at position 0, the walk starts at position
      1 with the two vertices of ring 0 as last vertices. */
  lemma RingStart(ep: seq<EdgePoint>, o: seq<int>, cut: seq<bool>, u: nat, l: Lasts)
    requires Walkable(ep, o) && Ringed(ep, o, cut) && StripStart(ep, o, 0, u, l)
    ensures u == 1 && l == FirstLasts(o)
  {
    assert RingedAt(ep, o, cut, 0);
  }

  /** The triangles of the junctions of chains 0 .. m-1, chain by chain;
      a chain that is not two vertices per ring has none. */
  ghost function AllJunctions(orders: seq<seq<int>>, cut: seq<bool>, m: nat): seq<Face>
  {
    if m == 0 || m > |orders| then []
    else
      AllJunctions(orders, cut, m - 1)
      + (if |orders[m - 1]| == |cut| + |cut| then Junctions(orders[m - 1], cut, |cut|) else [])
  }

  /** Two triangles per junction where the surface does not stop, per
      chain. */
  lemma {:induction false} AllJunctionsCount(orders: seq<seq<int>>, cut: seq<bool>, m: nat)
    requires m <= |orders| && forall j :: 0 <= j < m ==> |orders[j]| == |cut| + |cut|
    ensures |AllJunctions(orders, cut, m)| == 2 * m * Uncut(cut)
    decreases m
  {
    if m > 0 {
      AllJunctionsCount(orders, cut, m - 1);
      JunctionsAll(orders[m - 1], cut);
      DoubleStep(m, Uncut(cut));
    }
  }

  lemma JunctionsAll(o: seq<int>, cut: seq<bool>)
    requires |o| == |cut| + |cut|
    ensures |Junctions(o, cut, |cut|)| == 2 * Uncut(cut)
  {
    JunctionsCount(o, cut, |cut|);
    assert cut[..|cut|] == cut;
  }

  lemma DoubleStep(m: nat, u: nat)
    requires 0 < m
    ensures 2 * m * u == 2 * (m - 1) * u + 2 * u
  {
  }

  /** The walk of a ringed chain headed at its spoke closes the chain's
      junction triangles. */
  lemma RingedChainWalk(ep: seq<EdgePoint>, orders: seq<seq<int>>, starts: seq<Start>, cut: seq<bool>, m: nat, j: nat)
    requires Started(ep, orders, starts, m) && j < m && Ringed(ep, orders[j], cut) && orders[j][0] == j
    ensures Visits(ep, orders[j]) && starts[j].u < |orders[j]| && LastsIn(ep, starts[j].l)
    ensures StripFaces(ep, orders[j], starts[j].u, starts[j].l, |orders[j]|) == Junctions(orders[j], cut, |cut|)
  {
    var o := orders[j];
    assert Walkable(ep, o) && j in o && StripStart(ep, o, IndexOf(o, j), starts[j].u, starts[j].l);
    assert IndexOf(o, j) == 0;
    RingStart(ep, o, cut, starts[j].u, starts[j].l);
    RingWalk(ep, o, cut);
  }

  /** The strip layout: two edges, a block of two rows per ring. */
  ghost predicate FreshStrip(ep: seq<EdgePoint>, corner: seq<bool>, smooth: bool, radial: nat, closed: bool,
                             shade: Slot -> Attributes)
  {
    && 0 < radial && 1 <= |corner|
    && radial <= |Layout(corner, smooth, 2, radial)|
    && Fresh(ep, Layout(corner, smooth, 2, radial), radial, 2, closed, shade)
  }

  /** Position t of chain j is t rows after vertex j. */
  lemma {:induction false} ChainAt(j: nat, radial: nat, n: nat, t: nat)
    requires 0 < radial && t < |ChainFrom(j, radial, n)|
    ensures ChainFrom(j, radial, n)[t] == Blocks(t, radial) + j
    decreases t
  {
    if t > 0 {
      ChainAt(j, radial, n, t - 1);
    }
  }

  /** Two rows make one block of the strip layout. */
  lemma {:induction false} BlocksDouble(r: nat, radial: nat)
    ensures Blocks(r + r, radial) == Blocks(r, radial + radial)
    decreases r
  {
    if r > 0 {
      BlocksDouble(r - 1, radial);
      assert Blocks(r + r, radial) == Blocks(r + r - 1, radial) + radial;
    }
  }

  /** Ring r of chain j: its vertex on edge 0, then its vertex on edge 1. */
  lemma ChainPair(j: nat, radial: nat, n: nat, r: nat)
    requires 0 < radial && r + r + 1 < |ChainFrom(j, radial, n)|
    ensures ChainFrom(j, radial, n)[r + r] == Blocks(r, radial + radial) + j
    ensures ChainFrom(j, radial, n)[r + r + 1] == Blocks(r, radial + radial) + radial + j
  {
    ChainAt(j, radial, n, r + r);
    ChainAt(j, radial, n, r + r + 1);
    BlocksDouble(r, radial);
    assert Blocks(r + r + 1, radial) == Blocks(r + r, radial) + radial;
  }

  /** Over `rows` whole rows, the chain of spoke j has one vertex per row. */
  lemma {:induction false} ChainRows(j: nat, radial: nat, rows: nat, n: nat)
    requires j < radial && 0 < rows && n == Blocks(rows, radial)
    ensures |ChainFrom(j, radial, n)| == rows
  {
    var c := ChainFrom(j, radial, n);
    BlocksMono(0, rows, radial);
    ChainAt(j, radial, n, |c| - 1);
    assert Blocks(|c|, radial) == Blocks(|c| - 1, radial) + radial;
    if |c| < rows {
      BlocksMono(|c|, rows, radial);
    } else if |c| > rows {
      BlocksMono(rows, |c|, radial);
    }
  }

  /** Slot `off` of block r of `rings` blocks, and the same slot of the
      block after it. */
  lemma BlockNext(rings: nat, block: nat, r: nat, off: nat, n: nat)
    requires n == Blocks(rings, block) && r < rings && off < block
    ensures Blocks(r, block) + off < n
    ensures Blocks(r, block) + off + block < n <==> r + 1 < rings
    ensures Blocks(r + 1, block) == Blocks(r, block) + block
  {
    BlocksMono(r, rings, block);
    assert Blocks(r + 1, block) == Blocks(r, block) + block;
    if r + 1 < rings {
      BlocksMono(r + 1, rings, block);
    }
  }

  /** A strip layout seen ring by ring: one block of two rows per ring,
      every slot of ring r a copy exactly when the ring is, on edge 0 in
      the first row and edge 1 in the second. */
  ghost predicate StripLaid(lay: seq<Slot>, flags: seq<bool>, radial: nat)
  {
    && 0 < radial && 1 <= |flags| && !flags[0] && |lay| == Blocks(|flags|, radial + radial)
    && forall r, off :: 0 <= r < |flags| && 0 <= off < radial + radial ==> StripLaidAt(lay, flags, radial, r, off)
  }

  ghost predicate StripLaidAt(lay: seq<Slot>, flags: seq<bool>, radial: nat, r: nat, off: nat)
    requires r < |flags|
  {
    var k := Blocks(r, radial + radial) + off;
    k < |lay| && lay[k].duplicate == flags[r] && lay[k].edge == (if off < radial then 0 else 1)
  }

  /** The layout for two edges is a strip layout. */
  lemma LayoutStripLaid(corner: seq<bool>, smooth: bool, radial: nat)
    requires 0 < radial && 1 <= |corner|
    ensures StripLaid(Layout(corner, smooth, 2, radial), RingFlags(corner, smooth), radial)
  {
    var flags := RingFlags(corner, smooth);
    assert BlockSize(2, radial) == radial + radial;
    LayoutBlocks(corner, smooth, 2, radial);
    forall r, off | 0 <= r < |flags| && 0 <= off < radial + radial
      ensures StripLaidAt(Layout(corner, smooth, 2, radial), flags, radial, r, off)
    {
      LayoutRings(corner, smooth, 2, radial, r, off);
    }
  }

  /** The surface goes on from slot `off` of ring r of a strip layout
      exactly where it does not stop after ring r. */
  lemma LaidJoined(lay: seq<Slot>, flags: seq<bool>, radial: nat, closed: bool, r: nat, off: nat)
    requires StripLaid(lay, flags, radial) && r < |flags| && off < radial + radial
    ensures Blocks(r, radial + radial) + off < |lay|
    ensures GoesOn(lay, radial + radial, closed, Blocks(r, radial + radial) + off) == !RingCuts(flags, closed)[r]
  {
    BlockNext(|flags|, radial + radial, r, off, |lay|);
    if r + 1 < |flags| {
      assert StripLaidAt(lay, flags, radial, r + 1, off);
    }
    JoinedFrom(flags, lay, radial + radial, closed, r, off);
  }

  /** The surface comes into slot `off` of ring r of a strip layout
      exactly where it does not stop before ring r. */
  lemma LaidBackward(lay: seq<Slot>, flags: seq<bool>, radial: nat, closed: bool, r: nat, off: nat)
    requires StripLaid(lay, flags, radial) && r < |flags| && off < radial + radial
    ensures Blocks(r, radial + radial) + off < |lay|
    ensures (!lay[Blocks(r, radial + radial) + off].duplicate && (closed || Blocks(r, radial + radial) + off >= radial + radial))
            == !RingCuts(flags, closed)[Pred(r, |flags|)]
  {
    assert StripLaidAt(lay, flags, radial, r, off);
    if r > 0 {
      BlocksMono(0, r, radial + radial);
    }
  }

  /** Vertex k of a freshly built strip array, from its slot. */
  lemma FreshSlot(ep: seq<EdgePoint>, lay: seq<Slot>, radial: nat, closed: bool, shade: Slot -> Attributes, k: nat)
    requires 0 < radial <= |lay| && Fresh(ep, lay, radial, 2, closed, shade) && k < |lay|
    ensures k < |ep| && !ep[k].removed && ep[k].edge == lay[k].edge
    ensures ep[k].nextConnected == GoesOn(lay, radial + radial, closed, k)
    ensures ep[k].prevConnected == (!lay[k].duplicate && (closed || k >= radial + radial))
  {
    assert BlockSize(2, radial) == radial + radial;
    assert FreshAt(ep, lay, radial, 2, closed, shade, k);
  }

  /** Slot `off` of ring r of a freshly built strip array: live, on the
      edge of its row, and connected forward and backward exactly where the
      surface does not stop after and before ring r. */
  lemma LaidSlot(ep: seq<EdgePoint>, lay: seq<Slot>, flags: seq<bool>, radial: nat, closed: bool,
                 shade: Slot -> Attributes, r: nat, off: nat)
    requires StripLaid(lay, flags, radial) && radial <= |lay| && Fresh(ep, lay, radial, 2, closed, shade)
    requires r < |flags| && off < radial + radial
    ensures StripShapedAt(ep, RingCuts(flags, closed), radial, r, off)
  {
    assert StripLaidAt(lay, flags, radial, r, off);
    LaidJoined(lay, flags, radial, closed, r, off);
    LaidBackward(lay, flags, radial, closed, r, off);
    FreshSlot(ep, lay, radial, closed, shade, Blocks(r, radial + radial) + off);
  }

  /** Slot `off` of ring r of a strip array: live, on the edge of its row,
      and connected forward and backward exactly where the surface does
      not stop after and before ring r. */
  ghost predicate StripShapedAt(ep: seq<EdgePoint>, cut: seq<bool>, radial: nat, r: nat, off: nat)
    requires r < |cut|
  {
    var k := Blocks(r, radial + radial) + off;
    && k < |ep| && !ep[k].removed
    && ep[k].edge == (if off < radial then 0 else 1)
    && ep[k].nextConnected == !cut[r] && ep[k].prevConnected == !cut[Pred(r, |cut|)]
  }

  /** A strip array before any vertex is removed, seen ring by ring. */
  ghost predicate StripShaped(ep: seq<EdgePoint>, cut: seq<bool>, radial: nat)
  {
    && 0 < radial && 1 <= |cut| && |ep| == Blocks(|cut|, radial + radial)
    && forall r, off :: 0 <= r < |cut| && 0 <= off < radial + radial ==> StripShapedAt(ep, cut, radial, r, off)
  }

  /** Ring construction for a flat or cross profile gives a strip array
      ring by ring. */
  lemma FreshStripShaped(ep: seq<EdgePoint>, corner: seq<bool>, smooth: bool, radial: nat, closed: bool,
                         shade: Slot -> Attributes)
    requires FreshStrip(ep, corner, smooth, radial, closed, shade)
    ensures StripShaped(ep, RingCuts(RingFlags(corner, smooth), closed), radial)
  {
    var flags := RingFlags(corner, smooth);
    var lay := Layout(corner, smooth, 2, radial);
    LayoutStripLaid(corner, smooth, radial);
    forall r, off | 0 <= r < |flags| && 0 <= off < radial + radial
      ensures StripShapedAt(ep, RingCuts(flags, closed), radial, r, off)
    {
      LaidSlot(ep, lay, flags, radial, closed, shade, r, off);
    }
  }

  /** Ring r of a chain through slots j and radial + j of every ring. */
  lemma ShapedRingedAt(ep: seq<EdgePoint>, cut: seq<bool>, radial: nat, o: seq<int>, j: nat, r: nat)
    requires StripShaped(ep, cut, radial) && j < radial && r < |cut| && |o| == |cut| + |cut|
    requires o[r + r] == Blocks(r, radial + radial) + j && o[r + r + 1] == Blocks(r, radial + radial) + radial + j
    ensures RingedAt(ep, o, cut, r)
    ensures Live(ep, o[r + r]) && Live(ep, o[r + r + 1])
  {
    assert StripShapedAt(ep, cut, radial, r, j);
    assert StripShapedAt(ep, cut, radial, r, radial + j);
  }

  /** Every chain of a strip array is a ringed chain: it passes through the
      rings in order, and its connection flags say where the surface
      stops. */
  lemma {:induction false} ShapedRinged(ep: seq<EdgePoint>, cut: seq<bool>, radial: nat, j: nat)
    requires StripShaped(ep, cut, radial) && j < radial
    ensures |ChainFrom(j, radial, |ep|)| == |cut| + |cut|
    ensures Ringed(ep, ChainFrom(j, radial, |ep|), cut)
  {
    var o := ChainFrom(j, radial, |ep|);
    BlocksDouble(|cut|, radial);
    ChainRows(j, radial, |cut| + |cut|, |ep|);
    forall r | 0 <= r < |cut|
      ensures RingedAt(ep, o, cut, r) && Live(ep, o[r + r]) && Live(ep, o[r + r + 1])
    {
      ChainPair(j, radial, |ep|, r);
      ShapedRingedAt(ep, cut, radial, o, j, r);
    }
    RingsVisit(ep, o, cut);
  }

  /** A chain whose rings are live and on edges 0 and 1 visits live
      vertices on those edges only. */
  lemma RingsVisit(ep: seq<EdgePoint>, o: seq<int>, cut: seq<bool>)
    requires |o| == |cut| + |cut|
    requires forall r :: 0 <= r < |cut| ==> RingedAt(ep, o, cut, r) && Live(ep, o[r + r]) && Live(ep, o[r + r + 1])
    ensures Visits(ep, o)
  {
    forall t | 0 <= t < |o|
      ensures Live(ep, o[t]) && 0 <= ep[o[t]].edge <= 1
    {
      var r := Half(t);
      assert RingedAt(ep, o, cut, r);
    }
  }

  lemma Half(t: nat) returns (r: nat)
    ensures t == r + r || t == r + r + 1
  {
    r := t / 2;
  }

  /** The strip walk of a strip array closes the junction triangles of
      every chain, two per spoke per junction where the surface goes on. */
  lemma {:induction false} ShapedStripTotal(ep: seq<EdgePoint>, cut: seq<bool>, radial: nat, starts: seq<Start>)
    requires StripShaped(ep, cut, radial) && Started(ep, StartOrders(radial, |ep|), starts, radial)
    ensures AllStrips(ep, StartOrders(radial, |ep|), starts, radial) == AllJunctions(StartOrders(radial, |ep|), cut, radial)
    ensures |AllStrips(ep, StartOrders(radial, |ep|), starts, radial)| == 2 * radial * Uncut(cut)
  {
    var orders := StartOrders(radial, |ep|);
    forall j | 0 <= j < radial
      ensures |orders[j]| == |cut| + |cut| && Ringed(ep, orders[j], cut) && orders[j][0] == j
    {
      ShapedRinged(ep, cut, radial, j);
    }
    RingedTotal(ep, orders, starts, cut, radial);
  }

  /** Walks of ringed chains, each headed at its spoke, close the junction
      triangles of every chain, two per junction where the surface goes
      on. */
  lemma RingedTotal(ep: seq<EdgePoint>, orders: seq<seq<int>>, starts: seq<Start>, cut: seq<bool>, m: nat)
    requires Started(ep, orders, starts, m)
    requires forall j :: 0 <= j < m ==> |orders[j]| == |cut| + |cut| && Ringed(ep, orders[j], cut) && orders[j][0] == j
    ensures Walks(ep, orders, starts, m)
    ensures AllStrips(ep, orders, starts, m) == AllJunctions(orders, cut, m)
    ensures |AllStrips(ep, orders, starts, m)| == 2 * m * Uncut(cut)
  {
    forall j | 0 <= j < m
      ensures ChainCloses(ep, orders, starts, cut, j)
    {
      RingedChainWalk(ep, orders, starts, cut, m, j);
    }
    ClosesAll(ep, orders, starts, cut, m);
    WalksJunctions(ep, orders, starts, cut, m);
    AllJunctionsCount(orders, cut, m);
  }

  /** The walks of chains 0 .. m-1 can be followed and each closes the
      junction triangles of its chain. */
  ghost predicate ChainsClose(ep: seq<EdgePoint>, orders: seq<seq<int>>, starts: seq<Start>, cut: seq<bool>, m: nat)
    decreases m
  {
    && m <= |orders| && m <= |starts|
    && (m == 0 || (ChainsClose(ep, orders, starts, cut, m - 1) && ChainCloses(ep, orders, starts, cut, m - 1)))
  }

  /** The walk of chain j can be followed and closes the junction
      triangles of its chain. */
  ghost predicate ChainCloses(ep: seq<EdgePoint>, orders: seq<seq<int>>, starts: seq<Start>, cut: seq<bool>, j: nat)
  {
    && j < |orders| && j < |starts|
    && Visits(ep, orders[j]) && starts[j].u < |orders[j]| && LastsIn(ep, starts[j].l)
    && |orders[j]| == |cut| + |cut|
    && StripFaces(ep, orders[j], starts[j].u, starts[j].l, |orders[j]|) == Junctions(orders[j], cut, |cut|)
  }

  lemma {:induction false} ClosesAll(ep: seq<EdgePoint>, orders: seq<seq<int>>, starts: seq<Start>, cut: seq<bool>, m: nat)
    requires m <= |orders| && m <= |starts|
    requires forall j :: 0 <= j < m ==> ChainCloses(ep, orders, starts, cut, j)
    ensures ChainsClose(ep, orders, starts, cut, m)
    decreases m
  {
    if m > 0 {
      ClosesAll(ep, orders, starts, cut, m - 1);
      assert ChainCloses(ep, orders, starts, cut, m - 1);
    }
  }

  /** Walks that each close the junction triangles of their chain close,
      together, the junction triangles of all the chains. */
  lemma {:induction false} WalksJunctions(ep: seq<EdgePoint>, orders: seq<seq<int>>, starts: seq<Start>, cut: seq<bool>, m: nat)
    requires ChainsClose(ep, orders, starts, cut, m)
    ensures Walks(ep, orders, starts, m)
    ensures forall j :: 0 <= j < m ==> |orders[j]| == |cut| + |cut|
    ensures AllStrips(ep, orders, starts, m) == AllJunctions(orders, cut, m)
    decreases m
  {
    if m > 0 {
      WalksJunctions(ep, orders, starts, cut, m - 1);
    }
  }
}
