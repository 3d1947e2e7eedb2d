/** Interleaving (flat and rectangular profiles): along each spoke's chain,
    a vertex on edge 1 and the edge-0 vertex after it are spliced out
    together when they come from two different center points, neither of
    them a corner, and the walk then skips ahead, so that the remaining
    vertices alternate between the two edges of successive rings. */
module Interleave {
  import opened Records
  import opened Chains
  import opened InitialChains

  /** Every vertex names a center point. */
  ghost predicate Sourced(ep: seq<EdgePoint>, corner: seq<bool>)
  {
    forall k :: 0 <= k < |ep| ==> 0 <= ep[k].source < |corner|
  }

  /** A chain order that starts at its head j, holds at least two vertices
      and lists them in increasing array order. */
  ghost predicate Headed(order: seq<int>, j: nat)
  {
    && 2 <= |order| && order[0] == j
    && forall s, t :: 0 <= s < t < |order| ==> order[s] < order[t]
  }

  /** Between two states of the array only links and removal marks differ,
      and a vertex already removed in `ep0` is untouched. */
  ghost predicate Kept(ep0: seq<EdgePoint>, ep: seq<EdgePoint>)
  {
    |ep| == |ep0| && forall k :: 0 <= k < |ep| ==> KeptAt(ep0, ep, k)
  }

  ghost predicate KeptAt(ep0: seq<EdgePoint>, ep: seq<EdgePoint>, k: nat)
    requires |ep| == |ep0| && k < |ep|
  {
    && ep[k].attrs == ep0[k].attrs && ep[k].source == ep0[k].source && ep[k].edge == ep0[k].edge
    && ep[k].filter == ep0[k].filter
    && ep[k].nextConnected == ep0[k].nextConnected && ep[k].prevConnected == ep0[k].prevConnected
    && (ep0[k].removed ==> ep[k] == ep0[k])
  }

  /** Vertex k was live in `ep0` and is removed in `ep`. */
  ghost predicate Newly(ep0: seq<EdgePoint>, ep: seq<EdgePoint>, k: int)
    requires |ep| == |ep0|
  {
    0 <= k < |ep| && ep[k].removed && !ep0[k].removed
  }

  /** Every vertex removed since `ep0` comes from a center point that is not
      a corner and belongs to a removed pair: an edge-1 vertex removed with
      the edge-0 vertex it linked to, which comes from a different center
      point. */
  ghost predicate Gone(ep0: seq<EdgePoint>, ep: seq<EdgePoint>, corner: seq<bool>)
    requires |ep| == |ep0|
  {
    forall k :: 0 <= k < |ep| && Newly(ep0, ep, k) ==> GoneAt(ep0, ep, corner, k)
  }

  ghost predicate GoneAt(ep0: seq<EdgePoint>, ep: seq<EdgePoint>, corner: seq<bool>, k: nat)
    requires |ep| == |ep0| && k < |ep|
  {
    && 0 <= ep[k].source < |corner| && !corner[ep[k].source]
    && (ep[k].edge == 1 ==>
          Newly(ep0, ep, ep[k].next) && ep[ep[k].next].edge == 0 && ep[ep[k].next].source != ep[k].source)
    && (ep[k].edge == 0 ==> exists p :: Newly(ep0, ep, p) && ep[p].edge == 1 && ep[p].next == k)
  }

  /** The two vertices p and x = p.next spliced out and marked removed. */
  function Spliced(ep: seq<EdgePoint>, p: nat, x: nat): (r: seq<EdgePoint>)
    requires p < |ep| && x < |ep| && p != x && ep[p].next == x
    requires 0 <= ep[p].prev < |ep| && 0 <= ep[x].next < |ep|
    ensures |r| == |ep|
  {
    Removed(Removed(ep, p, ep[p].filter), x, ep[x].filter)
  }

  /** Splices out p and the vertex x after it in the order the stage does:
      both unlinked first, then both marked. */
  method SplicePair(a: array<EdgePoint>, p: nat, x: nat)
    requires p < a.Length && x < a.Length && p != x && a[p].next == x
    requires 0 <= a[p].prev < a.Length && 0 <= a[x].next < a.Length
    requires a[p].prev != p && a[x].next != p
    modifies a
    ensures a[..] == Spliced(old(a[..]), p, x)
  {
    ghost var ep := a[..];
    RemovePoint(a, p);
    RemovePoint(a, x);
    ghost var v := a[..];
    a[p] := a[p].(removed := true);
    a[x] := a[x].(removed := true);
    assert a[..] == v[p := v[p].(removed := true)][x := v[x].(removed := true)];
    SpliceOrder(ep, p, x);
  }

  /** Vertex i after splicing out k: only k's neighbours change, each in
      the one link that pointed at k. */
  lemma UnlinkedAt(ep: seq<EdgePoint>, k: nat, i: nat)
    requires k < |ep| && 0 <= ep[k].prev < |ep| && 0 <= ep[k].next < |ep| && i < |ep|
    ensures Unlinked(ep, k)[i] ==
              ep[i].(next := if i == ep[k].prev then ep[k].next else ep[i].next,
                     prev := if i == ep[k].next then ep[k].prev else ep[i].prev)
  {
  }

  /** Unlinking both vertices before marking either gives the same array as
      splicing them out one after the other. */
  lemma SpliceOrder(ep: seq<EdgePoint>, p: nat, x: nat)
    requires p < |ep| && x < |ep| && p != x && ep[p].next == x
    requires 0 <= ep[p].prev < |ep| && 0 <= ep[x].next < |ep|
    requires ep[p].prev != p && ep[x].next != p
    ensures var u := Unlinked(ep, p);
            var v := Unlinked(u, x);
            v[p := v[p].(removed := true)][x := v[x].(removed := true)] == Spliced(ep, p, x)
  {
    var u := Unlinked(ep, p);
    var v := Unlinked(u, x);
    forall i | 0 <= i < |ep|
      ensures v[p := v[p].(removed := true)][x := v[x].(removed := true)][i] == Spliced(ep, p, x)[i]
    {
      SpliceOrderAt(ep, p, x, i);
    }
  }

  lemma SpliceOrderAt(ep: seq<EdgePoint>, p: nat, x: nat, i: nat)
    requires p < |ep| && x < |ep| && p != x && ep[p].next == x
    requires 0 <= ep[p].prev < |ep| && 0 <= ep[x].next < |ep|
    requires ep[p].prev != p && ep[x].next != p && i < |ep|
    ensures var u := Unlinked(ep, p);
            var v := Unlinked(u, x);
            v[p := v[p].(removed := true)][x := v[x].(removed := true)][i] == Spliced(ep, p, x)[i]
  {
    var u := Unlinked(ep, p);
    var r1 := Removed(ep, p, ep[p].filter);
    SpliceSecond(ep, p, x);
    UnlinkedAt(u, x, i);
    UnlinkedAt(r1, x, i);
    if i != x && i != p {
      assert r1[i] == u[i];
    }
  }

  /** Before the second splice, x has the same links whether or not p is
      already marked, and neither of them is p. */
  lemma SpliceSecond(ep: seq<EdgePoint>, p: nat, x: nat)
    requires p < |ep| && x < |ep| && p != x && ep[p].next == x
    requires 0 <= ep[p].prev < |ep| && 0 <= ep[x].next < |ep|
    requires ep[p].prev != p && ep[x].next != p
    ensures var u := Unlinked(ep, p);
            var r1 := Removed(ep, p, ep[p].filter);
            && r1 == u[p := u[p].(removed := true)] && r1[x] == u[x]
            && u[x].prev == ep[p].prev && 0 <= u[x].next < |ep| && u[x].next != p
  {
    var u := Unlinked(ep, p);
    UnlinkedAt(ep, p, x);
    if x != ep[p].prev {
      assert u[x].next == ep[x].next;
    }
  }

  /** Two consecutive live vertices of a chain of at least three: their
      outer neighbours are live and distinct from the first, and the second
      links on to the vertex after it. */
  lemma SpliceReady(ep: seq<EdgePoint>, tag: seq<nat>, orders: seq<seq<int>>, j: nat, pos: nat)
    requires Chained(ep, tag, orders)
    requires j < |orders| && pos + 1 < |orders[j]| && 3 <= |orders[j]|
    ensures var p := orders[j][pos];
            var x := orders[j][pos + 1];
            && CycleAt(ep, orders[j], pos) && CycleAt(ep, orders[j], pos + 1)
            && Live(ep, p) && Live(ep, x) && p != x && ep[p].next == x
            && Live(ep, ep[p].prev) && Live(ep, ep[x].next) && ep[p].prev != p && ep[p].prev != x && ep[x].next != p
            && ep[x].next == orders[j][Succ(pos + 1, |orders[j]|)]
  {
    var o := orders[j];
    assert Cycle(ep, o);
    assert CycleAt(ep, o, pos) && CycleAt(ep, o, pos + 1);
    assert CycleAt(ep, o, Pred(pos, |o|)) && CycleAt(ep, o, Succ(pos + 1, |o|));
    assert Pred(pos, |o|) != pos && Pred(pos, |o|) != pos + 1;
    assert Succ(pos + 1, |o|) != pos;
  }

  /** Splicing out two consecutive live vertices of a chain of at least
      three keeps every chain a cycle and the removals ranked. */
  lemma SplicedChained(ep: seq<EdgePoint>, tag: seq<nat>, orders: seq<seq<int>>, rank: seq<nat>, clock: nat,
                       j: nat, pos: nat, p: nat, x: nat)
    requires Chained(ep, tag, orders) && Stale(ep, rank, clock)
    requires j < |orders| && pos + 1 < |orders[j]| && 3 <= |orders[j]|
    requires p == orders[j][pos] && x == orders[j][pos + 1]
    requires p != x && ep[p].next == x && 0 <= ep[p].prev < |ep| && 0 <= ep[x].next < |ep|
    ensures Chained(Spliced(ep, p, x), tag, orders[j := Without(Without(orders[j], pos), pos)])
    ensures Stale(Spliced(ep, p, x), rank[p := clock][x := clock + 1], clock + 2)
  {
    ChainedRemoved(ep, tag, orders, rank, clock, j, pos, ep[p].filter);
    SplicedChainedSecond(Removed(ep, p, ep[p].filter), tag, orders[j := Without(orders[j], pos)],
                         rank[p := clock], clock + 1, j, pos, x, ep[x].filter);
    RemovedAt(ep, p, ep[p].filter, x);
    UpdateAgain(orders, j, Without(orders[j], pos), Without(Without(orders[j], pos), pos));
  }

  lemma UpdateAgain(orders: seq<seq<int>>, j: nat, first: seq<int>, second: seq<int>)
    requires j < |orders|
    ensures orders[j := first][j := second] == orders[j := second]
  {
  }

  lemma SplicedChainedSecond(r1: seq<EdgePoint>, tag: seq<nat>, orders1: seq<seq<int>>, rank1: seq<nat>, clock1: nat,
                             j: nat, pos: nat, x: nat, filter: bool)
    requires Chained(r1, tag, orders1) && Stale(r1, rank1, clock1)
    requires j < |orders1| && pos < |orders1[j]| && 2 <= |orders1[j]| && x == orders1[j][pos]
    ensures 0 <= r1[x].prev < |r1| && 0 <= r1[x].next < |r1|
    ensures Chained(Removed(r1, x, filter), tag, orders1[j := Without(orders1[j], pos)])
    ensures Stale(Removed(r1, x, filter), rank1[x := clock1], clock1 + 1)
  {
    ChainedRemoved(r1, tag, orders1, rank1, clock1, j, pos, filter);
  }

  /** Splicing out two consecutive live vertices changes only links and the
      two removal marks, leaves removed vertices as they were, and the two
      spliced vertices keep their forward links. */
  lemma SplicedKept(ep: seq<EdgePoint>, p: nat, x: nat)
    requires Live(ep, p) && Live(ep, x) && p != x && ep[p].next == x
    requires Live(ep, ep[p].prev) && Live(ep, ep[x].next) && ep[p].prev != p && ep[p].prev != x && ep[x].next != p
    ensures var r := Spliced(ep, p, x);
            && Kept(ep, r) && r[p].next == x && r[x].next == ep[x].next && r[p].removed && r[x].removed
            && forall k :: 0 <= k < |ep| && k != p && k != x ==> r[k].removed == ep[k].removed
  {
    var r := Spliced(ep, p, x);
    forall k | 0 <= k < |ep|
      ensures KeptAt(ep, r, k) && (k != p && k != x ==> r[k].removed == ep[k].removed)
    {
      SplicedAt(ep, p, x, k);
    }
    SplicedAt(ep, p, x, p);
    SplicedAt(ep, p, x, x);
  }

  lemma SplicedAt(ep: seq<EdgePoint>, p: nat, x: nat, k: nat)
    requires Live(ep, p) && Live(ep, x) && p != x && ep[p].next == x
    requires Live(ep, ep[p].prev) && Live(ep, ep[x].next) && ep[p].prev != p && ep[p].prev != x && ep[x].next != p
    requires k < |ep|
    ensures var r := Spliced(ep, p, x);
            && KeptAt(ep, r, k)
            && (k == p ==> r[k].next == x && r[k].removed)
            && (k == x ==> r[k].next == ep[x].next && r[k].removed)
            && (k != p && k != x ==> r[k].removed == ep[k].removed)
  {
    var u := Unlinked(ep, p);
    var r1 := Removed(ep, p, ep[p].filter);
    SpliceSecond(ep, p, x);
    UnlinkedAt(ep, p, k);
    UnlinkedAt(r1, x, k);
    UnlinkedAt(ep, p, x);
  }

  /** Keeping is transitive. */
  lemma KeptTrans(ep0: seq<EdgePoint>, ep1: seq<EdgePoint>, ep2: seq<EdgePoint>)
    requires Kept(ep0, ep1) && Kept(ep1, ep2)
    ensures Kept(ep0, ep2)
  {
    forall k | 0 <= k < |ep0|
      ensures KeptAt(ep0, ep2, k)
    {
      assert KeptAt(ep0, ep1, k) && KeptAt(ep1, ep2, k);
    }
  }

  /** Edges and center points are all that alternation, pairing and
      sourcing read, so they carry over to a kept array. */
  lemma KeptShape(ep: seq<EdgePoint>, ep': seq<EdgePoint>, order: seq<int>, from: nat, corner: seq<bool>)
    requires Kept(ep, ep')
    ensures Alternating(ep, order, 2) ==> Alternating(ep', order, 2)
    ensures PairedFrom(ep, order, from) ==> PairedFrom(ep', order, from)
    ensures Sourced(ep, corner) ==> Sourced(ep', corner)
  {
    forall k | 0 <= k < |ep|
      ensures ep'[k].edge == ep[k].edge && ep'[k].source == ep[k].source
    {
      assert KeptAt(ep, ep', k);
    }
  }

  /** Splicing out an edge-1 vertex p and the edge-0 vertex x after it,
      both live, from different center points that are not corners, keeps
      every removal since `ep0` explained. */
  lemma GoneStep(ep0: seq<EdgePoint>, ep: seq<EdgePoint>, ep': seq<EdgePoint>, corner: seq<bool>, p: nat, x: nat)
    requires Kept(ep0, ep) && Kept(ep, ep') && Gone(ep0, ep, corner)
    requires Live(ep, p) && Live(ep, x) && ep'[p].removed && ep'[x].removed && ep'[p].next == x
    requires forall k :: 0 <= k < |ep| && k != p && k != x ==> ep'[k].removed == ep[k].removed
    requires ep[p].edge == 1 && ep[x].edge == 0 && ep[p].source != ep[x].source
    requires 0 <= ep[p].source < |corner| && !corner[ep[p].source]
    requires 0 <= ep[x].source < |corner| && !corner[ep[x].source]
    ensures Gone(ep0, ep', corner)
  {
    assert KeptAt(ep0, ep, p) && KeptAt(ep0, ep, x) && KeptAt(ep, ep', p) && KeptAt(ep, ep', x);
    assert Newly(ep0, ep', p) && Newly(ep0, ep', x);
    forall k | 0 <= k < |ep'| && Newly(ep0, ep', k)
      ensures GoneAt(ep0, ep', corner, k)
    {
      assert KeptAt(ep0, ep, k) && KeptAt(ep, ep', k);
      if k != p && k != x {
        assert Newly(ep0, ep, k) && GoneAt(ep0, ep, corner, k);
        assert ep'[k] == ep[k];
        if ep[k].edge == 1 {
          var m := ep[k].next;
          assert KeptAt(ep0, ep, m) && KeptAt(ep, ep', m);
          assert ep'[m] == ep[m];
        }
        if ep[k].edge == 0 {
          var w :| Newly(ep0, ep, w) && ep[w].edge == 1 && ep[w].next == k;
          assert KeptAt(ep0, ep, w) && KeptAt(ep, ep', w);
          assert ep'[w] == ep[w];
          assert Newly(ep0, ep', w);
        }
      } else if k == x {
        assert Newly(ep0, ep', p) && ep'[p].edge == 1 && ep'[p].next == k;
      }
    }
  }

  /** Where the walk along one chain stands: `pointIndex` is the index the
      stage last compared against. Before the chain's last vertex is
      reached, the walk is at or past `pointIndex` (which is 0 only at the
      head) and the pairs from its position on still share center points;
      otherwise the next link already points back below `pointIndex`. */
  ghost predicate Walking(ep: seq<EdgePoint>, order: seq<int>, j: nat, pos: nat, pointIndex: int)
    requires pos < |order|
  {
    || (pointIndex <= order[pos] && (if pos == 0 then pointIndex == 0 else j < pointIndex) && PairedFrom(ep, order, pos))
    || order[Succ(pos, |order|)] < pointIndex
  }

  /** When the loop test passes, the walk is not at the chain's last
      vertex, and the next vertex lies beyond `pointIndex`. */
  lemma GuardStep(ep: seq<EdgePoint>, order: seq<int>, j: nat, pos: nat, pointIndex: int)
    requires Headed(order, j) && pos < |order| && Walking(ep, order, j, pos, pointIndex)
    requires order[Succ(pos, |order|)] >= pointIndex
    ensures pos + 1 < |order| && pointIndex < order[pos + 1] && j < order[pos + 1]
    ensures PairedFrom(ep, order, pos) && (pos == 0 ==> pointIndex == 0)
    ensures Walking(ep, order, j, pos + 1, order[pos + 1])
  {
    assert order[0] < order[pos + 1];
    assert order[pos] < order[pos + 1];
  }

  /** The pair p, x may be spliced out: two vertices of different center
      points, neither of them a corner. */
  ghost predicate Splices(ep: seq<EdgePoint>, corner: seq<bool>, p: int, x: int)
  {
    && 0 <= p < |ep| && 0 <= x < |ep| && 0 <= ep[p].source < |corner| && 0 <= ep[x].source < |corner|
    && !corner[ep[p].source] && !corner[ep[x].source] && ep[p].source != ep[x].source
  }

  /** The chain order the walk leaves when it stands at position pos of
      order o: a pair that splices is dropped and the walk resumes two
      positions on (three links on from the second vertex), or stops if
      that wraps around; any other vertex is passed by one position on. The
      walk ends at the last position. */
  ghost function Interleaved(ep: seq<EdgePoint>, corner: seq<bool>, o: seq<int>, pos: nat): (r: seq<int>)
    requires pos < |o|
    ensures pos <= |r| <= |o| && |r| % 2 == |o| % 2
    ensures forall u :: 0 <= u < pos ==> r[u] == o[u]
    decreases |o| - pos
  {
    if pos + 1 == |o| then o
    else if Splices(ep, corner, o[pos], o[pos + 1]) then
      var w := Without(Without(o, pos), pos);
      if pos + 2 < |w| then Interleaved(ep, corner, w, pos + 2) else w
    else Interleaved(ep, corner, o, pos + 1)
  }

  /** What the walk leaves of order o from position pos, having last
      compared against `pointIndex`: the order as it is once the forward
      link points back below `pointIndex` (the loop test fails), the
      reference walk otherwise. */
  ghost function Remaining(ep: seq<EdgePoint>, corner: seq<bool>, o: seq<int>, pos: nat, pointIndex: int): seq<int>
    requires pos < |o|
  {
    if o[Succ(pos, |o|)] < pointIndex then o else Interleaved(ep, corner, o, pos)
  }

  /** Chains 0..n-1 of `orders` are those of `orders0` as the reference walk
      leaves them. */
  ghost predicate InterleavedUpTo(ep: seq<EdgePoint>, corner: seq<bool>, orders0: seq<seq<int>>, orders: seq<seq<int>>, n: nat)
  {
    && n <= |orders0| && n <= |orders|
    && forall j :: 0 <= j < n ==> 0 < |orders0[j]| && orders[j] == Interleaved(ep, corner, orders0[j], 0)
  }

  /** Every chain of `orders0` as the reference walk leaves it. */
  ghost function InterleavedOrders(ep: seq<EdgePoint>, corner: seq<bool>, orders0: seq<seq<int>>): (r: seq<seq<int>>)
    ensures |r| == |orders0|
  {
    seq(|orders0|, j requires 0 <= j < |orders0| =>
      if |orders0[j]| == 0 then orders0[j] else Interleaved(ep, corner, orders0[j], 0))
  }

  /** Once every chain is walked, the orders are the reference orders. */
  lemma InterleavedAll(ep: seq<EdgePoint>, corner: seq<bool>, orders0: seq<seq<int>>, orders: seq<seq<int>>)
    requires InterleavedUpTo(ep, corner, orders0, orders, |orders0|) && |orders| == |orders0|
    ensures orders == InterleavedOrders(ep, corner, orders0)
  {
  }

  /** Passing a vertex whose pair does not splice leaves what remains of
      the walk unchanged. */
  lemma SkipRemaining(ep: seq<EdgePoint>, corner: seq<bool>, o: seq<int>, j: nat, pos: nat)
    requires Headed(o, j) && pos + 1 < |o| && !Splices(ep, corner, o[pos], o[pos + 1])
    ensures Remaining(ep, corner, o, pos + 1, o[pos + 1]) == Interleaved(ep, corner, o, pos)
  {
    assert o[0] < o[pos + 1];
    if pos + 2 < |o| {
      assert o[pos + 1] < o[pos + 2];
    }
  }

  /** Splicing a pair and jumping leaves what remains of the walk
      unchanged, whether or not the jump wraps around. */
  lemma SpliceRemaining(ep: seq<EdgePoint>, corner: seq<bool>, o: seq<int>, j: nat, pos: nat)
    requires Headed(o, j) && |o| % 2 == 0 && pos % 2 == 1 && pos + 1 < |o|
    requires Splices(ep, corner, o[pos], o[pos + 1])
    ensures var w := Without(Without(o, pos), pos);
            pos < |w| && Remaining(ep, corner, w, Succ(Succ(pos, |w|), |w|), o[pos + 1]) == Interleaved(ep, corner, o, pos)
  {
    var w := Without(Without(o, pos), pos);
    WithoutTwice(o, pos);
    if pos + 2 < |w| {
      assert Succ(Succ(pos, |w|), |w|) == pos + 2;
      if pos + 3 < |w| {
        assert w[pos + 3] == o[pos + 5] && o[pos + 1] < o[pos + 5];
      } else {
        assert w[0] == o[0] && o[0] < o[pos + 1];
      }
    } else {
      JumpWraps(o, j, pos);
    }
  }

  /** `ep'` is `ep` with the pair p, x = p.next spliced out. */
  ghost predicate SplicedPair(ep: seq<EdgePoint>, ep': seq<EdgePoint>, p: int, x: int)
  {
    && 0 <= p < |ep| && 0 <= x < |ep| && p != x && ep[p].next == x
    && 0 <= ep[p].prev < |ep| && 0 <= ep[x].next < |ep| && ep' == Spliced(ep, p, x)
  }

  /** Positions pos and pos + 1 spliced out of an order: what was after
      them moves down by two. */
  lemma WithoutTwice(o: seq<int>, pos: nat)
    requires pos + 1 < |o|
    ensures var w := Without(Without(o, pos), pos);
            && |w| == |o| - 2
            && forall u :: 0 <= u < |w| ==> w[u] == if u < pos then o[u] else o[u + 2]
  {
  }

  /** After splicing out positions pos and pos + 1 (pos odd), the order
      still starts at the head, is increasing and alternates, and the
      second spliced vertex's forward link is position pos of the new
      order. */
  lemma JumpShape(ep: seq<EdgePoint>, o: seq<int>, j: nat, pos: nat)
    requires Headed(o, j) && Alternating(ep, o, 2) && pos % 2 == 1 && pos + 1 < |o|
    ensures var w := Without(Without(o, pos), pos);
            && Headed(w, j) && Alternating(ep, w, 2)
            && pos < |w| && w[pos] == o[Succ(pos + 1, |o|)]
  {
    var w := Without(Without(o, pos), pos);
    WithoutTwice(o, pos);
    assert |o| % 2 == 0;
    forall s, t | 0 <= s < t < |w|
      ensures w[s] < w[t]
    {
      assert w[s] == o[if s < pos then s else s + 2] && w[t] == o[if t < pos then t else t + 2];
    }
    forall u | 0 <= u < |w|
      ensures 0 <= w[u] < |ep| && ep[w[u]].edge == u % 2
    {
      if u >= pos {
        assert (u + 2) % 2 == u % 2;
      }
    }
  }

  /** Three steps on from the second spliced vertex's successor, the walk
      stands where `Walking` holds again. */
  lemma JumpWalking(ep: seq<EdgePoint>, o: seq<int>, j: nat, pos: nat)
    requires Headed(o, j) && PairedFrom(ep, o, pos) && |o| % 2 == 0 && pos % 2 == 1 && pos + 1 < |o|
    ensures var w := Without(Without(o, pos), pos);
            pos < |w| && Walking(ep, w, j, Succ(Succ(pos, |w|), |w|), o[pos + 1])
  {
    var w := Without(Without(o, pos), pos);
    WithoutTwice(o, pos);
    if pos + 2 < |w| {
      JumpOn(ep, o, j, pos);
    } else {
      JumpWraps(o, j, pos);
    }
  }

  lemma JumpOn(ep: seq<EdgePoint>, o: seq<int>, j: nat, pos: nat)
    requires Headed(o, j) && PairedFrom(ep, o, pos) && pos + 4 < |o|
    ensures var w := Without(Without(o, pos), pos);
            pos + 2 < |w| && Walking(ep, w, j, pos + 2, o[pos + 1])
  {
    var w := Without(Without(o, pos), pos);
    WithoutTwice(o, pos);
    forall t | pos + 2 <= t < |w| - 1 && t % 2 == 0
      ensures 0 <= w[t] < |ep| && 0 <= w[t + 1] < |ep| && ep[w[t]].source == ep[w[t + 1]].source
    {
      assert w[t] == o[t + 2] && w[t + 1] == o[t + 3];
    }
    assert w[pos + 2] == o[pos + 4];
    assert o[0] < o[pos + 1] && o[pos + 1] < o[pos + 4];
  }

  lemma JumpWraps(o: seq<int>, j: nat, pos: nat)
    requires Headed(o, j) && |o| % 2 == 0 && pos % 2 == 1 && pos + 1 < |o| && pos + 4 >= |o|
    ensures var w := Without(Without(o, pos), pos);
            pos < |w| && Succ(Succ(pos, |w|), |w|) == 1 && w[Succ(1, |w|)] < o[pos + 1]
  {
    var w := Without(Without(o, pos), pos);
    WithoutTwice(o, pos);
    assert pos == |w| - 1;
    if |w| > 2 {
      assert w[2] == o[2] && o[2] < o[pos + 1];
    } else {
      assert w[0] == o[0] && o[0] < o[pos + 1];
    }
  }

  /** What holds throughout the pass over chain j: the chains and removal
      ranks are intact, only chain j's order has changed, it still starts at
      its head, is increasing and alternates, and since `start` (the array
      when the pass began) and `ep0` (the array when the stage began) only
      links and removal marks have changed, every removal explained. */
  ghost predicate Pass(ep: seq<EdgePoint>, corner: seq<bool>, ep0: seq<EdgePoint>, start: seq<EdgePoint>,
                       tag: seq<nat>, orders0: seq<seq<int>>, j: nat,
                       orders: seq<seq<int>>, rank: seq<nat>, clock: nat)
  {
    && Chained(ep, tag, orders) && Stale(ep, rank, clock)
    && |orders| == |orders0| && j < |orders| && (forall i :: 0 <= i < |orders| && i != j ==> orders[i] == orders0[i])
    && Headed(orders[j], j) && Alternating(ep, orders[j], 2) && Sourced(ep, corner)
    && Kept(start, ep) && Kept(ep0, ep) && Gone(ep0, ep, corner)
  }

  /** The splicing branch of the pass: p at position pos (odd) and x after
      it come from different center points, neither a corner. Both are
      spliced out and the walk moves three links on from x. */
  method SpliceAndJump(a: array<EdgePoint>, corner: seq<bool>, j: nat, p: nat, x: nat, pointIndex: int,
                       ghost pos: nat, ghost ep0: seq<EdgePoint>, ghost start: seq<EdgePoint>, ghost tag: seq<nat>,
                       ghost orders0: seq<seq<int>>, ghost orders: seq<seq<int>>, ghost rank: seq<nat>, ghost clock: nat)
    returns (q: nat, ghost pos': nat, ghost orders': seq<seq<int>>, ghost rank': seq<nat>, ghost clock': nat)
    requires Pass(a[..], corner, ep0, start, tag, orders0, j, orders, rank, clock)
    requires pos + 1 < |orders[j]| && p == orders[j][pos] && x == orders[j][pos + 1] && pointIndex == x
    requires PairedFrom(a[..], orders[j], pos) && pos % 2 == 1
    requires 0 <= a[p].source < |corner| && 0 <= a[x].source < |corner|
    requires !corner[a[p].source] && !corner[a[x].source] && a[p].source != a[x].source
    modifies a
    ensures Pass(a[..], corner, ep0, start, tag, orders0, j, orders', rank', clock')
    ensures SplicedPair(old(a[..]), a[..], p, x) && orders' == orders[j := Without(Without(orders[j], pos), pos)]
    ensures pos' == Succ(Succ(pos, |orders'[j]|), |orders'[j]|)
    ensures pos' < |orders'[j]| && q == orders'[j][pos'] && 0 <= q < a.Length
    ensures a[q].next == orders'[j][Succ(pos', |orders'[j]|)]
    ensures Walking(a[..], orders'[j], j, pos', pointIndex)
    ensures Splices(ep0, corner, p, x) ==>
              Remaining(ep0, corner, orders'[j], pos', pointIndex) == Interleaved(ep0, corner, orders[j], pos)
  {
    ghost var ep := a[..];
    SpliceReady(ep, tag, orders, j, pos);
    assert Stale(ep, rank, clock);
    assert p < |rank| && x < |rank|;
    SplicePair(a, p, x);
    orders', rank' := AfterSplice(ep, a[..], corner, ep0, start, tag, orders0, j, orders, rank, clock, pos, p, x);
    clock' := clock + 2;
    pos' := Succ(Succ(pos, |orders'[j]|), |orders'[j]|);
    q := JumpThree(a, x, orders'[j], pos, pos');
    if Splices(ep0, corner, p, x) {
      SpliceRemaining(ep0, corner, orders[j], j, pos);
    }
  }

  /** The jump of the splicing branch: three forward links on from x. */
  method JumpThree(a: array<EdgePoint>, x: nat, ghost w: seq<int>, ghost pos: nat, ghost pos': nat) returns (q: nat)
    requires Cycle(a[..], w) && pos < |w| && x < a.Length && a[x].next == w[pos]
    requires pos' == Succ(Succ(pos, |w|), |w|)
    ensures q == w[pos'] && q < a.Length && a[q].next == w[Succ(pos', |w|)]
  {
    ThreeOn(a[..], w, x, pos, pos');
    var k := a[x].next;
    k := a[k].next;
    k := a[k].next;
    q := k;
  }

  /** Three forward links on from x, whose forward link is position pos
      of cycle w, lead to position pos' = pos + 2 (around the cycle). */
  lemma ThreeOn(ep: seq<EdgePoint>, w: seq<int>, x: int, pos: nat, pos': nat)
    requires Cycle(ep, w) && pos < |w| && 0 <= x < |ep| && ep[x].next == w[pos]
    requires pos' == Succ(Succ(pos, |w|), |w|)
    ensures var q1 := ep[x].next;
            && 0 <= q1 < |ep| && 0 <= ep[q1].next < |ep|
            && ep[ep[q1].next].next == w[pos'] && 0 <= w[pos'] < |ep|
            && ep[w[pos']].next == w[Succ(pos', |w|)]
  {
    assert CycleAt(ep, w, pos);
    assert CycleAt(ep, w, Succ(pos, |w|));
    assert CycleAt(ep, w, pos');
  }

  /** The state after the splicing branch has spliced out p and x. */
  lemma AfterSplice(ep: seq<EdgePoint>, ep': seq<EdgePoint>, corner: seq<bool>, ep0: seq<EdgePoint>, start: seq<EdgePoint>,
                    tag: seq<nat>, orders0: seq<seq<int>>, j: nat, orders: seq<seq<int>>, rank: seq<nat>, clock: nat,
                    pos: nat, p: nat, x: nat)
    returns (orders': seq<seq<int>>, rank': seq<nat>)
    requires Pass(ep, corner, ep0, start, tag, orders0, j, orders, rank, clock)
    requires pos + 1 < |orders[j]| && p == orders[j][pos] && x == orders[j][pos + 1]
    requires PairedFrom(ep, orders[j], pos) && pos % 2 == 1
    requires 0 <= ep[p].source < |corner| && 0 <= ep[x].source < |corner|
    requires !corner[ep[p].source] && !corner[ep[x].source] && ep[p].source != ep[x].source
    requires Live(ep, p) && Live(ep, x) && p != x && ep[p].next == x
    requires Live(ep, ep[p].prev) && Live(ep, ep[x].next) && ep[p].prev != p && ep[p].prev != x && ep[x].next != p
    requires ep[x].next == orders[j][Succ(pos + 1, |orders[j]|)]
    requires ep' == Spliced(ep, p, x)
    ensures orders' == orders[j := Without(Without(orders[j], pos), pos)]
    ensures Pass(ep', corner, ep0, start, tag, orders0, j, orders', rank', clock + 2)
    ensures pos < |orders'[j]| && Cycle(ep', orders'[j]) && ep'[x].next == orders'[j][pos]
    ensures Walking(ep', orders'[j], j, Succ(Succ(pos, |orders'[j]|), |orders'[j]|), x)
  {
    orders' := orders[j := Without(Without(orders[j], pos), pos)];
    rank' := rank[p := clock][x := clock + 1];
    SplicePass(ep, ep', corner, ep0, start, tag, orders0, j, orders, rank, clock, pos, p, x);
    assert Cycle(ep', orders'[j]);
    SpliceJump(ep, ep', corner, orders[j], j, pos, x);
  }

  /** After the splice the pass invariant holds again, with chain j's
      order shortened by the two spliced vertices and their removal ranks
      recorded. */
  lemma SplicePass(ep: seq<EdgePoint>, ep': seq<EdgePoint>, corner: seq<bool>, ep0: seq<EdgePoint>, start: seq<EdgePoint>,
                   tag: seq<nat>, orders0: seq<seq<int>>, j: nat, orders: seq<seq<int>>, rank: seq<nat>, clock: nat,
                   pos: nat, p: nat, x: nat)
    requires Pass(ep, corner, ep0, start, tag, orders0, j, orders, rank, clock)
    requires pos + 1 < |orders[j]| && p == orders[j][pos] && x == orders[j][pos + 1]
    requires PairedFrom(ep, orders[j], pos) && pos % 2 == 1
    requires 0 <= ep[p].source < |corner| && 0 <= ep[x].source < |corner|
    requires !corner[ep[p].source] && !corner[ep[x].source] && ep[p].source != ep[x].source
    requires Live(ep, p) && Live(ep, x) && p != x && ep[p].next == x
    requires Live(ep, ep[p].prev) && Live(ep, ep[x].next) && ep[p].prev != p && ep[p].prev != x && ep[x].next != p
    requires ep' == Spliced(ep, p, x)
    ensures Pass(ep', corner, ep0, start, tag, orders0, j, orders[j := Without(Without(orders[j], pos), pos)],
                 rank[p := clock][x := clock + 1], clock + 2)
    ensures Kept(ep, ep') && ep'[x].next == ep[x].next
  {
    var o := orders[j];
    SpliceEdges(ep, o, pos);
    SplicedChained(ep, tag, orders, rank, clock, j, pos, p, x);
    SpliceRecords(ep, ep', corner, ep0, start, p, x);
    KeptShape(ep, ep', o, pos, corner);
    JumpShape(ep', o, j, pos);
  }

  /** After the splice, x still links to the vertex that followed it, now
      at position pos of the shortened order, and three links on from it
      the walk stands where `Walking` holds. */
  lemma SpliceJump(ep: seq<EdgePoint>, ep': seq<EdgePoint>, corner: seq<bool>, o: seq<int>, j: nat, pos: nat, x: nat)
    requires Headed(o, j) && Alternating(ep, o, 2) && PairedFrom(ep, o, pos) && pos % 2 == 1 && pos + 1 < |o|
    requires x == o[pos + 1] && 0 <= x < |ep| == |ep'| && Kept(ep, ep')
    requires ep'[x].next == ep[x].next && ep[x].next == o[Succ(pos + 1, |o|)]
    ensures var w := Without(Without(o, pos), pos);
            && pos < |w| && ep'[x].next == w[pos]
            && Walking(ep', w, j, Succ(Succ(pos, |w|), |w|), x)
  {
    KeptShape(ep, ep', o, pos, corner);
    JumpShape(ep', o, j, pos);
    JumpWalking(ep', o, j, pos);
  }

  /** In an alternating order, an odd position is on edge 1 and the
      position after it on edge 0. */
  lemma SpliceEdges(ep: seq<EdgePoint>, o: seq<int>, pos: nat)
    requires Alternating(ep, o, 2) && pos % 2 == 1 && pos + 1 < |o|
    ensures 0 <= o[pos] < |ep| && 0 <= o[pos + 1] < |ep| && ep[o[pos]].edge == 1 && ep[o[pos + 1]].edge == 0
  {
    assert (pos + 1) % 2 == 0;
  }

  /** Splicing out p and x keeps every record's position, attributes and
      source, and the removal of both is explained. */
  lemma SpliceRecords(ep: seq<EdgePoint>, ep': seq<EdgePoint>, corner: seq<bool>, ep0: seq<EdgePoint>,
                      start: seq<EdgePoint>, p: nat, x: nat)
    requires Kept(start, ep) && Kept(ep0, ep) && Gone(ep0, ep, corner)
    requires Live(ep, p) && Live(ep, x) && p != x && ep[p].next == x
    requires Live(ep, ep[p].prev) && Live(ep, ep[x].next) && ep[p].prev != p && ep[p].prev != x && ep[x].next != p
    requires ep[p].edge == 1 && ep[x].edge == 0 && ep[p].source != ep[x].source
    requires 0 <= ep[p].source < |corner| && !corner[ep[p].source]
    requires 0 <= ep[x].source < |corner| && !corner[ep[x].source]
    requires ep' == Spliced(ep, p, x)
    ensures Kept(ep, ep') && Kept(start, ep') && Kept(ep0, ep') && Gone(ep0, ep', corner)
    ensures ep'[x].next == ep[x].next
  {
    SplicedKept(ep, p, x);
    KeptTrans(start, ep, ep');
    KeptTrans(ep0, ep, ep');
    GoneStep(ep0, ep, ep', corner, p, x);
  }

  /** One step of the walk along chain j, taken when the loop test
      passes: either move on to the next vertex, or splice out the current
      vertex and the next and jump. Either way `pointIndex` grows. */
  method WalkStep(a: array<EdgePoint>, corner: seq<bool>, j: nat, p: nat, pointIndex: int,
                  ghost pos: nat, ghost ep0: seq<EdgePoint>, ghost start: seq<EdgePoint>, ghost tag: seq<nat>,
                  ghost orders0: seq<seq<int>>, ghost orders: seq<seq<int>>, ghost rank: seq<nat>, ghost clock: nat)
    returns (q: nat, pointIndex': int,
             ghost pos': nat, ghost orders': seq<seq<int>>, ghost rank': seq<nat>, ghost clock': nat)
    requires Pass(a[..], corner, ep0, start, tag, orders0, j, orders, rank, clock)
    requires pos < |orders[j]| && p == orders[j][pos] && 0 <= p < a.Length && 0 <= pointIndex < a.Length
    requires a[p].next == orders[j][Succ(pos, |orders[j]|)] && a[p].next >= pointIndex
    requires Walking(a[..], orders[j], j, pos, pointIndex)
    modifies a
    ensures Pass(a[..], corner, ep0, start, tag, orders0, j, orders', rank', clock')
    ensures pos + 1 < |orders[j]| && pointIndex' == orders[j][pos + 1]
    ensures if Splices(ep0, corner, p, orders[j][pos + 1]) then
              SplicedPair(old(a[..]), a[..], p, orders[j][pos + 1])
              && orders' == orders[j := Without(Without(orders[j], pos), pos)]
            else a[..] == old(a[..]) && orders' == orders && pos' == pos + 1
    ensures pos' < |orders'[j]| && q == orders'[j][pos'] && 0 <= q < a.Length
    ensures pointIndex < pointIndex' < a.Length
    ensures a[q].next == orders'[j][Succ(pos', |orders'[j]|)]
    ensures Walking(a[..], orders'[j], j, pos', pointIndex')
    ensures Remaining(ep0, corner, orders'[j], pos', pointIndex') == Interleaved(ep0, corner, orders[j], pos)
  {
    ghost var o := orders[j];
    GuardStep(a[..], o, j, pos, pointIndex);
    pointIndex' := a[p].next;
    var x := a[p].next;
    assert Cycle(a[..], o) && CycleAt(a[..], o, pos + 1);
    SplicesNow(ep0, a[..], corner, p, x);
    if corner[a[p].source] || corner[a[x].source] || a[p].source == a[x].source {
      q := x;
      pos', orders', rank', clock' := pos + 1, orders, rank, clock;
      SkipRemaining(ep0, corner, o, j, pos);
    } else {
      assert pos % 2 == 1;
      q, pos', orders', rank', clock' :=
        SpliceAndJump(a, corner, j, p, x, pointIndex', pos, ep0, start, tag, orders0, orders, rank, clock);
    }
  }

  /** Whether a pair splices can be read off the current array: interleaving
      changes no center point. */
  lemma SplicesNow(ep0: seq<EdgePoint>, ep: seq<EdgePoint>, corner: seq<bool>, p: nat, x: nat)
    requires Kept(ep0, ep) && Sourced(ep, corner) && p < |ep| && x < |ep|
    ensures Splices(ep0, corner, p, x) <==>
              !(corner[ep[p].source] || corner[ep[x].source] || ep[p].source == ep[x].source)
  {
    assert KeptAt(ep0, ep, p) && KeptAt(ep0, ep, x);
  }

  /** One spoke's pass (the body of the stage's loop over spokes): walk the
      chain from its head j; when the current vertex and the next come from
      different center points and neither is a corner, splice both out and
      step three links on from the second; otherwise move to the next
      vertex. The walk ends once a forward link points below the index last
      compared against, that is, once it has wrapped around. */
  method InterleaveChain(a: array<EdgePoint>, corner: seq<bool>, j: nat, ghost ep0: seq<EdgePoint>,
                         ghost tag: seq<nat>, ghost orders0: seq<seq<int>>, ghost rank0: seq<nat>, ghost clock0: nat)
    returns (ghost orders: seq<seq<int>>, ghost rank: seq<nat>, ghost clock: nat)
    requires j < |orders0| && Chained(a[..], tag, orders0) && Stale(a[..], rank0, clock0)
    requires Sourced(a[..], corner)
    requires Headed(orders0[j], j) && Alternating(a[..], orders0[j], 2) && PairedFrom(a[..], orders0[j], 0)
    requires Kept(ep0, a[..]) && Gone(ep0, a[..], corner)
    modifies a
    ensures Pass(a[..], corner, ep0, old(a[..]), tag, orders0, j, orders, rank, clock)
    ensures orders[j] == Interleaved(ep0, corner, orders0[j], 0)
  {
    orders, rank, clock := orders0, rank0, clock0;
    var p := j;
    var pointIndex := 0;
    ghost var pos := 0;
    ghost var start := a[..];
    assert Cycle(a[..], orders[j]) && CycleAt(a[..], orders[j], 0);
    assert Kept(start, a[..]) by {
      forall k | 0 <= k < a.Length
        ensures KeptAt(start, a[..], k)
      {
      }
    }
    while a[p].next >= pointIndex
      invariant Pass(a[..], corner, ep0, start, tag, orders0, j, orders, rank, clock)
      invariant j < |orders| && pos < |orders[j]| && p == orders[j][pos] && 0 <= p < a.Length
      invariant 0 <= pointIndex < a.Length
      invariant a[p].next == orders[j][Succ(pos, |orders[j]|)]
      invariant Walking(a[..], orders[j], j, pos, pointIndex)
      invariant Remaining(ep0, corner, orders[j], pos, pointIndex) == Interleaved(ep0, corner, orders0[j], 0)
      decreases a.Length - pointIndex
    {
      p, pointIndex, pos, orders, rank, clock :=
        WalkStep(a, corner, j, p, pointIndex, pos, ep0, start, tag, orders0, orders, rank, clock);
      assert j < |orders|;
      assert pos < |orders[j]|;
      assert p == orders[j][pos];
      assert a[p].next == orders[j][Succ(pos, |orders[j]|)];
    }
  }

  /** The stage: one pass per spoke. Every chain keeps its head and stays
      an increasing alternating cycle, the live vertices stay doubly linked,
      and every vertex the stage removes belongs to a spliced pair of
      different, non-corner center points. */
  method InterleaveEdgeVertices(a: array<EdgePoint>, corner: seq<bool>, radial: nat, ghost tag: seq<nat>,
                                ghost orders0: seq<seq<int>>, ghost rank0: seq<nat>, ghost clock0: nat)
    returns (ghost orders: seq<seq<int>>, ghost rank: seq<nat>, ghost clock: nat)
    requires |orders0| == radial && Chained(a[..], tag, orders0) && Stale(a[..], rank0, clock0)
    requires Sourced(a[..], corner)
    requires forall j :: 0 <= j < radial ==>
               Headed(orders0[j], j) && Alternating(a[..], orders0[j], 2) && PairedFrom(a[..], orders0[j], 0)
    modifies a
    ensures Chained(a[..], tag, orders) && Stale(a[..], rank, clock) && |orders| == radial
    ensures forall j :: 0 <= j < radial ==> Headed(orders[j], j) && Alternating(a[..], orders[j], 2)
    ensures Kept(old(a[..]), a[..]) && Gone(old(a[..]), a[..], corner)
    ensures InterleavedUpTo(old(a[..]), corner, orders0, orders, radial)
    ensures Linked(a[..])
  {
    ghost var ep0 := a[..];
    orders, rank, clock := orders0, rank0, clock0;
    assert Kept(ep0, a[..]) by {
      forall k | 0 <= k < a.Length
        ensures KeptAt(ep0, a[..], k)
      {
      }
    }
    for j := 0 to radial
      invariant Chained(a[..], tag, orders) && Stale(a[..], rank, clock) && |orders| == radial
      invariant forall i :: 0 <= i < j ==> Headed(orders[i], i) && Alternating(a[..], orders[i], 2)
      invariant forall i :: j <= i < radial ==> orders[i] == orders0[i]
      invariant InterleavedUpTo(ep0, corner, orders0, orders, j)
      invariant Kept(ep0, a[..]) && Gone(ep0, a[..], corner) && Sourced(a[..], corner)
    {
      ghost var start := a[..];
      KeptShapes(ep0, a[..], orders0, j, radial);
      ghost var before := orders;
      orders, rank, clock := InterleaveChain(a, corner, j, ep0, tag, orders, rank, clock);
      ChainAdvance(ep0, corner, orders0, before, orders, j);
      KeptShapes(start, a[..], orders, 0, j);
      KeptShape(start, a[..], [], 0, corner);
    }
    ChainedLinked(a[..], tag, orders);
  }

  /** Walking chain j, which leaves every other chain alone, extends the
      walked prefix by one chain. */
  lemma ChainAdvance(ep0: seq<EdgePoint>, corner: seq<bool>, orders0: seq<seq<int>>,
                     before: seq<seq<int>>, after: seq<seq<int>>, j: nat)
    requires j < |orders0| && |before| == |orders0| && |after| == |orders0|
    requires forall i :: 0 <= i < |after| && i != j ==> after[i] == before[i]
    requires InterleavedUpTo(ep0, corner, orders0, before, j)
    requires forall i :: j <= i < |orders0| ==> before[i] == orders0[i]
    requires Headed(orders0[j], j) && after[j] == Interleaved(ep0, corner, before[j], 0)
    ensures InterleavedUpTo(ep0, corner, orders0, after, j + 1)
    ensures forall i :: j + 1 <= i < |orders0| ==> after[i] == orders0[i]
  {
  }

  /** Alternation and pairing of the chains from..to-1 carry over to a kept
      array. */
  lemma KeptShapes(ep: seq<EdgePoint>, ep': seq<EdgePoint>, orders: seq<seq<int>>, from: nat, to: nat)
    requires Kept(ep, ep') && from <= to <= |orders|
    ensures forall i :: from <= i < to && Alternating(ep, orders[i], 2) ==> Alternating(ep', orders[i], 2)
    ensures forall i :: from <= i < to && PairedFrom(ep, orders[i], 0) ==> PairedFrom(ep', orders[i], 0)
  {
    forall i | from <= i < to
      ensures Alternating(ep, orders[i], 2) ==> Alternating(ep', orders[i], 2)
      ensures PairedFrom(ep, orders[i], 0) ==> PairedFrom(ep', orders[i], 0)
    {
      KeptShape(ep, ep', orders[i], 0, []);
    }
  }
}
