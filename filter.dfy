/** Overlap filtering: flagged vertices are gathered into runs along their
    chain, the first of each run is kept (its attributes merged from the
    nearest unflagged neighbours on the same edge) and the rest are spliced
    out; a flagged vertex with no flagged neighbour on its edge is spliced
    out alone. Passes repeat until one removes nothing. */
module Filter {
  import opened Records
  import opened Chains
  import opened Interleave

  /** Whether vertex v ends a walk along edge e: it lies on that edge and is
      not flagged. */
  predicate Halts(ep: seq<EdgePoint>, v: int, e: int)
  {
    0 <= v < |ep| && ep[v].edge == e && !ep[v].filter
  }

  /** Number of forward steps from position `from` to position `to` in a
      cycle of the given length. */
  function Dist(from: nat, to: nat, len: nat): (d: nat)
    requires from < len && to < len
    ensures d < len && (d == 0 <==> from == to)
  {
    if from <= to then to - from else to + len - from
  }

  lemma DistSucc(from: nat, u: nat, len: nat)
    requires from < len && u < len && Dist(from, u, len) + 1 < len
    ensures Dist(from, Succ(u, len), len) == Dist(from, u, len) + 1
  {
  }

  /** A walk from `from` that has not yet reached `to` can take one more
      step without passing it. */
  lemma DistAdvance(from: nat, u: nat, to: nat, len: nat)
    requires from < len && u < len && to < len && u != to && Dist(from, u, len) <= Dist(from, to, len)
    ensures Dist(from, u, len) + 1 < len && Dist(from, Succ(u, len), len) == Dist(from, u, len) + 1 <= Dist(from, to, len)
  {
  }

  /** The same, walking backward towards `to`. */
  lemma DistRetreat(u: nat, to: nat, ua: nat, len: nat)
    requires to < len && u < len && ua < len && u != ua && Dist(u, to, len) <= Dist(ua, to, len)
    ensures Dist(u, to, len) + 1 < len && Dist(Pred(u, len), to, len) == Dist(u, to, len) + 1 <= Dist(ua, to, len)
  {
  }

  /** Every link of every vertex, live or removed, is an index of the
      array. */
  predicate Ranged(ep: seq<EdgePoint>)
  {
    forall k :: 0 <= k < |ep| ==> 0 <= ep[k].next < |ep| && 0 <= ep[k].prev < |ep|
  }

  lemma ChainedRanged(ep: seq<EdgePoint>, tag: seq<nat>, orders: seq<seq<int>>, rank: seq<nat>, clock: nat)
    requires Chained(ep, tag, orders) && Stale(ep, rank, clock)
    ensures Ranged(ep)
  {
    ChainedLinked(ep, tag, orders);
    forall k | 0 <= k < |ep|
      ensures 0 <= ep[k].next < |ep| && 0 <= ep[k].prev < |ep|
    {
      if ep[k].removed {
        assert StaleAt(ep, rank, clock, k);
      } else {
        assert LinkedAt(ep, k);
      }
    }
  }

  /** Walk forward along the chain from `from` to the first vertex that
      halts on edge e. The chain `order` holds such a vertex at `ua`, so the
      walk ends. */
  method SeekForward(a: array<EdgePoint>, from: int, e: int, ghost order: seq<int>, ghost u0: nat, ghost ua: nat)
    returns (r: int, ghost u: nat)
    requires Cycle(a[..], order) && u0 < |order| && ua < |order|
    requires from == order[u0] && Halts(a[..], order[ua], e)
    ensures u < |order| && r == order[u] && Halts(a[..], r, e)
    ensures forall v :: 0 <= v < |order| && Dist(u0, v, |order|) < Dist(u0, u, |order|) ==> !Halts(a[..], order[v], e)
  {
    ghost var len := |order|;
    r, u := from, u0;
    while r < a.Length
      invariant u < len && r == order[u] && CycleAt(a[..], order, u) && Dist(u0, u, len) <= Dist(u0, ua, len)
      invariant forall v :: 0 <= v < len && Dist(u0, v, len) < Dist(u0, u, len) ==> !Halts(a[..], order[v], e)
      decreases Dist(u0, ua, len) - Dist(u0, u, len)
    {
      if a[r].edge == e && !a[r].filter {
        break;
      }
      DistAdvance(u0, u, ua, len);
      assert CycleAt(a[..], order, Succ(u, len));
      r, u := a[r].next, Succ(u, len);
    }
  }

  /** Walk backward along the chain from `from` to the first vertex that
      halts on edge e. */
  method SeekBackward(a: array<EdgePoint>, from: int, e: int, ghost order: seq<int>, ghost u0: nat, ghost ua: nat)
    returns (r: int, ghost u: nat)
    requires Cycle(a[..], order) && u0 < |order| && ua < |order|
    requires from == order[u0] && Halts(a[..], order[ua], e)
    ensures u < |order| && r == order[u] && Halts(a[..], r, e)
    ensures forall v :: 0 <= v < |order| && Dist(v, u0, |order|) < Dist(u, u0, |order|) ==> !Halts(a[..], order[v], e)
  {
    ghost var len := |order|;
    r, u := from, u0;
    while r >= 0
      invariant u < len && r == order[u] && CycleAt(a[..], order, u) && Dist(u, u0, len) <= Dist(ua, u0, len)
      invariant forall v :: 0 <= v < len && Dist(v, u0, len) < Dist(u, u0, len) ==> !Halts(a[..], order[v], e)
      decreases Dist(ua, u0, len) - Dist(u, u0, len)
    {
      if a[r].edge == e && !a[r].filter {
        break;
      }
      DistRetreat(u, u0, ua, len);
      assert CycleAt(a[..], order, Pred(u, len));
      r, u := a[r].prev, Pred(u, len);
    }
  }

  predicate OnEdge(ep: seq<EdgePoint>, v: int, e: int)
  {
    0 <= v < |ep| && ep[v].edge == e
  }

  predicate Flagged(ep: seq<EdgePoint>, v: int)
  {
    0 <= v < |ep| && ep[v].filter
  }

  /** `before`, at position ub of chain `order`, is the nearest vertex that
      halts on edge e walking backward from the position before t. */
  ghost predicate NearestBefore(ep: seq<EdgePoint>, order: seq<int>, t: nat, e: int, before: int, ub: nat)
  {
    && t < |order| && ub < |order| && before == order[ub] && Halts(ep, before, e)
    && forall v :: 0 <= v < |order| && Dist(v, Pred(t, |order|), |order|) < Dist(ub, Pred(t, |order|), |order|) ==>
         !Halts(ep, order[v], e)
  }

  /** `after`, at position ua of chain `order`, is the nearest vertex that
      halts on edge e walking forward from the position after lt. */
  ghost predicate NearestAfter(ep: seq<EdgePoint>, order: seq<int>, lt: nat, e: int, after: int, ua: nat)
  {
    && lt < |order| && ua < |order| && after == order[ua] && Halts(ep, after, e)
    && forall v :: 0 <= v < |order| && Dist(Succ(lt, |order|), v, |order|) < Dist(Succ(lt, |order|), ua, |order|) ==>
         !Halts(ep, order[v], e)
  }

  /** `group` is the run that starts at position t of `order` on edge e: the
      vertex at t, then every vertex on edge e met walking forward before
      position s, which holds the first vertex on edge e that is not
      flagged. All of them are flagged; `at` gives their positions, in
      walking order. */
  ghost predicate Run(ep: seq<EdgePoint>, order: seq<int>, t: nat, e: int, s: nat, group: seq<int>, at: seq<nat>)
  {
    && t < |order| && s < |order| && t != s && Halts(ep, order[s], e)
    && |at| == |group| && 1 <= |at| && at[0] == t
    && (forall i :: 0 <= i < |at| ==> at[i] < |order| && group[i] == order[at[i]] && Dist(t, at[i], |order|) < Dist(t, s, |order|))
    && (forall i :: 1 <= i < |at| ==> OnEdge(ep, group[i], e) && Flagged(ep, group[i]))
    && (forall i, i' :: 0 <= i < i' < |at| ==> Dist(t, at[i], |order|) < Dist(t, at[i'], |order|))
    && (forall v :: 0 <= v < |order| && 0 < Dist(t, v, |order|) < Dist(t, s, |order|) && OnEdge(ep, order[v], e) ==>
          Flagged(ep, order[v]) && v in at)
  }

  /** The state of the run walk at position u: what has been gathered so
      far satisfies Run for every position strictly before u. */
  ghost predicate Gathered(ep: seq<EdgePoint>, order: seq<int>, t: nat, e: int, u: nat, group: seq<int>, at: seq<nat>)
  {
    && t < |order| && u < |order| && 0 < Dist(t, u, |order|)
    && |at| == |group| && 1 <= |at| && at[0] == t
    && (forall i :: 0 <= i < |at| ==> at[i] < |order| && group[i] == order[at[i]] && Dist(t, at[i], |order|) < Dist(t, u, |order|))
    && (forall i :: 1 <= i < |at| ==> OnEdge(ep, group[i], e) && Flagged(ep, group[i]))
    && (forall i, i' :: 0 <= i < i' < |at| ==> Dist(t, at[i], |order|) < Dist(t, at[i'], |order|))
    && (forall v :: 0 <= v < |order| && 0 < Dist(t, v, |order|) < Dist(t, u, |order|) && OnEdge(ep, order[v], e) ==>
          Flagged(ep, order[v]) && v in at)
  }

  lemma GatherStart(ep: seq<EdgePoint>, order: seq<int>, t: nat, e: int)
    requires t < |order| && 2 <= |order|
    ensures Gathered(ep, order, t, e, Succ(t, |order|), [order[t]], [t])
  {
    DistSucc(t, t, |order|);
  }

  lemma GatherSkip(ep: seq<EdgePoint>, order: seq<int>, t: nat, e: int, u: nat, group: seq<int>, at: seq<nat>)
    requires Gathered(ep, order, t, e, u, group, at) && Dist(t, u, |order|) + 1 < |order|
    requires !OnEdge(ep, order[u], e)
    ensures Gathered(ep, order, t, e, Succ(u, |order|), group, at)
  {
    DistSucc(t, u, |order|);
  }

  lemma GatherPush(ep: seq<EdgePoint>, order: seq<int>, t: nat, e: int, u: nat, group: seq<int>, at: seq<nat>)
    requires Gathered(ep, order, t, e, u, group, at) && Dist(t, u, |order|) + 1 < |order|
    requires OnEdge(ep, order[u], e) && Flagged(ep, order[u])
    ensures Gathered(ep, order, t, e, Succ(u, |order|), group + [order[u]], at + [u])
  {
    DistSucc(t, u, |order|);
  }

  lemma GatherStop(ep: seq<EdgePoint>, order: seq<int>, t: nat, e: int, u: nat, group: seq<int>, at: seq<nat>)
    requires Gathered(ep, order, t, e, u, group, at) && Halts(ep, order[u], e)
    ensures Run(ep, order, t, e, u, group, at)
  {
  }

  /** Gather the run that starts at the flagged vertex k, walking forward
      until a vertex on k's edge that is not flagged; the chain holds one
      such vertex at `ta`, so the walk ends. */
  method CollectRun(a: array<EdgePoint>, k: nat, ghost order: seq<int>, ghost t: nat, ghost ta: nat)
    returns (group: seq<int>, ghost at: seq<nat>, ghost s: nat)
    requires Cycle(a[..], order) && t < |order| && ta < |order| && order[t] == k
    requires k < a.Length && a[k].filter && Halts(a[..], order[ta], a[k].edge)
    ensures Run(a[..], order, t, a[k].edge, s, group, at)
  {
    ghost var len := |order|;
    assert CycleAt(a[..], order, t);
    group, at := [k], [t];
    var nextIdx := a[k].next;
    ghost var u: nat := Succ(t, len);
    GatherStart(a[..], order, t, a[k].edge);
    while nextIdx < a.Length
      invariant u < len && nextIdx == order[u] && CycleAt(a[..], order, u)
      invariant Gathered(a[..], order, t, a[k].edge, u, group, at) && Dist(t, u, len) <= Dist(t, ta, len)
      decreases Dist(t, ta, len) - Dist(t, u, len)
    {
      if a[nextIdx].edge == a[k].edge {
        if a[nextIdx].filter {
          DistAdvance(t, u, ta, len);
          GatherPush(a[..], order, t, a[k].edge, u, group, at);
          group, at := group + [nextIdx], at + [u];
        } else {
          GatherStop(a[..], order, t, a[k].edge, u, group, at);
          s := u;
          break;
        }
      } else {
        DistAdvance(t, u, ta, len);
        GatherSkip(a[..], order, t, a[k].edge, u, group, at);
      }
      nextIdx, u := a[nextIdx].next, Succ(u, len);
    }
  }

  /** Two runs of the walk gather distinct vertices: positions are visited
      in increasing distance from the start. */
  lemma RunDistinct(ep: seq<EdgePoint>, order: seq<int>, t: nat, e: int, s: nat, group: seq<int>, at: seq<nat>)
    requires Cycle(ep, order) && Run(ep, order, t, e, s, group, at)
    ensures forall i, i' :: 0 <= i < i' < |group| ==> group[i] != group[i']
  {
    forall i, i' | 0 <= i < i' < |group|
      ensures group[i] != group[i']
    {
      assert Dist(t, at[i], |order|) < Dist(t, at[i'], |order|);
    }
  }

  /** Number of live vertices. */
  function LiveCount(ep: seq<EdgePoint>): (c: nat)
    ensures c <= |ep|
  {
    if ep == [] then 0 else LiveCount(ep[..|ep| - 1]) + (if ep[|ep| - 1].removed then 0 else 1)
  }

  lemma {:induction false} LiveCountSame(ep: seq<EdgePoint>, ep': seq<EdgePoint>)
    requires |ep'| == |ep| && forall i :: 0 <= i < |ep| ==> ep'[i].removed == ep[i].removed
    ensures LiveCount(ep') == LiveCount(ep)
  {
    if ep != [] {
      LiveCountSame(ep[..|ep| - 1], ep'[..|ep| - 1]);
    }
  }

  /** Marking one live vertex removed, and changing no other removal mark,
      lowers the live count by one. */
  lemma {:induction false} LiveCountDrop(ep: seq<EdgePoint>, ep': seq<EdgePoint>, g: nat)
    requires |ep'| == |ep| && g < |ep| && !ep[g].removed && ep'[g].removed
    requires forall i :: 0 <= i < |ep| && i != g ==> ep'[i].removed == ep[i].removed
    ensures LiveCount(ep') == LiveCount(ep) - 1
  {
    var n := |ep| - 1;
    if g == n {
      LiveCountSame(ep[..n], ep'[..n]);
    } else {
      LiveCountDrop(ep[..n], ep'[..n], g);
    }
  }

  /** `ep` is `ep0` with the vertices of `gone` spliced out and unflagged,
      and nothing else changed but links. */
  ghost predicate Thinned(ep0: seq<EdgePoint>, ep: seq<EdgePoint>, gone: set<int>)
  {
    |ep| == |ep0| && forall i :: 0 <= i < |ep| ==> ThinnedAt(ep0, ep, gone, i)
  }

  ghost predicate ThinnedAt(ep0: seq<EdgePoint>, ep: seq<EdgePoint>, gone: set<int>, i: nat)
    requires |ep| == |ep0| && i < |ep|
  {
    && ep[i].removed == (ep0[i].removed || i in gone)
    && ep[i].filter == (ep0[i].filter && i !in gone)
    && ep[i].attrs == ep0[i].attrs && ep[i].source == ep0[i].source && ep[i].edge == ep0[i].edge
    && ep[i].nextConnected == ep0[i].nextConnected && ep[i].prevConnected == ep0[i].prevConnected
    && (ep0[i].removed ==> ep[i] == ep0[i])
  }

  lemma ThinnedRemove(ep0: seq<EdgePoint>, ep: seq<EdgePoint>, gone: set<int>, g: nat)
    requires Thinned(ep0, ep, gone) && Live(ep, g) && LinkedAt(ep, g)
    ensures Thinned(ep0, Removed(ep, g, false), gone + {g})
  {
    var r := Removed(ep, g, false);
    forall i | 0 <= i < |ep|
      ensures ThinnedAt(ep0, r, gone + {g}, i)
    {
      assert ThinnedAt(ep0, ep, gone, i);
    }
  }

  /** Splicing out a live vertex g that shares its chain with another live
      vertex m keeps the chains and removal ranks, and lowers the live count
      by one. */
  lemma RemoveStep(ep: seq<EdgePoint>, tag: seq<nat>, orders: seq<seq<int>>, rank: seq<nat>, clock: nat, g: nat, m: nat)
    returns (orders': seq<seq<int>>, rank': seq<nat>)
    requires Chained(ep, tag, orders) && Stale(ep, rank, clock)
    requires Live(ep, g) && Live(ep, m) && g != m && tag[g] == tag[m]
    ensures LinkedAt(ep, g) && |orders'| == |orders|
    ensures Chained(Removed(ep, g, false), tag, orders') && Stale(Removed(ep, g, false), rank', clock + 1)
    ensures LiveCount(Removed(ep, g, false)) == LiveCount(ep) - 1
  {
    ChainedLinked(ep, tag, orders);
    var j := tag[g];
    var t := Position(ep, tag, orders, g);
    var tm := Position(ep, tag, orders, m);
    assert t != tm;
    assert 2 <= |orders[j]|;
    ChainedRemoved(ep, tag, orders, rank, clock, j, t, false);
    orders', rank' := orders[j := Without(orders[j], t)], rank[g := clock];
    LiveCountRemoved(ep, g);
  }

  /** Where a live vertex sits in its chain. */
  lemma Position(ep: seq<EdgePoint>, tag: seq<nat>, orders: seq<seq<int>>, g: nat) returns (t: nat)
    requires Chained(ep, tag, orders) && Live(ep, g)
    ensures tag[g] < |orders| && t < |orders[tag[g]]| && orders[tag[g]][t] == g
  {
    assert g in orders[tag[g]];
    t :| 0 <= t < |orders[tag[g]]| && orders[tag[g]][t] == g;
  }

  lemma {:induction false} LiveCountRemoved(ep: seq<EdgePoint>, g: nat)
    requires Live(ep, g) && 0 <= ep[g].prev < |ep| && 0 <= ep[g].next < |ep|
    ensures LiveCount(Removed(ep, g, false)) == LiveCount(ep) - 1
  {
    var r := Removed(ep, g, false);
    forall i | 0 <= i < |ep| && i != g
      ensures r[i].removed == ep[i].removed
    {
    }
    LiveCountDrop(ep, r, g);
  }

  /** The kept vertex k with its attributes replaced and its flag cleared. */
  function Merged(ep: seq<EdgePoint>, k: nat, attrs: Attributes): (r: seq<EdgePoint>)
    requires k < |ep|
    ensures |r| == |ep| && r[k].attrs == attrs && !r[k].filter
  {
    ep[k := ep[k].(attrs := attrs, filter := false)]
  }

  lemma RangedRemoved(ep: seq<EdgePoint>, g: nat)
    requires Ranged(ep) && g < |ep|
    ensures Ranged(Removed(ep, g, false))
  {
  }

  /** The vertices of `gs` spliced out one after another, in order. */
  function RemoveAll(ep: seq<EdgePoint>, gs: seq<int>): (r: seq<EdgePoint>)
    requires Ranged(ep) && forall i :: 0 <= i < |gs| ==> 0 <= gs[i] < |ep|
    ensures |r| == |ep| && Ranged(r)
    decreases |gs|
  {
    if gs == [] then ep
    else
      var r := RemoveAll(ep, gs[..|gs| - 1]);
      RangedRemoved(r, gs[|gs| - 1]);
      Removed(r, gs[|gs| - 1], false)
  }

  /** One group step leaves no new flags, removes only vertices that were
      flagged, keeps every source, edge and connection flag, and leaves
      removed vertices untouched. */
  ghost predicate Settled(ep0: seq<EdgePoint>, ep: seq<EdgePoint>)
  {
    |ep| == |ep0| && forall i :: 0 <= i < |ep| ==> SettledAt(ep0, ep, i)
  }

  ghost predicate SettledAt(ep0: seq<EdgePoint>, ep: seq<EdgePoint>, i: nat)
    requires |ep| == |ep0| && i < |ep|
  {
    && (ep[i].filter ==> ep0[i].filter)
    && (ep[i].removed ==> ep0[i].removed || ep0[i].filter)
    && ep[i].source == ep0[i].source && ep[i].edge == ep0[i].edge
    && ep[i].nextConnected == ep0[i].nextConnected && ep[i].prevConnected == ep0[i].prevConnected
    && (ep0[i].removed ==> ep[i] == ep0[i])
  }

  lemma SettledTrans(ep0: seq<EdgePoint>, ep1: seq<EdgePoint>, ep2: seq<EdgePoint>)
    requires Settled(ep0, ep1) && Settled(ep1, ep2)
    ensures Settled(ep0, ep2)
  {
    forall i | 0 <= i < |ep0|
      ensures SettledAt(ep0, ep2, i)
    {
      assert SettledAt(ep0, ep1, i) && SettledAt(ep1, ep2, i);
    }
  }

  /** Removing flagged vertices from the array with k merged settles it, and
      leaves k live and unflagged. */
  lemma MergedSettled(ep0: seq<EdgePoint>, k: nat, attrs: Attributes, ep: seq<EdgePoint>, gone: set<int>)
    requires k < |ep0| && !ep0[k].removed
    requires Thinned(Merged(ep0, k, attrs), ep, gone)
    requires forall g :: g in gone ==> Flagged(Merged(ep0, k, attrs), g)
    ensures Settled(ep0, ep) && Live(ep, k) && !ep[k].filter
  {
    var base := Merged(ep0, k, attrs);
    forall i | 0 <= i < |ep0|
      ensures SettledAt(ep0, ep, i)
    {
      assert ThinnedAt(base, ep, gone, i);
    }
    assert ThinnedAt(base, ep, gone, k);
  }

  lemma AloneSettled(ep0: seq<EdgePoint>, k: nat, ep: seq<EdgePoint>)
    requires k < |ep0| && ep0[k].filter
    requires Thinned(ep0, ep, {k})
    ensures Settled(ep0, ep) && ep[k].removed && !ep[k].filter
  {
    forall i | 0 <= i < |ep0|
      ensures SettledAt(ep0, ep, i)
    {
      assert ThinnedAt(ep0, ep, {k}, i);
    }
    assert ThinnedAt(ep0, ep, {k}, k);
  }

  /** The links and removal marks of `ep` and `ep2` agree. */
  ghost predicate Reflagged(ep: seq<EdgePoint>, ep2: seq<EdgePoint>)
  {
    |ep2| == |ep| &&
    forall i :: 0 <= i < |ep| ==> ep2[i].next == ep[i].next && ep2[i].prev == ep[i].prev && ep2[i].removed == ep[i].removed
  }

  /** Changing anything but links and removal marks keeps the chains. */
  lemma ReflaggedChains(ep: seq<EdgePoint>, ep2: seq<EdgePoint>, tag: seq<nat>, orders: seq<seq<int>>, rank: seq<nat>, clock: nat)
    requires Chained(ep, tag, orders) && Stale(ep, rank, clock) && Reflagged(ep, ep2)
    ensures Chained(ep2, tag, orders) && Stale(ep2, rank, clock)
  {
    forall j | 0 <= j < |orders|
      ensures Cycle(ep2, orders[j])
    {
      forall t | 0 <= t < |orders[j]|
        ensures CycleAt(ep2, orders[j], t)
      {
        assert CycleAt(ep, orders[j], t);
      }
    }
    forall k | 0 <= k < |ep| && ep2[k].removed
      ensures StaleAt(ep2, rank, clock, k)
    {
      assert StaleAt(ep, rank, clock, k);
    }
  }

  /** `rest` can be spliced out of `ep0` one by one: its vertices are
      distinct, live and flagged, and share their chain with the live,
      unflagged vertex m, which therefore stays behind. */
  ghost predicate Removable(ep0: seq<EdgePoint>, rest: seq<int>, m: nat, tag: seq<nat>)
  {
    && Live(ep0, m) && !ep0[m].filter && m < |tag| && |tag| == |ep0|
    && (forall i :: 0 <= i < |rest| ==> 0 <= rest[i] < |ep0|)
    && (forall i, i' :: 0 <= i < i' < |rest| ==> rest[i] != rest[i'])
    && (forall i :: 0 <= i < |rest| ==> Live(ep0, rest[i]) && ep0[rest[i]].filter && tag[rest[i]] == tag[m])
  }

  /** The state after the first i vertices of `rest` are spliced out. */
  ghost predicate Thinning(ep0: seq<EdgePoint>, ep: seq<EdgePoint>, rest: seq<int>, i: nat, gone: set<int>,
                           tag: seq<nat>, orders: seq<seq<int>>, rank: seq<nat>, clock: nat)
  {
    && Chained(ep, tag, orders) && Stale(ep, rank, clock)
    && Thinned(ep0, ep, gone) && (forall g :: g in gone ==> Flagged(ep0, g))
    && i <= |rest| && (forall i' :: i <= i' < |rest| ==> rest[i'] !in gone)
    && Ranged(ep0) && (forall i' :: 0 <= i' < |rest| ==> 0 <= rest[i'] < |ep0|)
    && ep == RemoveAll(ep0, rest[..i])
    && LiveCount(ep) == LiveCount(ep0) - i
  }

  /** Splice out every vertex of `rest`, in order, as the source does with
      a group once its first vertex has been kept. */
  method RemoveRest(a: array<EdgePoint>, rest: seq<int>, ghost m: nat,
                    ghost tag: seq<nat>, ghost orders: seq<seq<int>>, ghost rank: seq<nat>, ghost clock: nat)
    returns (ghost gone: set<int>, ghost orders': seq<seq<int>>, ghost rank': seq<nat>, ghost clock': nat)
    modifies a
    requires Chained(a[..], tag, orders) && Stale(a[..], rank, clock)
    requires Removable(a[..], rest, m, tag)
    ensures Chained(a[..], tag, orders') && Stale(a[..], rank', clock') && |orders'| == |orders|
    ensures Thinned(old(a[..]), a[..], gone) && forall g :: g in gone ==> Flagged(old(a[..]), g)
    ensures Ranged(old(a[..])) && a[..] == RemoveAll(old(a[..]), rest)
    ensures LiveCount(a[..]) == LiveCount(old(a[..])) - |rest|
  {
    ghost var ep0 := a[..];
    ChainedRanged(ep0, tag, orders, rank, clock);
    gone, orders', rank', clock' := {}, orders, rank, clock;
    for i := 0 to |rest|
      invariant Thinning(ep0, a[..], rest, i, gone, tag, orders', rank', clock') && |orders'| == |orders|
    {
      var g := rest[i];
      ghost var ep := a[..];
      ghost var o2, r2 := RemoveOne(ep0, ep, rest, i, gone, tag, orders', rank', clock', m);
      RemovePoint(a, g);
      a[g] := a[g].(removed := true, filter := false);
      assert a[..] == Removed(ep, g, false);
      orders', rank', clock' := o2, r2, clock' + 1;
      gone := gone + {g};
    }
    assert rest[..|rest|] == rest;
  }

  /** One step of RemoveRest on the ghost state. */
  lemma RemoveOne(ep0: seq<EdgePoint>, ep: seq<EdgePoint>, rest: seq<int>, i: nat, gone: set<int>,
                  tag: seq<nat>, orders: seq<seq<int>>, rank: seq<nat>, clock: nat, m: nat)
    returns (orders': seq<seq<int>>, rank': seq<nat>)
    requires Removable(ep0, rest, m, tag) && Thinning(ep0, ep, rest, i, gone, tag, orders, rank, clock) && i < |rest|
    ensures 0 <= ep[rest[i]].prev < |ep| && 0 <= ep[rest[i]].next < |ep| && |orders'| == |orders|
    ensures Thinning(ep0, Removed(ep, rest[i], false), rest, i + 1, gone + {rest[i]}, tag, orders', rank', clock + 1)
  {
    var g := rest[i];
    assert ThinnedAt(ep0, ep, gone, g) && ThinnedAt(ep0, ep, gone, m);
    orders', rank' := RemoveStep(ep, tag, orders, rank, clock, g, m);
    ThinnedRemove(ep0, ep, gone, g);
    RemoveAllNext(ep0, rest, i);
    RestGone(ep0, rest, i, gone, m, tag);
  }

  lemma {:induction false} RemoveAllNext(ep0: seq<EdgePoint>, rest: seq<int>, i: nat)
    requires Ranged(ep0) && (forall i' :: 0 <= i' < |rest| ==> 0 <= rest[i'] < |ep0|) && i < |rest|
    ensures RemoveAll(ep0, rest[..i + 1]) == Removed(RemoveAll(ep0, rest[..i]), rest[i], false)
  {
    assert rest[..i + 1][..i] == rest[..i];
  }

  /** The vertex spliced out at step i is flagged, and the vertices still to
      come are not among those gone. */
  lemma RestGone(ep0: seq<EdgePoint>, rest: seq<int>, i: nat, gone: set<int>, m: nat, tag: seq<nat>)
    requires Removable(ep0, rest, m, tag) && i < |rest| && forall i' :: i <= i' < |rest| ==> rest[i'] !in gone
    ensures Flagged(ep0, rest[i]) && forall i' :: i + 1 <= i' < |rest| ==> rest[i'] !in gone + {rest[i]}
  {
    forall i' | i + 1 <= i' < |rest|
      ensures rest[i'] !in gone + {rest[i]}
    {
    }
  }

  /** Vertex m is live, belongs to chain j, lies on edge e and is not
      flagged. */
  ghost predicate AnchorAt(ep: seq<EdgePoint>, tag: seq<nat>, j: nat, e: int, m: int)
  {
    Live(ep, m) && m < |tag| && tag[m] == j && Halts(ep, m, e)
  }

  /** Every chain j holds an unflagged vertex on each edge a live vertex
      can lie on: vertex j on edge 0 and, with two edges, vertex j + radial
      on edge 1. */
  ghost predicate Anchored(ep: seq<EdgePoint>, tag: seq<nat>, radial: nat, edges: nat)
  {
    && (edges == 1 || edges == 2)
    && (forall j :: 0 <= j < radial ==> AnchorAt(ep, tag, j, 0, j) && (edges == 2 ==> AnchorAt(ep, tag, j, 1, j + radial)))
    && (forall k :: 0 <= k < |ep| && !ep[k].removed ==> 0 <= ep[k].edge < edges)
  }

  lemma AnchoredSettled(ep0: seq<EdgePoint>, ep: seq<EdgePoint>, tag: seq<nat>, radial: nat, edges: nat)
    requires Anchored(ep0, tag, radial, edges) && Settled(ep0, ep)
    ensures Anchored(ep, tag, radial, edges)
  {
    forall j | 0 <= j < radial
      ensures AnchorAt(ep, tag, j, 0, j) && (edges == 2 ==> AnchorAt(ep, tag, j, 1, j + radial))
    {
      assert AnchorAt(ep0, tag, j, 0, j) && (edges == 2 ==> AnchorAt(ep0, tag, j, 1, j + radial));
      assert SettledAt(ep0, ep, j);
      if edges == 2 {
        assert SettledAt(ep0, ep, j + radial);
      }
    }
    forall k | 0 <= k < |ep| && !ep[k].removed
      ensures 0 <= ep[k].edge < edges
    {
      assert SettledAt(ep0, ep, k);
    }
  }

  /** The anchor of the flagged vertex k's chain on k's edge, and the
      positions of both in that chain. */
  lemma FindAnchor(ep: seq<EdgePoint>, tag: seq<nat>, orders: seq<seq<int>>, radial: nat, edges: nat, k: nat)
    returns (m: nat, t: nat, ta: nat)
    requires Chained(ep, tag, orders) && |orders| == radial && Anchored(ep, tag, radial, edges)
    requires Live(ep, k) && ep[k].filter
    ensures tag[k] < |orders| && AnchorAt(ep, tag, tag[k], ep[k].edge, m) && m != k
    ensures t < |orders[tag[k]]| && orders[tag[k]][t] == k && ta < |orders[tag[k]]| && orders[tag[k]][ta] == m
  {
    var j := tag[k];
    t := Position(ep, tag, orders, k);
    assert j < radial && 0 <= ep[k].edge < edges;
    assert AnchorAt(ep, tag, j, 0, j) && (edges == 2 ==> AnchorAt(ep, tag, j, 1, j + radial));
    m := if ep[k].edge == 0 then j else j + radial;
    ta := Position(ep, tag, orders, m);
  }

  /** The vertices of a run after its first can be spliced out of the
      array with the first merged. */
  lemma RunRemovable(ep0: seq<EdgePoint>, tag: seq<nat>, orders: seq<seq<int>>, o: seq<int>, t: nat, e: int, s: nat,
                     group: seq<int>, at: seq<nat>, k: nat, attrs: Attributes, m: nat)
    requires Chained(ep0, tag, orders) && k < |ep0| && tag[k] < |orders| && o == orders[tag[k]]
    requires Run(ep0, o, t, e, s, group, at) && group[0] == k && AnchorAt(ep0, tag, tag[k], e, m)
    requires forall i, i' :: 0 <= i < i' < |group| ==> group[i] != group[i']
    ensures Removable(Merged(ep0, k, attrs), group[1..], m, tag)
  {
    var base := Merged(ep0, k, attrs);
    var rest := group[1..];
    forall i | 0 <= i < |rest|
      ensures 0 <= rest[i] < |base| && Live(base, rest[i]) && base[rest[i]].filter && tag[rest[i]] == tag[m]
    {
      assert rest[i] == group[i + 1] == o[at[i + 1]];
      assert CycleAt(ep0, o, at[i + 1]);
      assert Flagged(ep0, group[i + 1]);
    }
    forall i, i' | 0 <= i < i' < |rest|
      ensures rest[i] != rest[i']
    {
      assert rest[i] == group[i + 1] && rest[i'] == group[i' + 1];
    }
  }

  /** The grouping step for a run of more than one vertex. */
  method MergeRun(a: array<EdgePoint>, k: nat, merge: (Attributes, Attributes) -> Attributes, group: seq<int>,
                  ghost o: seq<int>, ghost t: nat, ghost s: nat, ghost at: seq<nat>, ghost m: nat, ghost ta: nat,
                  ghost tag: seq<nat>, ghost orders: seq<seq<int>>, ghost rank: seq<nat>, ghost clock: nat)
    returns (before: int, after: int, ghost ub: nat, ghost ua: nat,
             ghost orders': seq<seq<int>>, ghost rank': seq<nat>, ghost clock': nat)
    modifies a
    requires Chained(a[..], tag, orders) && Stale(a[..], rank, clock)
    requires k < a.Length && !a[k].removed && tag[k] < |orders| && o == orders[tag[k]]
    requires Run(a[..], o, t, a[k].edge, s, group, at) && group[0] == k && 1 < |group|
    requires forall i, i' :: 0 <= i < i' < |group| ==> group[i] != group[i']
    requires AnchorAt(a[..], tag, tag[k], a[k].edge, m) && ta < |o| && o[ta] == m
    ensures Chained(a[..], tag, orders') && Stale(a[..], rank', clock') && |orders'| == |orders|
    ensures Settled(old(a[..]), a[..]) && Live(a[..], k) && !a[k].filter
    ensures LiveCount(a[..]) < LiveCount(old(a[..]))
    ensures Grouped(old(a[..]), a[..], k, o, group, at, before, after, ub, ua, merge)
  {
    ghost var ep0 := a[..];
    ChainedRanged(ep0, tag, orders, rank, clock);
    var e := a[k].edge;
    assert Cycle(ep0, o);
    before, after, ub, ua := MergeFirst(a, k, group[|group| - 1], merge, o, t, at[|at| - 1], ta);
    ghost var attrs := merge(ep0[before].attrs, ep0[after].attrs);
    ghost var base := a[..];
    MergedReflagged(ep0, k, attrs);
    ReflaggedChains(ep0, base, tag, orders, rank, clock);
    RunRemovable(ep0, tag, orders, o, t, e, s, group, at, k, attrs, m);
    ghost var gone;
    gone, orders', rank', clock' := RemoveRest(a, group[1..], m, tag, orders, rank, clock);
    MergedSettled(ep0, k, attrs, a[..], gone);
    LiveCountSame(ep0, base);
  }

  /** The merge of a run into its first vertex k, whose last vertex is
      `last`: the nearest unflagged vertices on k's edge before and after
      the run give k their merged attributes, and k's flag is cleared. */
  method MergeFirst(a: array<EdgePoint>, k: nat, last: int, merge: (Attributes, Attributes) -> Attributes,
                    ghost o: seq<int>, ghost t: nat, ghost lt: nat, ghost ta: nat)
    returns (before: int, after: int, ghost ub: nat, ghost ua: nat)
    modifies a
    requires Cycle(a[..], o) && t < |o| && lt < |o| && ta < |o| && o[t] == k && o[lt] == last
    requires k < a.Length && Halts(a[..], o[ta], a[k].edge)
    ensures NearestBefore(old(a[..]), o, t, old(a[k].edge), before, ub)
    ensures NearestAfter(old(a[..]), o, lt, old(a[k].edge), after, ua)
    ensures a[..] == Merged(old(a[..]), k, merge(old(a[before].attrs), old(a[after].attrs)))
  {
    var e := a[k].edge;
    assert CycleAt(a[..], o, t) && CycleAt(a[..], o, lt);
    before, ub := SeekBackward(a, a[k].prev, e, o, Pred(t, |o|), ta);
    after, ua := SeekForward(a, a[last].next, e, o, Succ(lt, |o|), ta);
    if before >= 0 && after < a.Length && a[before].edge == e && a[after].edge == e {
      a[k] := a[k].(attrs := merge(a[before].attrs, a[after].attrs));
    }
    a[k] := a[k].(filter := false);
  }

  lemma MergedReflagged(ep: seq<EdgePoint>, k: nat, attrs: Attributes)
    requires k < |ep|
    ensures Reflagged(ep, Merged(ep, k, attrs))
  {
  }

  /** The grouping step for a run of k alone, on the ghost state. */
  lemma AloneStep(ep0: seq<EdgePoint>, tag: seq<nat>, orders: seq<seq<int>>, rank: seq<nat>, clock: nat, k: nat, m: nat)
    returns (orders': seq<seq<int>>, rank': seq<nat>)
    requires Chained(ep0, tag, orders) && Stale(ep0, rank, clock)
    requires Live(ep0, k) && ep0[k].filter && Live(ep0, m) && m != k && tag[k] == tag[m]
    ensures 0 <= ep0[k].prev < |ep0| && 0 <= ep0[k].next < |ep0| && |orders'| == |orders|
    ensures Chained(Removed(ep0, k, false), tag, orders') && Stale(Removed(ep0, k, false), rank', clock + 1)
    ensures Settled(ep0, Removed(ep0, k, false)) && LiveCount(Removed(ep0, k, false)) == LiveCount(ep0) - 1
  {
    orders', rank' := RemoveStep(ep0, tag, orders, rank, clock, k, m);
    ThinnedRemove(ep0, ep0, {}, k);
    assert {} + {k} == {k};
    AloneSettled(ep0, k, Removed(ep0, k, false));
  }

  /** What a group step at k leaves: a run of k alone is spliced out; a
      longer run, at positions `at` of chain `order`, has its first vertex k
      merged from the nearest unflagged vertices `before` (position ub) and
      `after` (position ua) on k's edge around the run, and the rest spliced
      out. */
  ghost predicate Grouped(ep0: seq<EdgePoint>, ep: seq<EdgePoint>, k: nat, order: seq<int>, group: seq<int>, at: seq<nat>,
                          before: int, after: int, ub: nat, ua: nat, merge: (Attributes, Attributes) -> Attributes)
  {
    && k < |ep0| && Ranged(ep0) && 1 <= |group| && group[0] == k && |at| == |group|
    && (|group| == 1 ==> ep == Removed(ep0, k, false))
    && (|group| > 1 ==>
          && NearestBefore(ep0, order, at[0], ep0[k].edge, before, ub)
          && NearestAfter(ep0, order, at[|at| - 1], ep0[k].edge, after, ua)
          && Ranged(Merged(ep0, k, merge(ep0[before].attrs, ep0[after].attrs)))
          && (forall i :: 1 <= i < |group| ==> 0 <= group[i] < |ep0|)
          && ep == RemoveAll(Merged(ep0, k, merge(ep0[before].attrs, ep0[after].attrs)), group[1..]))
  }

  /** One step of the grouping pass at the flagged live vertex k: gather
      its run; if the run holds more than k, merge the attributes of the
      nearest unflagged vertices on k's edge before and after the run into
      k, clear k's flag and splice out the rest of the run; otherwise
      splice out k. */
  method GroupStep(a: array<EdgePoint>, k: nat, ghost radial: nat, ghost edges: nat, merge: (Attributes, Attributes) -> Attributes,
                   ghost tag: seq<nat>, ghost orders: seq<seq<int>>, ghost rank: seq<nat>, ghost clock: nat)
    returns (group: seq<int>, before: int, after: int, ghost t: nat, ghost s: nat, ghost at: seq<nat>,
             ghost ub: nat, ghost ua: nat, ghost orders': seq<seq<int>>, ghost rank': seq<nat>, ghost clock': nat)
    modifies a
    requires Chained(a[..], tag, orders) && Stale(a[..], rank, clock) && |orders| == radial
    requires Anchored(a[..], tag, radial, edges)
    requires k < a.Length && a[k].filter && !a[k].removed
    ensures tag[k] < |orders| && Run(old(a[..]), orders[tag[k]], t, old(a[k].edge), s, group, at)
    ensures Chained(a[..], tag, orders') && Stale(a[..], rank', clock') && |orders'| == radial
    ensures Settled(old(a[..]), a[..]) && (a[k].removed || !a[k].filter)
    ensures LiveCount(a[..]) < LiveCount(old(a[..]))
    ensures Grouped(old(a[..]), a[..], k, orders[tag[k]], group, at, before, after, ub, ua, merge)
  {
    ghost var ep0 := a[..];
    ChainedRanged(ep0, tag, orders, rank, clock);
    var e := a[k].edge;
    ghost var m, ta;
    m, t, ta := FindAnchor(ep0, tag, orders, radial, edges, k);
    ghost var o := orders[tag[k]];
    group, at, s := CollectRun(a, k, o, t, ta);
    RunDistinct(ep0, o, t, e, s, group, at);
    before, after, ub, ua := -1, -1, 0, 0;
    if |group| > 1 {
      before, after, ub, ua, orders', rank', clock' := MergeRun(a, k, merge, group, o, t, s, at, m, ta, tag, orders, rank, clock);
    } else {
      ghost var r2;
      orders', r2 := AloneStep(ep0, tag, orders, rank, clock, k, m);
      RemovePoint(a, k);
      a[k] := a[k].(removed := true, filter := false);
      assert a[..] == Removed(ep0, k, false);
      assert Grouped(ep0, a[..], k, o, group, at, before, after, ub, ua, merge);
      rank', clock' := r2, clock + 1;
    }
  }

  /** What the grouping pass records at a vertex it groups: the vertex's
      chain `order` and its position t there, the run (`group` at positions
      `at`, ended at position s) and the neighbours `before` and `after`
      (positions ub and ua) whose attributes were merged. */
  datatype Step = Step(order: seq<int>, t: nat, group: seq<int>, at: seq<nat>, s: nat,
                       before: int, after: int, ub: nat, ua: nat)

  /** The grouping pass at vertex k takes `ep` to `ep'`: a flagged live
      vertex has its run gathered along its chain and grouped, any other
      vertex is passed over. */
  ghost predicate Visited(ep: seq<EdgePoint>, ep': seq<EdgePoint>, k: nat, st: Step, merge: (Attributes, Attributes) -> Attributes)
  {
    && k < |ep|
    && if Live(ep, k) && ep[k].filter then
         && Cycle(ep, st.order) && Run(ep, st.order, st.t, ep[k].edge, st.s, st.group, st.at)
         && Grouped(ep, ep', k, st.order, st.group, st.at, st.before, st.after, st.ub, st.ua, merge)
       else ep' == ep
  }

  /** `states` and `steps` record the grouping pass over vertices 0..n-1:
      state k + 1 is what the visit of vertex k makes of state k. */
  ghost predicate Swept(states: seq<seq<EdgePoint>>, steps: seq<Step>, n: nat, merge: (Attributes, Attributes) -> Attributes)
  {
    && |states| == n + 1 && |steps| == n
    && forall k :: 0 <= k < n ==> Visited(states[k], states[k + 1], k, steps[k], merge)
  }

  lemma SweptStep(states: seq<seq<EdgePoint>>, steps: seq<Step>, n: nat, ep: seq<EdgePoint>, st: Step,
                  merge: (Attributes, Attributes) -> Attributes)
    requires Swept(states, steps, n, merge) && Visited(states[n], ep, n, st, merge)
    ensures Swept(states + [ep], steps + [st], n + 1, merge)
  {
    var states', steps' := states + [ep], steps + [st];
    forall k | 0 <= k < n + 1
      ensures Visited(states'[k], states'[k + 1], k, steps'[k], merge)
    {
      if k < n {
        assert states'[k] == states[k] && states'[k + 1] == states[k + 1] && steps'[k] == steps[k];
      } else {
        assert states'[k] == states[n] && states'[k + 1] == ep && steps'[k] == st;
      }
    }
  }

  /** A vertex whose flag the clearing pass drops: a flagged live vertex
      whose center is a corner or whose neighbours coincide. */
  predicate Unflags(p: EdgePoint, corner: seq<bool>)
  {
    p.filter && !p.removed && 0 <= p.source < |corner| && (corner[p.source] || p.next == p.prev)
  }

  /** `ep'` is `ep` with every live vertex in `flags` flagged. */
  ghost predicate Scanned(ep: seq<EdgePoint>, flags: set<int>, ep': seq<EdgePoint>)
  {
    |ep'| == |ep| &&
    forall i :: 0 <= i < |ep| ==> ep'[i] == if i in flags && !ep[i].removed then ep[i].(filter := true) else ep[i]
  }

  /** `ep'` is `ep` with the flag dropped from every vertex the clearing
      pass unflags. */
  ghost predicate Cleared(ep: seq<EdgePoint>, corner: seq<bool>, ep': seq<EdgePoint>)
  {
    |ep'| == |ep| &&
    forall i :: 0 <= i < |ep| ==> ep'[i] == if Unflags(ep[i], corner) then ep[i].(filter := false) else ep[i]
  }

  /** Apply the geometric scan: every live vertex in `flags` is flagged.
      The scan's walk and its geometric tests are an oracle that yields
      `flags`. */
  method ScanPass(a: array<EdgePoint>, flags: set<int>)
    modifies a
    ensures FlagsOnly(old(a[..]), a[..])
    ensures Scanned(old(a[..]), flags, a[..])
  {
    forall i | 0 <= i < a.Length && i in flags && !a[i].removed {
      a[i] := a[i].(filter := true);
    }
  }

  /** Drop the flag of every flagged live vertex whose center is a corner
      or whose next and previous vertex coincide. */
  method ClearPass(a: array<EdgePoint>, corner: seq<bool>)
    modifies a
    requires Sourced(a[..], corner)
    ensures FlagsOnly(old(a[..]), a[..])
    ensures Cleared(old(a[..]), corner, a[..])
    ensures forall i :: 0 <= i < a.Length && !a[i].removed && a[i].filter ==>
              !corner[a[i].source] && a[i].next != a[i].prev
  {
    for k := 0 to a.Length
      invariant forall i :: 0 <= i < k ==> a[i] == if Unflags(old(a[i]), corner) then old(a[i]).(filter := false) else old(a[i])
      invariant forall i :: k <= i < a.Length ==> a[i] == old(a[i])
    {
      if a[k].filter && !a[k].removed {
        if corner[a[k].source] || a[k].next == a[k].prev {
          a[k] := a[k].(filter := false);
        }
      }
    }
  }

  /** The grouping pass: a group step at every vertex, in array order, that
      is flagged and live when reached. */
  method GroupPass(a: array<EdgePoint>, ghost radial: nat, ghost edges: nat, merge: (Attributes, Attributes) -> Attributes,
                   ghost tag: seq<nat>, ghost orders: seq<seq<int>>, ghost rank: seq<nat>, ghost clock: nat)
    returns (pointsRemoved: bool, ghost states: seq<seq<EdgePoint>>, ghost steps: seq<Step>,
             ghost orders': seq<seq<int>>, ghost rank': seq<nat>, ghost clock': nat)
    modifies a
    requires Chained(a[..], tag, orders) && Stale(a[..], rank, clock) && |orders| == radial
    requires Anchored(a[..], tag, radial, edges)
    ensures Swept(states, steps, a.Length, merge) && states[0] == old(a[..]) && states[a.Length] == a[..]
    ensures Chained(a[..], tag, orders') && Stale(a[..], rank', clock') && |orders'| == radial
    ensures Anchored(a[..], tag, radial, edges) && Settled(old(a[..]), a[..])
    ensures forall i :: 0 <= i < a.Length && !a[i].removed ==> !a[i].filter
    ensures pointsRemoved ==> LiveCount(a[..]) < LiveCount(old(a[..]))
    ensures !pointsRemoved ==> a[..] == old(a[..])
  {
    ghost var ep0 := a[..];
    SettledRefl(ep0);
    pointsRemoved, orders', rank', clock' := false, orders, rank, clock;
    states, steps := [ep0], [];
    for k := 0 to a.Length
      invariant Grouping(ep0, a[..], k, pointsRemoved, tag, orders', rank', clock', radial, edges)
      invariant Swept(states, steps, k, merge) && states[0] == ep0 && states[k] == a[..]
    {
      ghost var st;
      pointsRemoved, st, orders', rank', clock' := Visit(a, k, radial, edges, merge, pointsRemoved, ep0, tag, orders', rank', clock');
      SweptStep(states, steps, k, a[..], st, merge);
      states, steps := states + [a[..]], steps + [st];
    }
  }

  /** The state of the grouping pass before vertex k: every vertex before k
      is removed or unflagged, and the pass has removed something exactly
      when it has changed anything. */
  ghost predicate Grouping(ep0: seq<EdgePoint>, ep: seq<EdgePoint>, k: nat, pointsRemoved: bool,
                           tag: seq<nat>, orders: seq<seq<int>>, rank: seq<nat>, clock: nat, radial: nat, edges: nat)
  {
    && Chained(ep, tag, orders) && Stale(ep, rank, clock) && |orders| == radial
    && Settled(ep0, ep) && Anchored(ep, tag, radial, edges) && k <= |ep|
    && (forall i :: 0 <= i < k && !ep[i].removed ==> !ep[i].filter)
    && (pointsRemoved ==> LiveCount(ep) < LiveCount(ep0))
    && (!pointsRemoved ==> ep == ep0)
  }

  /** The body of the grouping pass at vertex k. */
  method Visit(a: array<EdgePoint>, k: nat, ghost radial: nat, ghost edges: nat, merge: (Attributes, Attributes) -> Attributes,
               pointsRemoved: bool, ghost ep0: seq<EdgePoint>,
               ghost tag: seq<nat>, ghost orders: seq<seq<int>>, ghost rank: seq<nat>, ghost clock: nat)
    returns (pointsRemoved': bool, ghost st: Step, ghost orders': seq<seq<int>>, ghost rank': seq<nat>, ghost clock': nat)
    modifies a
    requires k < a.Length && Grouping(ep0, a[..], k, pointsRemoved, tag, orders, rank, clock, radial, edges)
    ensures Grouping(ep0, a[..], k + 1, pointsRemoved', tag, orders', rank', clock', radial, edges)
    ensures Visited(old(a[..]), a[..], k, st, merge)
  {
    pointsRemoved', orders', rank', clock' := pointsRemoved, orders, rank, clock;
    st := Step([k], 0, [k], [0], 0, -1, -1, 0, 0);
    if a[k].filter && !a[k].removed {
      ghost var ep := a[..];
      var group, before, after;
      ghost var t, s, at;
      ghost var ub, ua;
      group, before, after, t, s, at, ub, ua, orders', rank', clock' := GroupStep(a, k, radial, edges, merge, tag, orders, rank, clock);
      st := Step(orders[tag[k]], t, group, at, s, before, after, ub, ua);
      assert Cycle(ep, orders[tag[k]]);
      PassStep(ep0, ep, a[..], k, tag, radial, edges);
      pointsRemoved' := true;
    }
  }

  lemma SettledRefl(ep: seq<EdgePoint>)
    ensures Settled(ep, ep)
  {
  }

  /** A group step at k keeps the grouping pass's invariant. */
  lemma PassStep(ep0: seq<EdgePoint>, ep: seq<EdgePoint>, ep2: seq<EdgePoint>, k: nat, tag: seq<nat>, radial: nat, edges: nat)
    requires Settled(ep0, ep) && Settled(ep, ep2) && Anchored(ep, tag, radial, edges) && k < |ep|
    requires forall i :: 0 <= i < k && !ep[i].removed ==> !ep[i].filter
    requires ep2[k].removed || !ep2[k].filter
    ensures Settled(ep0, ep2) && Anchored(ep2, tag, radial, edges)
    ensures forall i :: 0 <= i < k + 1 && !ep2[i].removed ==> !ep2[i].filter
  {
    SettledTrans(ep0, ep, ep2);
    AnchoredSettled(ep, ep2, tag, radial, edges);
    forall i | 0 <= i < k && !ep2[i].removed
      ensures !ep2[i].filter
    {
      assert SettledAt(ep, ep2, i);
    }
  }

  /** `ep2` differs from `ep` at most in the flags of live vertices. */
  ghost predicate FlagsOnly(ep: seq<EdgePoint>, ep2: seq<EdgePoint>)
  {
    |ep2| == |ep| && forall i :: 0 <= i < |ep| ==> ep2[i] == ep[i].(filter := ep2[i].filter) && (ep[i].removed ==> ep2[i] == ep[i])
  }

  /** Every vertex removed since `ep0` comes from a center that is not a
      corner. */
  ghost predicate SparesCorners(ep0: seq<EdgePoint>, ep: seq<EdgePoint>, corner: seq<bool>)
  {
    |ep| == |ep0| &&
    forall i :: 0 <= i < |ep| && ep[i].removed && !ep0[i].removed ==> 0 <= ep[i].source < |corner| && !corner[ep[i].source]
  }

  /** No flagged live vertex comes from a corner center. */
  predicate CornersClear(ep: seq<EdgePoint>, corner: seq<bool>)
  {
    forall i :: 0 <= i < |ep| && !ep[i].removed && ep[i].filter ==> 0 <= ep[i].source < |corner| && !corner[ep[i].source]
  }

  /** Vertex m is live, belongs to chain j, lies on edge e and comes from a
      corner center. */
  ghost predicate RootAt(ep: seq<EdgePoint>, tag: seq<nat>, corner: seq<bool>, j: nat, e: int, m: int)
  {
    Live(ep, m) && m < |tag| && tag[m] == j && ep[m].edge == e && 0 <= ep[m].source < |corner| && corner[ep[m].source]
  }

  /** Every chain j holds a corner vertex on each edge: vertex j on edge 0
      and, with two edges, vertex j + radial on edge 1. */
  ghost predicate Rooted(ep: seq<EdgePoint>, tag: seq<nat>, corner: seq<bool>, radial: nat, edges: nat)
  {
    && (edges == 1 || edges == 2)
    && (forall j :: 0 <= j < radial ==> RootAt(ep, tag, corner, j, 0, j) && (edges == 2 ==> RootAt(ep, tag, corner, j, 1, j + radial)))
    && (forall k :: 0 <= k < |ep| && !ep[k].removed ==> 0 <= ep[k].edge < edges)
  }

  /** Filtering keeps every source, edge and connection flag, and leaves
      removed vertices as they were. */
  ghost predicate Framed(ep0: seq<EdgePoint>, ep: seq<EdgePoint>)
  {
    |ep| == |ep0| && forall i :: 0 <= i < |ep| ==> FramedAt(ep0, ep, i)
  }

  ghost predicate FramedAt(ep0: seq<EdgePoint>, ep: seq<EdgePoint>, i: nat)
    requires |ep| == |ep0| && i < |ep|
  {
    && ep[i].source == ep0[i].source && ep[i].edge == ep0[i].edge
    && ep[i].nextConnected == ep0[i].nextConnected && ep[i].prevConnected == ep0[i].prevConnected
    && (ep0[i].removed ==> ep[i] == ep0[i])
  }

  /** The state of the filtering loop: the chains hold, every corner anchor
      is still live, every vertex removed so far comes from a non-corner
      center, and once a round removes nothing no live vertex is flagged. */
  ghost predicate Filtering(ep0: seq<EdgePoint>, ep: seq<EdgePoint>, pointsRemoved: bool, corner: seq<bool>,
                            tag: seq<nat>, orders: seq<seq<int>>, rank: seq<nat>, clock: nat, radial: nat, edges: nat)
  {
    && Chained(ep, tag, orders) && Stale(ep, rank, clock) && |orders| == radial
    && Sourced(ep, corner) && Rooted(ep, tag, corner, radial, edges) && Framed(ep0, ep)
    && SparesCorners(ep0, ep, corner) && LiveCount(ep) <= LiveCount(ep0)
    && (!pointsRemoved ==> forall i :: 0 <= i < |ep| && !ep[i].removed ==> !ep[i].filter)
  }

  /** No live vertex is still marked for filtering. */
  ghost predicate Unflagged(ep: seq<EdgePoint>)
  {
    forall i :: 0 <= i < |ep| && !ep[i].removed ==> !ep[i].filter
  }

  /** Scanning and clearing change only flags, and after clearing every
      flagged live vertex comes from a non-corner center, so every chain is
      anchored. */
  lemma {:induction false} Rescanned(ep0: seq<EdgePoint>, ep: seq<EdgePoint>, s1: seq<EdgePoint>, corner: seq<bool>,
                  tag: seq<nat>, orders: seq<seq<int>>, rank: seq<nat>, clock: nat, radial: nat, edges: nat)
    requires Filtering(ep0, ep, true, corner, tag, orders, rank, clock, radial, edges) && FlagsOnly(ep, s1)
    requires CornersClear(s1, corner)
    ensures Chained(s1, tag, orders) && Stale(s1, rank, clock) && Anchored(s1, tag, radial, edges)
    ensures LiveCount(s1) == LiveCount(ep)
  {
    assert Reflagged(ep, s1);
    ReflaggedChains(ep, s1, tag, orders, rank, clock);
    LiveCountSame(ep, s1);
    forall j | 0 <= j < radial
      ensures AnchorAt(s1, tag, j, 0, j) && (edges == 2 ==> AnchorAt(s1, tag, j, 1, j + radial))
    {
      assert RootAt(ep, tag, corner, j, 0, j) && (edges == 2 ==> RootAt(ep, tag, corner, j, 1, j + radial));
    }
  }

  /** One round of the filtering loop keeps its invariant, and a round
      that removes something lowers the live count. */
  lemma {:induction false} RoundFacts(ep0: seq<EdgePoint>, ep: seq<EdgePoint>, s1: seq<EdgePoint>, s2: seq<EdgePoint>, pointsRemoved: bool,
                   corner: seq<bool>, tag: seq<nat>, orders: seq<seq<int>>, rank: seq<nat>, clock: nat,
                   orders': seq<seq<int>>, rank': seq<nat>, clock': nat, radial: nat, edges: nat)
    requires Filtering(ep0, ep, true, corner, tag, orders, rank, clock, radial, edges) && FlagsOnly(ep, s1)
    requires CornersClear(s1, corner)
    requires Chained(s2, tag, orders') && Stale(s2, rank', clock') && |orders'| == radial && Settled(s1, s2)
    requires forall i :: 0 <= i < |s2| && !s2[i].removed ==> !s2[i].filter
    requires LiveCount(s1) == LiveCount(ep)
    requires pointsRemoved ==> LiveCount(s2) < LiveCount(s1)
    requires !pointsRemoved ==> s2 == s1
    ensures Filtering(ep0, s2, pointsRemoved, corner, tag, orders', rank', clock', radial, edges)
    ensures LiveCount(s2) + (if pointsRemoved then 1 else 0) < LiveCount(ep) + 1
  {
    RoundFramed(ep0, ep, s1, s2, corner);
    RoundRooted(ep, s1, s2, corner, tag, radial, edges);
  }

  lemma RoundFramed(ep0: seq<EdgePoint>, ep: seq<EdgePoint>, s1: seq<EdgePoint>, s2: seq<EdgePoint>, corner: seq<bool>)
    requires Framed(ep0, ep) && Sourced(ep, corner) && FlagsOnly(ep, s1) && Settled(s1, s2)
    requires SparesCorners(ep0, ep, corner) && CornersClear(s1, corner)
    ensures Framed(ep0, s2) && Sourced(s2, corner) && SparesCorners(ep0, s2, corner)
  {
    forall i | 0 <= i < |ep|
      ensures FramedAt(ep0, s2, i) && 0 <= s2[i].source < |corner|
      ensures s2[i].removed && !ep0[i].removed ==> !corner[s2[i].source]
    {
      assert FramedAt(ep0, ep, i) && SettledAt(s1, s2, i);
    }
  }

  lemma RoundRooted(ep: seq<EdgePoint>, s1: seq<EdgePoint>, s2: seq<EdgePoint>, corner: seq<bool>,
                    tag: seq<nat>, radial: nat, edges: nat)
    requires Rooted(ep, tag, corner, radial, edges) && FlagsOnly(ep, s1) && Settled(s1, s2)
    requires CornersClear(s1, corner)
    ensures Rooted(s2, tag, corner, radial, edges)
  {
    forall j | 0 <= j < radial
      ensures RootAt(s2, tag, corner, j, 0, j) && (edges == 2 ==> RootAt(s2, tag, corner, j, 1, j + radial))
    {
      assert RootAt(ep, tag, corner, j, 0, j) && (edges == 2 ==> RootAt(ep, tag, corner, j, 1, j + radial));
      assert SettledAt(s1, s2, j);
      if edges == 2 {
        assert SettledAt(s1, s2, j + radial);
      }
    }
    forall k | 0 <= k < |s2| && !s2[k].removed
      ensures 0 <= s2[k].edge < edges
    {
      assert SettledAt(s1, s2, k);
    }
  }

  /** One round of the filtering loop: the array after scanning, after
      clearing, the grouping pass's states and steps, and whether the
      grouping pass removed anything. */
  datatype Round = Round(scanned: seq<EdgePoint>, cleared: seq<EdgePoint>, states: seq<seq<EdgePoint>>, steps: seq<Step>,
                         removed: bool)

  /** Round r takes `ep` to `ep'`: the scan flags what `scan` reports on
      `ep`, the clearing pass drops the flags it must, and the grouping pass
      visits every vertex in array order. A round that removes something
      lowers the live count; one that removes nothing changes nothing after
      clearing. */
  ghost predicate Rounded(ep: seq<EdgePoint>, r: Round, ep': seq<EdgePoint>, corner: seq<bool>,
                          scan: seq<EdgePoint> -> set<int>, merge: (Attributes, Attributes) -> Attributes)
  {
    && Scanned(ep, scan(ep), r.scanned) && Cleared(r.scanned, corner, r.cleared)
    && Swept(r.states, r.steps, |ep|, merge) && r.states[0] == r.cleared && r.states[|ep|] == ep'
    && (r.removed ==> LiveCount(ep') < LiveCount(r.cleared))
    && (!r.removed ==> ep' == r.cleared)
  }

  /** `rounds` are the rounds run so far from `ep0`, passing through the
      arrays `passes`; every round but the last removed something. */
  ghost predicate Rounds(ep0: seq<EdgePoint>, passes: seq<seq<EdgePoint>>, rounds: seq<Round>, corner: seq<bool>,
                         scan: seq<EdgePoint> -> set<int>, merge: (Attributes, Attributes) -> Attributes)
  {
    && |passes| == |rounds| + 1 && passes[0] == ep0
    && forall i :: 0 <= i < |rounds| ==>
         Rounded(passes[i], rounds[i], passes[i + 1], corner, scan, merge) && (i + 1 < |rounds| ==> rounds[i].removed)
  }

  /** The whole filtering loop from `ep0` to `ep`: at least one round, the
      last and only the last removing nothing. */
  ghost predicate Filtered(ep0: seq<EdgePoint>, passes: seq<seq<EdgePoint>>, rounds: seq<Round>, ep: seq<EdgePoint>,
                           corner: seq<bool>, scan: seq<EdgePoint> -> set<int>, merge: (Attributes, Attributes) -> Attributes)
  {
    && Rounds(ep0, passes, rounds, corner, scan, merge)
    && 1 <= |rounds| && !rounds[|rounds| - 1].removed && passes[|rounds|] == ep
  }

  lemma RoundsStep(ep0: seq<EdgePoint>, passes: seq<seq<EdgePoint>>, rounds: seq<Round>, r: Round, ep: seq<EdgePoint>,
                   corner: seq<bool>, scan: seq<EdgePoint> -> set<int>, merge: (Attributes, Attributes) -> Attributes)
    requires Rounds(ep0, passes, rounds, corner, scan, merge)
    requires Rounded(passes[|rounds|], r, ep, corner, scan, merge)
    requires |rounds| == 0 || rounds[|rounds| - 1].removed
    ensures Rounds(ep0, passes + [ep], rounds + [r], corner, scan, merge)
  {
    var passes', rounds' := passes + [ep], rounds + [r];
    forall i | 0 <= i < |rounds'|
      ensures Rounded(passes'[i], rounds'[i], passes'[i + 1], corner, scan, merge)
      ensures i + 1 < |rounds'| ==> rounds'[i].removed
    {
      assert passes'[i] == passes[i];
      if i < |rounds| {
        assert rounds'[i] == rounds[i] && passes'[i + 1] == passes[i + 1];
      }
    }
  }

  /** Filter overlapping vertices: rounds of scan, clear and group passes
      until a round removes nothing. The geometric scan is the oracle `scan`
      and the attribute merge the oracle `merge`. */
  method FilterOverlappingVertices(a: array<EdgePoint>, corner: seq<bool>, radial: nat,
                                   scan: seq<EdgePoint> -> set<int>, merge: (Attributes, Attributes) -> Attributes,
                                   ghost edges: nat, ghost tag: seq<nat>, ghost orders: seq<seq<int>>,
                                   ghost rank: seq<nat>, ghost clock: nat)
    returns (ghost passes: seq<seq<EdgePoint>>, ghost rounds: seq<Round>,
             ghost orders': seq<seq<int>>, ghost rank': seq<nat>, ghost clock': nat)
    modifies a
    requires Chained(a[..], tag, orders) && Stale(a[..], rank, clock) && |orders| == radial
    requires Sourced(a[..], corner) && Rooted(a[..], tag, corner, radial, edges)
    ensures Filtered(old(a[..]), passes, rounds, a[..], corner, scan, merge)
    ensures Chained(a[..], tag, orders') && Stale(a[..], rank', clock') && |orders'| == radial && Linked(a[..])
    ensures Framed(old(a[..]), a[..]) && Rooted(a[..], tag, corner, radial, edges) && Unflagged(a[..])
    ensures SparesCorners(old(a[..]), a[..], corner)
    ensures LiveCount(a[..]) <= LiveCount(old(a[..]))
  {
    ghost var ep0 := a[..];
    FilteringStart(ep0, corner, tag, orders, rank, clock, radial, edges);
    var pointsRemoved := true;
    orders', rank', clock' := orders, rank, clock;
    passes, rounds := [ep0], [];
    while pointsRemoved
      invariant Filtering(ep0, a[..], pointsRemoved, corner, tag, orders', rank', clock', radial, edges)
      invariant Rounds(ep0, passes, rounds, corner, scan, merge) && passes[|rounds|] == a[..]
      invariant pointsRemoved <==> |rounds| == 0 || rounds[|rounds| - 1].removed
      decreases LiveCount(a[..]) + (if pointsRemoved then 1 else 0)
    {
      ghost var ep := a[..];
      pointsRemoved := false;
      ScanPass(a, scan(a[..]));
      ghost var mid := a[..];
      ClearPass(a, corner);
      ghost var s1 := a[..];
      FlagsOnlyTrans(ep, mid, s1);
      Rescanned(ep0, ep, s1, corner, tag, orders', rank', clock', radial, edges);
      ghost var states, steps, o2, r2, c2;
      pointsRemoved, states, steps, o2, r2, c2 := GroupPass(a, radial, edges, merge, tag, orders', rank', clock');
      RoundFacts(ep0, ep, s1, a[..], pointsRemoved, corner, tag, orders', rank', clock', o2, r2, c2, radial, edges);
      orders', rank', clock' := o2, r2, c2;
      ghost var r := Round(mid, s1, states, steps, pointsRemoved);
      RoundsStep(ep0, passes, rounds, r, a[..], corner, scan, merge);
      passes, rounds := passes + [a[..]], rounds + [r];
    }
    ChainedLinked(a[..], tag, orders');
  }

  lemma FilteringStart(ep0: seq<EdgePoint>, corner: seq<bool>, tag: seq<nat>, orders: seq<seq<int>>,
                       rank: seq<nat>, clock: nat, radial: nat, edges: nat)
    requires Chained(ep0, tag, orders) && Stale(ep0, rank, clock) && |orders| == radial
    requires Sourced(ep0, corner) && Rooted(ep0, tag, corner, radial, edges)
    ensures Filtering(ep0, ep0, true, corner, tag, orders, rank, clock, radial, edges)
  {
  }

  lemma FlagsOnlyTrans(ep: seq<EdgePoint>, ep1: seq<EdgePoint>, ep2: seq<EdgePoint>)
    requires FlagsOnly(ep, ep1) && FlagsOnly(ep1, ep2)
    ensures FlagsOnly(ep, ep2)
  {
  }
}
