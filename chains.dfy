/** The edge vertices form one doubly linked chain per spoke, stored in a
    flat array: `next` and `prev` are array indices, and a vertex taken out
    of the mesh is spliced out of its chain and marked `removed` while its
    own links are left as they were. */
module Chains {
  import opened Records

  /** Position after t in a cycle of the given length. */
  function Succ(t: nat, len: nat): (r: nat)
    requires t < len
    ensures r < len
  {
    if t + 1 == len then 0 else t + 1
  }

  /** Position before t in a cycle of the given length. */
  function Pred(t: nat, len: nat): (r: nat)
    requires t < len
    ensures r < len
  {
    if t == 0 then len - 1 else t - 1
  }

  /** Whether index k holds a vertex that is still part of the mesh. */
  predicate Live(ep: seq<EdgePoint>, k: int)
  {
    0 <= k < |ep| && !ep[k].removed
  }

  /** The live vertices are doubly linked: the neighbours of every live
      vertex are live and link back to it. */
  predicate Linked(ep: seq<EdgePoint>)
  {
    forall k :: 0 <= k < |ep| && !ep[k].removed ==> LinkedAt(ep, k)
  }

  predicate LinkedAt(ep: seq<EdgePoint>, k: nat)
    requires k < |ep|
  {
    Live(ep, ep[k].next) && Live(ep, ep[k].prev) && ep[ep[k].next].prev == k && ep[ep[k].prev].next == k
  }

  /** `order` lists the live vertices of one chain, distinct, each linked
      forward to the one after it and back to the one before it, the last
      one forward to the first. */
  ghost predicate Cycle(ep: seq<EdgePoint>, order: seq<int>)
  {
    && 1 <= |order|
    && (forall s, t :: 0 <= s < t < |order| ==> order[s] != order[t])
    && (forall t :: 0 <= t < |order| ==> CycleAt(ep, order, t))
  }

  ghost predicate CycleAt(ep: seq<EdgePoint>, order: seq<int>, t: nat)
    requires t < |order|
  {
    Live(ep, order[t]) && ep[order[t]].next == order[Succ(t, |order|)] && ep[order[t]].prev == order[Pred(t, |order|)]
  }

  /** Chain j lists exactly the live vertices tagged j. */
  ghost predicate Chained(ep: seq<EdgePoint>, tag: seq<nat>, orders: seq<seq<int>>)
  {
    && |tag| == |ep|
    && (forall j :: 0 <= j < |orders| ==> Cycle(ep, orders[j]) && Tagged(tag, orders[j], j))
    && (forall k :: 0 <= k < |ep| && !ep[k].removed ==> tag[k] < |orders| && k in orders[tag[k]])
  }

  ghost predicate Tagged(tag: seq<nat>, order: seq<int>, j: nat)
  {
    forall t :: 0 <= t < |order| ==> 0 <= order[t] < |tag| && tag[order[t]] == j
  }

  /** A removed vertex keeps links to vertices that are live or were
      removed after it: `rank` numbers the removals and `clock` is the next
      number. Following a removed vertex's links therefore reaches a live
      vertex. */
  ghost predicate Stale(ep: seq<EdgePoint>, rank: seq<nat>, clock: nat)
  {
    |rank| == |ep| && forall k {:trigger StaleAt(ep, rank, clock, k)} :: 0 <= k < |ep| && ep[k].removed ==> StaleAt(ep, rank, clock, k)
  }

  ghost predicate StaleAt(ep: seq<EdgePoint>, rank: seq<nat>, clock: nat, k: nat)
    requires |rank| == |ep| && k < |ep|
  {
    rank[k] < clock && Later(ep, rank, k, ep[k].next) && Later(ep, rank, k, ep[k].prev)
  }

  ghost predicate Later(ep: seq<EdgePoint>, rank: seq<nat>, k: nat, m: int)
    requires |rank| == |ep| && k < |ep|
  {
    0 <= m < |ep| && (ep[m].removed ==> rank[m] > rank[k])
  }

  /** Splicing vertex k out of its chain: its predecessor links forward to
      its successor and its successor back to its predecessor. */
  function Unlinked(ep: seq<EdgePoint>, k: nat): (r: seq<EdgePoint>)
    requires k < |ep| && 0 <= ep[k].prev < |ep| && 0 <= ep[k].next < |ep|
    ensures |r| == |ep|
  {
    var p := ep[k].prev;
    var n := ep[k].next;
    var linked := ep[p := ep[p].(next := n)];
    linked[n := linked[n].(prev := p)]
  }

  /** The vertex k spliced out and marked removed, with its filter flag set
      to `filter`. */
  function Removed(ep: seq<EdgePoint>, k: nat, filter: bool): (r: seq<EdgePoint>)
    requires k < |ep| && 0 <= ep[k].prev < |ep| && 0 <= ep[k].next < |ep|
    ensures |r| == |ep|
  {
    var u := Unlinked(ep, k);
    u[k := u[k].(removed := true, filter := filter)]
  }

  /** The order of a chain once position t is spliced out. */
  function Without(order: seq<int>, t: nat): (r: seq<int>)
    requires t < |order|
    ensures |r| == |order| - 1
    ensures forall u :: 0 <= u < |r| ==> r[u] == if u < t then order[u] else order[u + 1]
  {
    order[..t] + order[t + 1..]
  }

  /** In-place splice, as the stages perform it. */
  method RemovePoint(a: array<EdgePoint>, k: nat)
    requires k < a.Length && 0 <= a[k].prev < a.Length && 0 <= a[k].next < a.Length
    modifies a
    ensures a[..] == Unlinked(old(a[..]), k)
  {
    a[a[k].prev] := a[a[k].prev].(next := a[k].next);
    a[a[k].next] := a[a[k].next].(prev := a[k].prev);
  }

  /** Chain membership describes the live links. */
  lemma ChainedLinked(ep: seq<EdgePoint>, tag: seq<nat>, orders: seq<seq<int>>)
    requires Chained(ep, tag, orders)
    ensures Linked(ep)
  {
    forall k | 0 <= k < |ep| && !ep[k].removed
      ensures LinkedAt(ep, k)
    {
      var j := tag[k];
      var order := orders[j];
      var t :| 0 <= t < |order| && order[t] == k;
      assert CycleAt(ep, order, t);
      assert CycleAt(ep, order, Succ(t, |order|));
      assert CycleAt(ep, order, Pred(t, |order|));
    }
  }

  /** What splicing out k does to vertex i, for a k that is not its own
      neighbour. */
  lemma RemovedAt(ep: seq<EdgePoint>, k: nat, filter: bool, i: nat)
    requires k < |ep| && 0 <= ep[k].prev < |ep| && 0 <= ep[k].next < |ep| && i < |ep|
    requires ep[k].prev != k && ep[k].next != k
    ensures var r := Removed(ep, k, filter);
            && r[i].removed == (i == k || ep[i].removed)
            && r[i].next == (if i == ep[k].prev then ep[k].next else ep[i].next)
            && r[i].prev == (if i == ep[k].next then ep[k].prev else ep[i].prev)
            && r[i].attrs == ep[i].attrs && r[i].source == ep[i].source && r[i].edge == ep[i].edge
            && r[i].nextConnected == ep[i].nextConnected && r[i].prevConnected == ep[i].prevConnected
            && r[i].filter == (if i == k then filter else ep[i].filter)
  {
  }

  /** Splicing out position t of a cycle of at least two vertices leaves
      the rest a cycle. */
  lemma CycleWithout(ep: seq<EdgePoint>, order: seq<int>, t: nat, filter: bool)
    requires Cycle(ep, order) && 2 <= |order| && t < |order|
    ensures CycleAt(ep, order, t) && Live(ep, ep[order[t]].prev) && Live(ep, ep[order[t]].next)
    ensures ep[order[t]].prev != order[t] && ep[order[t]].next != order[t]
    ensures Cycle(Removed(ep, order[t], filter), Without(order, t))
  {
    assert CycleAt(ep, order, t);
    assert CycleAt(ep, order, Succ(t, |order|));
    assert CycleAt(ep, order, Pred(t, |order|));
    WithoutLinks(ep, order, t, filter);
    WithoutDistinct(order, t);
  }

  /** Every position left after splicing out position t is linked as a
      cycle position. */
  lemma WithoutLinks(ep: seq<EdgePoint>, order: seq<int>, t: nat, filter: bool)
    requires Cycle(ep, order) && 2 <= |order| && t < |order|
    requires 0 <= order[t] < |ep| && 0 <= ep[order[t]].prev < |ep| && 0 <= ep[order[t]].next < |ep|
    ensures forall u: nat :: u < |order| - 1 ==> CycleAt(Removed(ep, order[t], filter), Without(order, t), u)
  {
    var len := |order|;
    assert CycleAt(ep, order, t);
    assert CycleAt(ep, order, Succ(t, len));
    assert CycleAt(ep, order, Pred(t, len));
    assert order[Succ(t, len)] != order[t] && order[Pred(t, len)] != order[t];
    forall u | 0 <= u < len - 1
      ensures CycleAt(Removed(ep, order[t], filter), Without(order, t), u)
    {
      var v := if u < t then u else u + 1;
      assert CycleAt(ep, order, v);
      assert order[v] != order[t];
      assert order[v] == order[Succ(t, len)] ==> v == Succ(t, len);
      assert order[v] == order[Pred(t, len)] ==> v == Pred(t, len);
      WithoutAt(ep, order, t, filter, u, v);
    }
  }

  /** Dropping a position of a sequence of distinct entries leaves them
      distinct. */
  lemma WithoutDistinct(order: seq<int>, t: nat)
    requires t < |order| && forall s, u :: 0 <= s < u < |order| ==> order[s] != order[u]
    ensures forall s, u :: 0 <= s < u < |order| - 1 ==> Without(order, t)[s] != Without(order, t)[u]
  {
    var o := Without(order, t);
    forall s, u | 0 <= s < u < |o|
      ensures o[s] != o[u]
    {
      assert o[s] == order[if s < t then s else s + 1] && o[u] == order[if u < t then u else u + 1];
    }
  }

  /** Position u of the shortened order, which was position v. */
  lemma WithoutAt(ep: seq<EdgePoint>, order: seq<int>, t: nat, filter: bool, u: nat, v: nat)
    requires 2 <= |order| && t < |order| && u < |order| - 1 && v == if u < t then u else u + 1
    requires CycleAt(ep, order, t) && CycleAt(ep, order, v)
    requires CycleAt(ep, order, Succ(t, |order|)) && CycleAt(ep, order, Pred(t, |order|))
    requires order[Succ(t, |order|)] != order[t] && order[Pred(t, |order|)] != order[t] && order[v] != order[t]
    requires order[v] == order[Succ(t, |order|)] ==> v == Succ(t, |order|)
    requires order[v] == order[Pred(t, |order|)] ==> v == Pred(t, |order|)
    ensures CycleAt(Removed(ep, order[t], filter), Without(order, t), u)
  {
    var k := order[t];
    assert Without(order, t)[u] == order[v];
    RemovedAt(ep, k, filter, order[v]);
    WithoutSucc(order, t, u);
    WithoutPred(order, t, u);
  }

  /** The neighbours of position u once position t is dropped: those of
      the position it came from, skipping over t. */
  lemma WithoutSucc(order: seq<int>, t: nat, u: nat)
    requires 2 <= |order| && t < |order| && u < |order| - 1
    ensures var v, o := if u < t then u else u + 1, Without(order, t);
      o[Succ(u, |o|)] == if Succ(v, |order|) == t then order[Succ(t, |order|)] else order[Succ(v, |order|)]
  {
  }

  lemma WithoutPred(order: seq<int>, t: nat, u: nat)
    requires 2 <= |order| && t < |order| && u < |order| - 1
    ensures var v, o := if u < t then u else u + 1, Without(order, t);
      o[Pred(u, |o|)] == if Pred(v, |order|) == t then order[Pred(t, |order|)] else order[Pred(v, |order|)]
  {
  }

  /** Splicing out a live vertex of a chain of at least two keeps every
      chain a cycle and the removals ranked. */
  lemma ChainedRemoved(ep: seq<EdgePoint>, tag: seq<nat>, orders: seq<seq<int>>, rank: seq<nat>, clock: nat,
                       j: nat, t: nat, filter: bool)
    requires Chained(ep, tag, orders) && Stale(ep, rank, clock)
    requires j < |orders| && t < |orders[j]| && 2 <= |orders[j]|
    ensures CycleAt(ep, orders[j], t) && Live(ep, ep[orders[j][t]].prev) && Live(ep, ep[orders[j][t]].next)
    ensures var k := orders[j][t];
            && Chained(Removed(ep, k, filter), tag, orders[j := Without(orders[j], t)])
            && Stale(Removed(ep, k, filter), rank[k := clock], clock + 1)
  {
    CycleWithout(ep, orders[j], t, filter);
    ChainedRemovedOthers(ep, tag, orders, j, t, filter);
    ChainedRemovedMembers(ep, tag, orders, j, t, filter);
    StaleRemoved(ep, tag, orders, rank, clock, j, t, filter);
  }

  lemma ChainedRemovedOthers(ep: seq<EdgePoint>, tag: seq<nat>, orders: seq<seq<int>>, j: nat, t: nat, filter: bool)
    requires Chained(ep, tag, orders)
    requires j < |orders| && t < |orders[j]| && 2 <= |orders[j]|
    requires CycleAt(ep, orders[j], t) && Live(ep, ep[orders[j][t]].prev) && Live(ep, ep[orders[j][t]].next)
    requires ep[orders[j][t]].prev != orders[j][t] && ep[orders[j][t]].next != orders[j][t]
    ensures forall j' :: 0 <= j' < |orders| && j' != j ==> Cycle(Removed(ep, orders[j][t], filter), orders[j'])
  {
    var k := orders[j][t];
    var r := Removed(ep, k, filter);
    var p := ep[k].prev;
    var n := ep[k].next;
    assert tag[p] == j && tag[n] == j && tag[k] == j by {
      assert CycleAt(ep, orders[j], Succ(t, |orders[j]|)) && CycleAt(ep, orders[j], Pred(t, |orders[j]|));
      assert Tagged(tag, orders[j], j);
    }
    forall j' | 0 <= j' < |orders| && j' != j
      ensures Cycle(r, orders[j'])
    {
      var q := orders[j'];
      assert Cycle(ep, q) && Tagged(tag, q, j');
      forall u | 0 <= u < |q|
        ensures CycleAt(r, q, u)
      {
        assert CycleAt(ep, q, u);
        RemovedAt(ep, k, filter, q[u]);
      }
    }
  }

  lemma ChainedRemovedMembers(ep: seq<EdgePoint>, tag: seq<nat>, orders: seq<seq<int>>, j: nat, t: nat, filter: bool)
    requires Chained(ep, tag, orders)
    requires j < |orders| && t < |orders[j]| && 2 <= |orders[j]|
    requires CycleAt(ep, orders[j], t) && Live(ep, ep[orders[j][t]].prev) && Live(ep, ep[orders[j][t]].next)
    requires ep[orders[j][t]].prev != orders[j][t] && ep[orders[j][t]].next != orders[j][t]
    requires Cycle(Removed(ep, orders[j][t], filter), Without(orders[j], t))
    requires forall j' :: 0 <= j' < |orders| && j' != j ==> Cycle(Removed(ep, orders[j][t], filter), orders[j'])
    ensures Chained(Removed(ep, orders[j][t], filter), tag, orders[j := Without(orders[j], t)])
  {
    var k := orders[j][t];
    var r := Removed(ep, k, filter);
    var o := Without(orders[j], t);
    var orders' := orders[j := o];
    assert Tagged(tag, orders[j], j);
    TaggedWithout(tag, orders[j], t, j);
    forall j' | 0 <= j' < |orders'|
      ensures Cycle(r, orders'[j']) && Tagged(tag, orders'[j'], j')
    {
      if j' != j {
        assert Tagged(tag, orders[j'], j');
      }
    }
    MembersRemoved(ep, tag, orders, j, t, filter);
  }

  /** Dropping a position keeps the rest of a chain tagged. */
  lemma TaggedWithout(tag: seq<nat>, order: seq<int>, t: nat, j: nat)
    requires Tagged(tag, order, j) && t < |order|
    ensures Tagged(tag, Without(order, t), j)
  {
    var o := Without(order, t);
    forall u | 0 <= u < |o|
      ensures 0 <= o[u] < |tag| && tag[o[u]] == j
    {
      if u < t {
        assert o[u] == order[u];
      } else {
        assert o[u] == order[u + 1];
      }
    }
  }

  lemma MembersRemoved(ep: seq<EdgePoint>, tag: seq<nat>, orders: seq<seq<int>>, j: nat, t: nat, filter: bool)
    requires Chained(ep, tag, orders)
    requires j < |orders| && t < |orders[j]| && 2 <= |orders[j]|
    requires CycleAt(ep, orders[j], t) && Live(ep, ep[orders[j][t]].prev) && Live(ep, ep[orders[j][t]].next)
    requires ep[orders[j][t]].prev != orders[j][t] && ep[orders[j][t]].next != orders[j][t]
    ensures var r := Removed(ep, orders[j][t], filter);
            forall i :: 0 <= i < |r| && !r[i].removed ==>
              tag[i] < |orders| && i in orders[j := Without(orders[j], t)][tag[i]]
  {
    var k := orders[j][t];
    var r := Removed(ep, k, filter);
    var o := Without(orders[j], t);
    forall i | 0 <= i < |r| && !r[i].removed
      ensures tag[i] < |orders| && i in orders[j := o][tag[i]]
    {
      RemovedAt(ep, k, filter, i);
      assert i != k && !ep[i].removed;
      if tag[i] == j {
        var u :| 0 <= u < |orders[j]| && orders[j][u] == i;
        assert u != t;
        assert o[if u < t then u else u - 1] == i;
      }
    }
  }

  lemma StaleRemoved(ep: seq<EdgePoint>, tag: seq<nat>, orders: seq<seq<int>>, rank: seq<nat>, clock: nat,
                     j: nat, t: nat, filter: bool)
    requires Chained(ep, tag, orders) && Stale(ep, rank, clock)
    requires j < |orders| && t < |orders[j]| && 2 <= |orders[j]|
    requires CycleAt(ep, orders[j], t) && Live(ep, ep[orders[j][t]].prev) && Live(ep, ep[orders[j][t]].next)
    requires ep[orders[j][t]].prev != orders[j][t] && ep[orders[j][t]].next != orders[j][t]
    ensures Stale(Removed(ep, orders[j][t], filter), rank[orders[j][t] := clock], clock + 1)
  {
    var k := orders[j][t];
    var r := Removed(ep, k, filter);
    var rank' := rank[k := clock];
    forall i | 0 <= i < |r| && r[i].removed
      ensures StaleAt(r, rank', clock + 1, i)
    {
      RemovedAt(ep, k, filter, i);
      if i != k {
        assert StaleAt(ep, rank, clock, i);
      }
      RemovedAt(ep, k, filter, r[i].next);
      RemovedAt(ep, k, filter, r[i].prev);
    }
  }
}
