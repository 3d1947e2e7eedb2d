/** The second half of triangle generation for the flat and cross
    profiles: every chain is walked once around, remembering the last
    vertex seen on each of its two edges, and each step closes a triangle
    between those two and the vertex reached, unless the connection flags
    say the step crosses a gap. */
module Strips {
  import opened Records
  import opened Chains
  import opened Filter

  /** A triangle by the array indices of its three vertices, in the order
      the index buffer lists them. */
  datatype Face = Face(a: int, b: int, c: int)

  /** Every corner of every face is a live vertex. */
  ghost predicate LiveFaces(ep: seq<EdgePoint>, faces: seq<Face>)
  {
    forall i :: 0 <= i < |faces| ==> Live(ep, faces[i].a) && Live(ep, faces[i].b) && Live(ep, faces[i].c)
  }

  /** The output slot of vertex k, as its `source` field says once the
      vertices are packed; no index outside the array is ever emitted
      (StripFacesLive), and -1 stands for one. */
  function Slot(ep: seq<EdgePoint>, k: int): int
  {
    if 0 <= k < |ep| then ep[k].source else -1
  }

  /** The index buffer entries of a list of faces: the output slot of each
      corner, three per face. */
  function Emit(ep: seq<EdgePoint>, faces: seq<Face>): (r: seq<int>)
    ensures |r| == 3 * |faces|
  {
    if faces == [] then []
    else
      var f := faces[|faces| - 1];
      Emit(ep, faces[..|faces| - 1]) + [Slot(ep, f.a), Slot(ep, f.b), Slot(ep, f.c)]
  }

  /** Face i takes entries 3i, 3i + 1 and 3i + 2: the output slots of its
      corners, in order. */
  lemma {:induction false} EmitAt(ep: seq<EdgePoint>, faces: seq<Face>, i: nat)
    requires i < |faces|
    ensures Emit(ep, faces)[3 * i..3 * i + 3] == [Slot(ep, faces[i].a), Slot(ep, faces[i].b), Slot(ep, faces[i].c)]
    decreases |faces|
  {
    var front := faces[..|faces| - 1];
    if i < |front| {
      EmitAt(ep, front, i);
      assert Emit(ep, faces)[3 * i..3 * i + 3] == Emit(ep, front)[3 * i..3 * i + 3];
    }
  }

  lemma {:induction false} EmitAppend(ep: seq<EdgePoint>, faces: seq<Face>, more: seq<Face>)
    ensures Emit(ep, faces + more) == Emit(ep, faces) + Emit(ep, more)
    decreases |more|
  {
    if more == [] {
      assert faces + more == faces;
    } else {
      var front := more[..|more| - 1];
      var f := more[|more| - 1];
      EmitAppend(ep, faces, front);
      assert (faces + more)[..|faces + more| - 1] == faces + front;
      var tail := [Slot(ep, f.a), Slot(ep, f.b), Slot(ep, f.c)];
      calc {
        Emit(ep, faces + more);
        Emit(ep, faces + front) + tail;
        (Emit(ep, faces) + Emit(ep, front)) + tail;
        Emit(ep, faces) + (Emit(ep, front) + tail);
      }
    }
  }

  /** Every entry of the index buffer of faces over live vertices is a slot
      of the packed vertex arrays. */
  lemma {:induction false} EmitBounded(ep: seq<EdgePoint>, faces: seq<Face>, count: nat)
    requires LiveFaces(ep, faces)
    requires forall k :: 0 <= k < |ep| && !ep[k].removed ==> 0 <= ep[k].source < count
    ensures forall p :: 0 <= p < |Emit(ep, faces)| ==> 0 <= Emit(ep, faces)[p] < count
  {
    var r := Emit(ep, faces);
    forall p | 0 <= p < |r|
      ensures 0 <= r[p] < count
    {
      var i := p / 3;
      assert 3 * i <= p < 3 * i + 3;
      EmitAt(ep, faces, i);
      assert i < |faces| && Live(ep, faces[i].a) && Live(ep, faces[i].b) && Live(ep, faces[i].c);
      assert r[p] == r[3 * i..3 * i + 3][p - 3 * i];
      assert r[p] in [Slot(ep, faces[i].a), Slot(ep, faces[i].b), Slot(ep, faces[i].c)];
    }
  }

  /** The last vertex seen on edge 0 and on edge 1. */
  datatype Lasts = Lasts(e0: int, e1: int)
  {
    function Get(e: int): int
    {
      if e == 0 then e0 else e1
    }

    function Set(e: int, k: int): Lasts
    {
      if e == 0 then this.(e0 := k) else this.(e1 := k)
    }
  }

  /** A chain the walk can follow: a cycle whose vertices all lie on edge
      0 or 1. */
  ghost predicate Walkable(ep: seq<EdgePoint>, o: seq<int>)
  {
    Cycle(ep, o) && Visits(ep, o)
  }

  /** Every vertex of o is live and lies on edge 0 or 1. */
  ghost predicate Visits(ep: seq<EdgePoint>, o: seq<int>)
  {
    forall t :: 0 <= t < |o| ==> Live(ep, o[t]) && 0 <= ep[o[t]].edge <= 1
  }

  ghost predicate LastsIn(ep: seq<EdgePoint>, l: Lasts)
  {
    0 <= l.e0 < |ep| && 0 <= l.e1 < |ep|
  }

  /** Position n steps after u, for at most one lap. */
  function Along(u: nat, n: nat, len: nat): (p: nat)
    requires u < len && n <= len
    ensures p < len
  {
    if u + n < len then u + n else u + n - len
  }

  /** Whether the walk leaves out the face it would close at vertex p:
      both last vertices are cut off forward, or p and the last vertex on
      the other edge are both cut off backward. */
  predicate Skipped(ep: seq<EdgePoint>, l: Lasts, p: int)
    requires 0 <= l.e0 < |ep| && 0 <= l.e1 < |ep| && 0 <= p < |ep|
  {
    || (!ep[l.e0].nextConnected && !ep[l.e1].nextConnected)
    || (!ep[p].prevConnected && !ep[l.Get(1 - ep[p].edge)].prevConnected)
  }

  /** The last vertices after n steps of the walk from position u. */
  ghost function LastsAfter(ep: seq<EdgePoint>, o: seq<int>, u: nat, l: Lasts, n: nat): (r: Lasts)
    requires Visits(ep, o) && u < |o| && n <= |o| && LastsIn(ep, l)
    ensures LastsIn(ep, r)
  {
    if n == 0 then l
    else
      var p := o[Along(u, n, |o|)];
      LastsAfter(ep, o, u, l, n - 1).Set(ep[p].edge, p)
  }

  /** The faces the first n steps of the walk from position u close, the
      walk starting with last vertices l. */
  ghost function StripFaces(ep: seq<EdgePoint>, o: seq<int>, u: nat, l: Lasts, n: nat): (faces: seq<Face>)
    requires Visits(ep, o) && u < |o| && n <= |o| && LastsIn(ep, l)
  {
    if n == 0 then []
    else
      var p := o[Along(u, n, |o|)];
      var last := LastsAfter(ep, o, u, l, n - 1);
      StripFaces(ep, o, u, l, n - 1) + (if Skipped(ep, last, p) then [] else [Face(last.e1, last.e0, p)])
  }

  /** When the walk starts with live last vertices, every face it closes
      is over live vertices. */
  lemma {:induction false} StripFacesLive(ep: seq<EdgePoint>, o: seq<int>, u: nat, l: Lasts, n: nat)
    requires Visits(ep, o) && u < |o| && n <= |o| && LastsIn(ep, l) && Live(ep, l.e0) && Live(ep, l.e1)
    ensures LiveFaces(ep, StripFaces(ep, o, u, l, n))
    decreases n
  {
    if n > 0 {
      StripFacesLive(ep, o, u, l, n - 1);
      LastsAfterLive(ep, o, u, l, n - 1);
    }
  }

  /** A walk that starts with live last vertices keeps live ones. */
  lemma {:induction false} LastsAfterLive(ep: seq<EdgePoint>, o: seq<int>, u: nat, l: Lasts, n: nat)
    requires Visits(ep, o) && u < |o| && n <= |o| && LastsIn(ep, l) && Live(ep, l.e0) && Live(ep, l.e1)
    ensures Live(ep, LastsAfter(ep, o, u, l, n).e0) && Live(ep, LastsAfter(ep, o, u, l, n).e1)
    decreases n
  {
    if n > 0 {
      LastsAfterLive(ep, o, u, l, n - 1);
    }
  }

  /** Where the walk of chain o starts when its head sits at position t:
      position u holds the first vertex after t on the other edge, and the
      last vertices are it and the vertex before it. */
  ghost predicate StripStart(ep: seq<EdgePoint>, o: seq<int>, t: nat, u: nat, l: Lasts)
    requires Walkable(ep, o) && t < |o|
  {
    && u < |o| && ep[o[u]].edge != ep[o[t]].edge
    && (forall v :: 0 <= v < |o| && Dist(t, v, |o|) < Dist(t, u, |o|) ==> ep[o[v]].edge == ep[o[t]].edge)
    && l.Get(ep[o[u]].edge) == o[u] && l.Get(ep[o[Pred(u, |o|)]].edge) == o[Pred(u, |o|)]
  }

  lemma StartLasts(ep: seq<EdgePoint>, o: seq<int>, t: nat, u: nat, l: Lasts)
    requires Walkable(ep, o) && t < |o| && StripStart(ep, o, t, u, l)
    ensures LastsIn(ep, l) && Live(ep, l.e0) && Live(ep, l.e1)
  {
    var p := Pred(u, |o|);
    if p != t {
      assert Dist(t, p, |o|) < Dist(t, u, |o|);
    }
    assert CycleAt(ep, o, u) && CycleAt(ep, o, p);
  }

  /** Walk forward from the vertex at position t to the first vertex on the
      other edge; a vertex on the other edge exists at position w. */
  method FindEdgeChange(ep: seq<EdgePoint>, j: int, ghost o: seq<int>, ghost t: nat, ghost w: nat)
    returns (point: int, stop: int, ghost u: nat)
    requires Walkable(ep, o) && t < |o| && o[t] == j && w < |o| && ep[o[w]].edge != ep[j].edge
    ensures u < |o| && stop == o[u] && point == o[Pred(u, |o|)] && ep[stop].edge != ep[point].edge
    ensures ep[point].edge == ep[j].edge
    ensures forall v :: 0 <= v < |o| && Dist(t, v, |o|) < Dist(t, u, |o|) ==> ep[o[v]].edge == ep[j].edge
  {
    ghost var len := |o|;
    assert CycleAt(ep, o, t);
    point := j;
    stop := ep[point].next;
    u := Succ(t, len);
    while ep[stop].edge == ep[point].edge
      invariant u < len && stop == o[u] && point == o[Pred(u, len)] && ep[point].edge == ep[j].edge
      invariant 0 < Dist(t, u, len) <= Dist(t, w, len)
      invariant forall v :: 0 <= v < len && Dist(t, v, len) < Dist(t, u, len) ==> ep[o[v]].edge == ep[j].edge
      decreases Dist(t, w, len) - Dist(t, u, len)
    {
      assert CycleAt(ep, o, u);
      assert u != w;
      DistSucc(t, u, len);
      SameEdgeStep(ep, o, t, u, ep[j].edge);
      point := stop;
      stop := ep[point].next;
      u := Succ(u, len);
    }
  }

  /** One more step of the walk keeps every position passed on edge e. */
  lemma SameEdgeStep(ep: seq<EdgePoint>, o: seq<int>, t: nat, u: nat, e: int)
    requires forall v :: 0 <= v < |o| ==> 0 <= o[v] < |ep|
    requires t < |o| && u < |o| && Dist(t, Succ(u, |o|), |o|) == Dist(t, u, |o|) + 1 && ep[o[u]].edge == e
    requires forall v :: 0 <= v < |o| && Dist(t, v, |o|) < Dist(t, u, |o|) ==> ep[o[v]].edge == e
    ensures forall v :: 0 <= v < |o| && Dist(t, v, |o|) < Dist(t, Succ(u, |o|), |o|) ==> ep[o[v]].edge == e
  {
    forall v | 0 <= v < |o| && Dist(t, v, |o|) < Dist(t, Succ(u, |o|), |o|)
      ensures ep[o[v]].edge == e
    {
      if Dist(t, v, |o|) == Dist(t, u, |o|) {
        assert v == u;
      }
    }
  }

  lemma AlongStep(u: nat, n: nat, len: nat)
    requires u < len && n < len
    ensures Along(u, n + 1, len) == Succ(Along(u, n, len), len)
  {
  }

  /** The face a step closes, as index buffer entries: none when skipped. */
  function StepEntries(ep: seq<EdgePoint>, last: Lasts, p: int): (r: seq<int>)
    requires LastsIn(ep, last) && 0 <= p < |ep|
    ensures |r| == if Skipped(ep, last, p) then 0 else 3
  {
    if Skipped(ep, last, p) then [] else [ep[last.e1].source, ep[last.e0].source, ep[p].source]
  }

  /** Step n + 1 of the walk extends the index buffer of the first n steps
      by the entries of the face it closes. */
  lemma StepEmit(ep: seq<EdgePoint>, o: seq<int>, u: nat, l: Lasts, n: nat)
    requires Visits(ep, o) && u < |o| && n < |o| && LastsIn(ep, l)
    ensures var p := o[Along(u, n + 1, |o|)];
            0 <= p < |ep| &&
            Emit(ep, StripFaces(ep, o, u, l, n + 1))
              == Emit(ep, StripFaces(ep, o, u, l, n)) + StepEntries(ep, LastsAfter(ep, o, u, l, n), p)
  {
    var p := o[Along(u, n + 1, |o|)];
    var last := LastsAfter(ep, o, u, l, n);
    var before := StripFaces(ep, o, u, l, n);
    if Skipped(ep, last, p) {
      assert StripFaces(ep, o, u, l, n + 1) == before + [];
      assert before + [] == before;
    } else {
      var face := Face(last.e1, last.e0, p);
      assert StripFaces(ep, o, u, l, n + 1) == before + [face];
      EmitAppend(ep, before, [face]);
      assert [face][..0] == [];
    }
  }

  lemma Associative(x: seq<int>, y: seq<int>, z: seq<int>)
    ensures x + y + z == x + (y + z)
  {
  }

  /** One step of the walk: move to the next vertex of the chain, append
      the face it closes unless that face is skipped, and make it the last
      vertex on its edge. */
  method StripStep(ep: seq<EdgePoint>, ghost o: seq<int>, ghost u: nat, ghost l: Lasts, ghost n: nat,
                   pointIndex: int, last: Lasts, ghost indices0: seq<int>, indices: seq<int>)
    returns (pointIndex': int, last': Lasts, indices': seq<int>)
    requires Walkable(ep, o) && u < |o| && n < |o| && LastsIn(ep, l)
    requires pointIndex == o[Along(u, n, |o|)] && last == LastsAfter(ep, o, u, l, n)
    requires indices == indices0 + Emit(ep, StripFaces(ep, o, u, l, n))
    ensures pointIndex' == o[Along(u, n + 1, |o|)] && last' == LastsAfter(ep, o, u, l, n + 1)
    ensures indices' == indices0 + Emit(ep, StripFaces(ep, o, u, l, n + 1))
  {
    assert CycleAt(ep, o, Along(u, n, |o|));
    AlongStep(u, n, |o|);
    StepEmit(ep, o, u, l, n);
    pointIndex' := ep[pointIndex].next;
    var skipFace := false;
    if !ep[last.e0].nextConnected && !ep[last.e1].nextConnected {
      skipFace := true;
    }
    if !ep[pointIndex'].prevConnected && !ep[last.Get(1 - ep[pointIndex'].edge)].prevConnected {
      skipFace := true;
    }
    if !skipFace {
      indices' := indices + [ep[last.e1].source, ep[last.e0].source, ep[pointIndex'].source];
    } else {
      indices' := indices;
    }
    assert indices' == indices + StepEntries(ep, last, pointIndex');
    Associative(indices0, Emit(ep, StripFaces(ep, o, u, l, n)), StepEntries(ep, last, pointIndex'));
    last' := last.Set(ep[pointIndex'].edge, pointIndex');
  }

  /** The walk of one chain, from its head j: find where the edge first
      changes, then step once around the chain, appending the faces that
      are not skipped. */
  method StripChain(ep: seq<EdgePoint>, j: int, ghost o: seq<int>, ghost t: nat, ghost w: nat, indices: seq<int>)
    returns (indices': seq<int>, ghost u: nat, ghost l: Lasts)
    requires Walkable(ep, o) && t < |o| && o[t] == j && w < |o| && ep[o[w]].edge != ep[j].edge
    ensures StripStart(ep, o, t, u, l) && LastsIn(ep, l) && Live(ep, l.e0) && Live(ep, l.e1)
    ensures indices' == indices + Emit(ep, StripFaces(ep, o, u, l, |o|))
  {
    ghost var len := |o|;
    var point, stopIndex;
    point, stopIndex, u := FindEdgeChange(ep, j, o, t, w);
    var last := Lasts(-1, -1);
    last := last.Set(ep[point].edge, point);
    last := last.Set(ep[stopIndex].edge, stopIndex);
    l := last;
    StartLasts(ep, o, t, u, l);
    var pointIndex := stopIndex;
    indices' := indices;
    ghost var n: nat := 0;
    var done := false;
    while !done
      invariant n <= len && (done <==> n == len) && pointIndex == o[Along(u, n, len)]
      invariant last == LastsAfter(ep, o, u, l, n)
      invariant indices' == indices + Emit(ep, StripFaces(ep, o, u, l, n))
      decreases len - n
    {
      pointIndex, last, indices' := StripStep(ep, o, u, l, n, pointIndex, last, indices, indices');
      n := n + 1;
      done := pointIndex == stopIndex;
      assert done <==> Along(u, n, len) == u;
    }
  }

  /** The position of x in a sequence that holds it. */
  ghost function IndexOf(o: seq<int>, x: int): (t: nat)
    requires x in o
    ensures t < |o| && o[t] == x
  {
    if o[0] == x then 0 else 1 + IndexOf(o[1..], x)
  }

  /** What the walk needs of the chains: chain j is a cycle on edges 0 and
      1 that holds vertex j and a vertex on the other edge, so the search
      for the first edge change stops. */
  ghost predicate StripsReady(ep: seq<EdgePoint>, orders: seq<seq<int>>, radial: nat)
  {
    |orders| == radial && forall j :: 0 <= j < radial ==> ChainReady(ep, orders[j], j)
  }

  ghost predicate ChainReady(ep: seq<EdgePoint>, o: seq<int>, j: nat)
  {
    Walkable(ep, o) && j in o && j < |ep| && exists w :: 0 <= w < |o| && ep[o[w]].edge != ep[j].edge
  }

  /** Where the walk of a chain starts and with which last vertices. */
  datatype Start = Start(u: nat, l: Lasts)

  /** The walks of chains 0 .. m-1 start as `starts` says. */
  ghost predicate Started(ep: seq<EdgePoint>, orders: seq<seq<int>>, starts: seq<Start>, m: nat)
  {
    && m <= |orders| && m <= |starts|
    && forall j :: 0 <= j < m ==>
         && Walkable(ep, orders[j]) && j in orders[j]
         && StripStart(ep, orders[j], IndexOf(orders[j], j), starts[j].u, starts[j].l)
         && LastsIn(ep, starts[j].l) && Live(ep, starts[j].l.e0) && Live(ep, starts[j].l.e1)
  }

  /** The walks of chains 0 .. m-1 can be followed from `starts`. */
  ghost predicate Walks(ep: seq<EdgePoint>, orders: seq<seq<int>>, starts: seq<Start>, m: nat)
  {
    && m <= |orders| && m <= |starts|
    && forall j :: 0 <= j < m ==> Visits(ep, orders[j]) && starts[j].u < |orders[j]| && LastsIn(ep, starts[j].l)
  }

  /** The faces of the walks of chains 0 .. m-1, in order. */
  ghost function AllStrips(ep: seq<EdgePoint>, orders: seq<seq<int>>, starts: seq<Start>, m: nat): (faces: seq<Face>)
    requires Walks(ep, orders, starts, m)
  {
    if m == 0 then []
    else
      var o := orders[m - 1];
      AllStrips(ep, orders, starts, m - 1) + StripFaces(ep, o, starts[m - 1].u, starts[m - 1].l, |o|)
  }

  /** Walks that start from live vertices close faces over live vertices
      only. */
  lemma {:induction false} AllStripsLive(ep: seq<EdgePoint>, orders: seq<seq<int>>, starts: seq<Start>, m: nat)
    requires Walks(ep, orders, starts, m)
    requires forall j :: 0 <= j < m ==> Live(ep, starts[j].l.e0) && Live(ep, starts[j].l.e1)
    ensures LiveFaces(ep, AllStrips(ep, orders, starts, m))
    decreases m
  {
    if m > 0 {
      AllStripsLive(ep, orders, starts, m - 1);
      var o := orders[m - 1];
      StripFacesLive(ep, o, starts[m - 1].u, starts[m - 1].l, |o|);
    }
  }

  lemma StartedPrefix(ep: seq<EdgePoint>, orders: seq<seq<int>>, starts: seq<Start>, m: nat, start: Start)
    requires Started(ep, orders, starts, m) && |starts| == m && m < |orders|
    requires Walkable(ep, orders[m]) && m in orders[m]
    requires StripStart(ep, orders[m], IndexOf(orders[m], m), start.u, start.l)
    requires LastsIn(ep, start.l) && Live(ep, start.l.e0) && Live(ep, start.l.e1)
    ensures Started(ep, orders, starts + [start], m + 1)
    ensures AllStrips(ep, orders, starts + [start], m) == AllStrips(ep, orders, starts, m)
    decreases m
  {
    var s' := starts + [start];
    assert forall j :: 0 <= j < m ==> s'[j] == starts[j];
    if m > 0 {
      StartedDrop(ep, orders, starts, m);
      StartedDrop(ep, orders, s', m + 1);
      AllStripsSame(ep, orders, starts, s', m);
    }
  }

  lemma StartedDrop(ep: seq<EdgePoint>, orders: seq<seq<int>>, starts: seq<Start>, m: nat)
    requires Started(ep, orders, starts, m) && m > 0
    ensures Started(ep, orders, starts, m - 1)
  {
  }

  /** Chains 0 .. m-1 are walked alike when their starts agree. */
  lemma {:induction false} AllStripsSame(ep: seq<EdgePoint>, orders: seq<seq<int>>, starts: seq<Start>, starts': seq<Start>, m: nat)
    requires Walks(ep, orders, starts, m) && Walks(ep, orders, starts', m)
    requires forall j :: 0 <= j < m ==> starts[j] == starts'[j]
    ensures AllStrips(ep, orders, starts, m) == AllStrips(ep, orders, starts', m)
    decreases m
  {
    if m > 0 {
      AllStripsSame(ep, orders, starts, starts', m - 1);
    }
  }

  /** Walking one more chain appends its faces to those of the chains
      before it. */
  lemma AllStripsAppend(ep: seq<EdgePoint>, orders: seq<seq<int>>, starts: seq<Start>, m: nat, start: Start)
    requires Started(ep, orders, starts, m) && |starts| == m && m < |orders|
    requires Walkable(ep, orders[m]) && m in orders[m]
    requires StripStart(ep, orders[m], IndexOf(orders[m], m), start.u, start.l)
    requires LastsIn(ep, start.l) && Live(ep, start.l.e0) && Live(ep, start.l.e1)
    ensures Started(ep, orders, starts + [start], m + 1)
    ensures Emit(ep, AllStrips(ep, orders, starts + [start], m + 1))
              == Emit(ep, AllStrips(ep, orders, starts, m)) + Emit(ep, StripFaces(ep, orders[m], start.u, start.l, |orders[m]|))
  {
    StartedPrefix(ep, orders, starts, m, start);
    var faces := StripFaces(ep, orders[m], start.u, start.l, |orders[m]|);
    EmitAppend(ep, AllStrips(ep, orders, starts, m), faces);
  }

  /** Walk chain j and record where its walk started. */
  method StripNext(ep: seq<EdgePoint>, radial: nat, ghost orders: seq<seq<int>>, j: nat, ghost starts: seq<Start>,
                   ghost indices0: seq<int>, indices: seq<int>)
    returns (indices': seq<int>, ghost starts': seq<Start>)
    requires StripsReady(ep, orders, radial) && j < radial
    requires |starts| == j && Started(ep, orders, starts, j)
    requires indices == indices0 + Emit(ep, AllStrips(ep, orders, starts, j))
    ensures |starts'| == j + 1 && Started(ep, orders, starts', j + 1)
    ensures indices' == indices0 + Emit(ep, AllStrips(ep, orders, starts', j + 1))
  {
    var o := orders[j];
    assert ChainReady(ep, o, j);
    ghost var t := IndexOf(o, j);
    ghost var w :| 0 <= w < |o| && ep[o[w]].edge != ep[j].edge;
    ghost var u, l;
    indices', u, l := StripChain(ep, j, o, t, w, indices);
    AllStripsAppend(ep, orders, starts, j, Start(u, l));
    Associative(indices0, Emit(ep, AllStrips(ep, orders, starts, j)), Emit(ep, StripFaces(ep, o, u, l, |o|)));
    starts' := starts + [Start(u, l)];
  }

  /** The triangles of the flat and cross profiles: the walk of every
      chain in turn, from its head. */
  method StripTriangles(ep: seq<EdgePoint>, radial: nat, ghost orders: seq<seq<int>>, indices: seq<int>)
    returns (indices': seq<int>, ghost starts: seq<Start>)
    requires StripsReady(ep, orders, radial)
    ensures |starts| == radial && Started(ep, orders, starts, radial)
    ensures indices' == indices + Emit(ep, AllStrips(ep, orders, starts, radial))
  {
    indices' := indices;
    starts := [];
    for j := 0 to radial
      invariant |starts| == j && Started(ep, orders, starts, j)
      invariant indices' == indices + Emit(ep, AllStrips(ep, orders, starts, j))
    {
      indices', starts := StripNext(ep, radial, orders, j, starts, indices, indices');
    }
  }
}
