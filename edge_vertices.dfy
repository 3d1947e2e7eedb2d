/** Ring construction: every center point contributes one ring of vertices
    per edge, a corner that is not smooth shaded contributes a second copy
    of its rings, and the vertices that share a spoke form one doubly linked
    chain along the curve. Vertex attributes (positions, normals, uvs) are
    floating-point geometry and come from the caller's `shade`. */
module EdgeVertices {
  import opened Records
  import opened Config

  /** Where a vertex sits in the layout: its center point, its edge (side),
      its spoke around the ring and whether it belongs to a corner copy. */
  datatype Slot = Slot(source: nat, edge: nat, spoke: nat, duplicate: bool)

  /** Vertices in one ring: one row of spokes per edge. */
  function BlockSize(edges: nat, radial: nat): (b: nat)
    ensures edges == 1 ==> b == radial
    ensures edges == 2 ==> b == radial + radial
  {
    if edges == 2 then radial + radial else radial
  }

  function Row(i: nat, e: nat, duplicate: bool, radial: nat): (r: seq<Slot>)
    ensures |r| == radial
    ensures forall j :: 0 <= j < radial ==> r[j] == Slot(i, e, j, duplicate)
  {
    seq(radial, j requires 0 <= j < radial => Slot(i, e, j, duplicate))
  }

  /** The rings of one center point, edge 0 first. */
  function Ring(i: nat, duplicate: bool, edges: nat, radial: nat): (r: seq<Slot>)
    requires 1 <= edges <= 2
    ensures |r| == BlockSize(edges, radial)
  {
    if edges == 2 then Row(i, 0, duplicate, radial) + Row(i, 1, duplicate, radial) else Row(i, 0, duplicate, radial)
  }

  /** The corner flag of every center point. */
  function Corners(cps: seq<CenterPoint>): (c: seq<bool>)
    ensures |c| == |cps| && forall i :: 0 <= i < |cps| ==> c[i] == cps[i].cornerPoint
  {
    seq(|cps|, i requires 0 <= i < |cps| => cps[i].cornerPoint)
  }

  /** The slot of every generated vertex, in array order: the rings of each
      center point, followed by their copy when the point is a corner and
      corners are not smooth shaded. */
  function Layout(corner: seq<bool>, smooth: bool, edges: nat, radial: nat): seq<Slot>
    requires 1 <= edges <= 2
  {
    if |corner| == 0 then []
    else
      var n := |corner| - 1;
      Layout(corner[..n], smooth, edges, radial) + Ring(n, false, edges, radial)
      + (if !smooth && corner[n] then Ring(n, true, edges, radial) else [])
  }

  /** Number of duplicated rings. */
  function Duplicates(corner: seq<bool>, smooth: bool): nat
  {
    if |corner| == 0 then 0
    else Duplicates(corner[..|corner| - 1], smooth) + (if !smooth && corner[|corner| - 1] then 1 else 0)
  }

  /** The attributes a slot receives: a corner copy keeps the position and
      uvs of the vertex it copies and takes its own tangent and normal. */
  function AttrsFor(shade: Slot -> Attributes, sl: Slot): (a: Attributes)
    ensures !sl.duplicate ==> a == shade(sl)
    ensures sl.duplicate ==>
              a.position == shade(sl.(duplicate := false)).position && a.uv == shade(sl.(duplicate := false)).uv &&
              a.uv2 == shade(sl.(duplicate := false)).uv2 &&
              a.tangent == shade(sl).tangent && a.normal == shade(sl).normal
  {
    if sl.duplicate then
      shade(sl.(duplicate := false)).(tangent := shade(sl).tangent, normal := shade(sl).normal)
    else shade(sl)
  }

  /** The finished vertex k of an array laid out as `lay`: its chain
      successor is one ring further on (the last ring links back to the
      first), it is not connected forward when the next ring is its own
      corner copy or, on an open curve, when it is in the last ring, and not
      connected backward when it is a corner copy or, on an open curve,
      when it is in the first ring. */
  function Expected(lay: seq<Slot>, block: nat, radial: nat, closed: bool, shade: Slot -> Attributes, k: nat): EdgePoint
    requires 0 < radial <= |lay| && k < |lay|
  {
    var n := |lay|;
    EdgePoint(AttrsFor(shade, lay[k]), lay[k].source,
              if k + radial < n then k + radial else k + radial - n,
              if k >= radial then k - radial else k + n - radial,
              lay[k].edge, false, false,
              if k + block < n then !lay[k + block].duplicate else closed,
              !lay[k].duplicate && (closed || k >= block))
  }

  /** The array while it is being filled: vertex k of `ep` is at slot k of
      `sl`; it is linked back one ring, forward one ring when that ring
      exists, and its connection flags say whether it or the vertex one ring
      further on is a corner copy. */
  ghost predicate Built(ep: seq<EdgePoint>, sl: seq<Slot>, radial: nat, block: nat, shade: Slot -> Attributes)
  {
    |ep| == |sl| && forall k :: 0 <= k < |ep| ==> BuiltAt(ep, sl, radial, block, shade, k)
  }

  ghost predicate BuiltAt(ep: seq<EdgePoint>, sl: seq<Slot>, radial: nat, block: nat, shade: Slot -> Attributes, k: nat)
    requires |ep| == |sl| && k < |ep|
  {
    && ep[k].attrs == AttrsFor(shade, sl[k]) && ep[k].source == sl[k].source && ep[k].edge == sl[k].edge
    && !ep[k].filter && !ep[k].removed
    && ep[k].prev == (if k >= radial then k - radial else -1)
    && (k + radial < |ep| ==> ep[k].next == k + radial)
    && ep[k].prevConnected == !sl[k].duplicate
    && ep[k].nextConnected == !(k + block < |ep| && sl[k + block].duplicate)
  }

  /** Appending a vertex: once one ring exists, the new vertex is linked to
      the vertex one ring back and that vertex to it. */
  function Push(ep: seq<EdgePoint>, point: EdgePoint, radial: nat): (r: seq<EdgePoint>)
    requires radial > 0
    ensures |r| == |ep| + 1
  {
    var index := |ep|;
    if index >= radial then ep[index - radial := ep[index - radial].(next := index)] + [point.(prev := index - radial)]
    else ep + [point]
  }

  lemma PushOriginal(ep: seq<EdgePoint>, sl: seq<Slot>, radial: nat, block: nat, shade: Slot -> Attributes, s: Slot)
    requires 0 < radial <= block && Built(ep, sl, radial, block, shade) && !s.duplicate
    ensures Built(Push(ep, DefaultEdgePoint(shade(s)).(source := s.source, edge := s.edge), radial),
                  sl + [s], radial, block, shade)
  {
    var r := Push(ep, DefaultEdgePoint(shade(s)).(source := s.source, edge := s.edge), radial);
    forall k | 0 <= k < |r|
      ensures BuiltAt(r, sl + [s], radial, block, shade, k)
    {
      if k < |ep| {
        assert BuiltAt(ep, sl, radial, block, shade, k);
      }
    }
  }

  /** Appending the copy of the vertex one block back: the copy takes the
      corner's own tangent and normal, is linked back one ring, is not
      connected backward, and the copied vertex is no longer connected
      forward. */
  lemma PushDuplicate(ep: seq<EdgePoint>, sl: seq<Slot>, radial: nat, block: nat, shade: Slot -> Attributes, s: Slot)
    requires 0 < radial <= block <= |ep| && Built(ep, sl, radial, block, shade)
    requires s.duplicate && sl[|sl| - block] == s.(duplicate := false)
    ensures var d := |ep| - block;
            var index := |ep|;
            var point := ep[d].(attrs := ep[d].attrs.(tangent := shade(s).tangent, normal := shade(s).normal),
                                prev := index - radial, prevConnected := false);
            var linked := ep[index - radial := ep[index - radial].(next := index)];
            Built(linked[d := linked[d].(nextConnected := false)] + [point], sl + [s], radial, block, shade)
  {
    var d := |ep| - block;
    var index := |ep|;
    assert BuiltAt(ep, sl, radial, block, shade, d);
    var point := ep[d].(attrs := ep[d].attrs.(tangent := shade(s).tangent, normal := shade(s).normal),
                        prev := index - radial, prevConnected := false);
    var linked := ep[index - radial := ep[index - radial].(next := index)];
    var r := linked[d := linked[d].(nextConnected := false)] + [point];
    forall k | 0 <= k < |r|
      ensures BuiltAt(r, sl + [s], radial, block, shade, k)
    {
      if k < |ep| {
        assert BuiltAt(ep, sl, radial, block, shade, k);
      }
    }
  }

  /** Pushes the vertices of edge e of center point i, spoke by spoke. */
  method PushRow(ep0: seq<EdgePoint>, ghost sl0: seq<Slot>, i: nat, e: nat, radial: nat, ghost block: nat,
                 shade: Slot -> Attributes)
    returns (ep: seq<EdgePoint>)
    requires 0 < radial <= block && Built(ep0, sl0, radial, block, shade)
    ensures Built(ep, sl0 + Row(i, e, false, radial), radial, block, shade)
  {
    ghost var row := Row(i, e, false, radial);
    ep := ep0;
    assert sl0 + row[..0] == sl0;
    for j := 0 to radial
      invariant Built(ep, sl0 + row[..j], radial, block, shade)
    {
      ghost var before := ep;
      var point := DefaultEdgePoint(shade(Slot(i, e, j, false)));
      var index := |ep|;
      if index >= radial {
        point := point.(prev := index - radial);
        ep := ep[point.prev := ep[point.prev].(next := index)];
      }
      point := point.(source := i, edge := e);
      ep := ep + [point];
      assert sl0 + row[..j + 1] == sl0 + row[..j] + [Slot(i, e, j, false)];
      PushOriginal(before, sl0 + row[..j], radial, block, shade, Slot(i, e, j, false));
    }
    assert row[..radial] == row;
  }

  /** Pushes the rings of center point i, edge by edge. */
  method PushRings(ep0: seq<EdgePoint>, ghost sl0: seq<Slot>, i: nat, edges: nat, radial: nat, shade: Slot -> Attributes)
    returns (ep: seq<EdgePoint>)
    requires 1 <= edges <= 2 && 0 < radial && Built(ep0, sl0, radial, BlockSize(edges, radial), shade)
    ensures Built(ep, sl0 + Ring(i, false, edges, radial), radial, BlockSize(edges, radial), shade)
  {
    ep := ep0;
    ghost var sl := sl0;
    for e := 0 to edges
      invariant sl == sl0 + (if e == 0 then [] else if e == 1 then Row(i, 0, false, radial)
                             else Row(i, 0, false, radial) + Row(i, 1, false, radial))
      invariant Built(ep, sl, radial, BlockSize(edges, radial), shade)
    {
      ep := PushRow(ep, sl, i, e, radial, BlockSize(edges, radial), shade);
      sl := sl + Row(i, e, false, radial);
    }
  }

  /** Pushes the copies of the vertices of edge e of corner center point i;
      `sl0` ends with the block being copied. */
  method PushDuplicateRow(ep0: seq<EdgePoint>, ghost sl0: seq<Slot>, i: nat, e: nat, radial: nat, edges: nat,
                          ghost offset: nat, shade: Slot -> Attributes)
    returns (ep: seq<EdgePoint>)
    requires 1 <= edges <= 2 && 0 < radial && Built(ep0, sl0, radial, BlockSize(edges, radial), shade)
    requires offset + BlockSize(edges, radial) <= |sl0| && offset + radial <= |sl0|
    requires |sl0| - BlockSize(edges, radial) == offset && sl0[offset..offset + radial] == Row(i, e, false, radial)
    ensures Built(ep, sl0 + Row(i, e, true, radial), radial, BlockSize(edges, radial), shade)
  {
    ghost var block := BlockSize(edges, radial);
    ghost var row := Row(i, e, true, radial);
    ep := ep0;
    assert sl0 + row[..0] == sl0;
    for j := 0 to radial
      invariant Built(ep, sl0 + row[..j], radial, block, shade)
    {
      ghost var before := ep;
      ghost var s := Slot(i, e, j, true);
      var duplicatedIndex := |ep| - radial * edges;
      assert duplicatedIndex == |ep| - block;
      var point := ep[duplicatedIndex];
      point := point.(attrs := point.attrs.(tangent := shade(Slot(i, e, j, true)).tangent,
                                            normal := shade(Slot(i, e, j, true)).normal));
      var index := |ep|;
      point := point.(prev := index - radial);
      ep := ep[point.prev := ep[point.prev].(next := index)];
      ep := ep[duplicatedIndex := ep[duplicatedIndex].(nextConnected := false)];
      point := point.(prevConnected := false);
      ep := ep + [point];
      DuplicateRowStep(sl0, i, e, radial, block, offset, j);
      PushDuplicate(before, sl0 + row[..j], radial, block, shade, s);
    }
    assert row[..radial] == row;
  }

  /** The slot copied at step j of a duplicate row, and the slots once it
      is pushed. */
  lemma DuplicateRowStep(sl0: seq<Slot>, i: nat, e: nat, radial: nat, block: nat, offset: nat, j: nat)
    requires offset + radial <= |sl0| && |sl0| - block == offset && j < radial
    requires sl0[offset..offset + radial] == Row(i, e, false, radial)
    ensures var row := Row(i, e, true, radial);
      && (sl0 + row[..j])[|sl0| + j - block] == sl0[offset..offset + radial][j]
      && sl0 + row[..j + 1] == sl0 + row[..j] + [Slot(i, e, j, true)]
  {
    var row := Row(i, e, true, radial);
    assert (sl0 + row[..j])[|sl0| + j - block] == sl0[offset + j];
    assert row[..j + 1] == row[..j] + [Slot(i, e, j, true)];
  }

  /** Pushes the copy of the rings just pushed for a corner center point. */
  method PushDuplicateRings(ep0: seq<EdgePoint>, ghost sl0: seq<Slot>, i: nat, edges: nat, radial: nat,
                            shade: Slot -> Attributes)
    returns (ep: seq<EdgePoint>)
    requires 1 <= edges <= 2 && 0 < radial && Built(ep0, sl0, radial, BlockSize(edges, radial), shade)
    requires |sl0| >= BlockSize(edges, radial) && sl0[|sl0| - BlockSize(edges, radial)..] == Ring(i, false, edges, radial)
    ensures Built(ep, sl0 + Ring(i, true, edges, radial), radial, BlockSize(edges, radial), shade)
  {
    ghost var block := BlockSize(edges, radial);
    ep := ep0;
    ghost var sl := sl0;
    for e := 0 to edges
      invariant sl == sl0 + (if e == 0 then [] else if e == 1 then Row(i, 0, true, radial)
                             else Row(i, 0, true, radial) + Row(i, 1, true, radial))
      invariant Built(ep, sl, radial, block, shade)
    {
      ghost var offset := |sl0| - block + (if e == 0 then 0 else radial);
      assert sl[offset..offset + radial] == Row(i, e, false, radial);
      ep := PushDuplicateRow(ep, sl, i, e, radial, edges, offset, shade);
      sl := sl + Row(i, e, true, radial);
    }
  }

  /** The size of the generated array: one block per center point and one
      per duplicated corner. */
  lemma {:induction false} LayoutSize(corner: seq<bool>, smooth: bool, edges: nat, radial: nat)
    requires 1 <= edges <= 2
    ensures |Layout(corner, smooth, edges, radial)| == (|corner| + Duplicates(corner, smooth)) * BlockSize(edges, radial)
    decreases |corner|
  {
    if |corner| > 0 {
      LayoutSize(corner[..|corner| - 1], smooth, edges, radial);
      SizeStep(corner, smooth, edges, radial);
      MulStep(|corner[..|corner| - 1]| + Duplicates(corner[..|corner| - 1], smooth), BlockSize(edges, radial),
              !smooth && corner[|corner| - 1], |Layout(corner[..|corner| - 1], smooth, edges, radial)|,
              |Layout(corner, smooth, edges, radial)|, |corner| + Duplicates(corner, smooth));
    }
  }

  /** The last center point adds one block, or two for a copied corner. */
  lemma SizeStep(corner: seq<bool>, smooth: bool, edges: nat, radial: nat)
    requires 1 <= edges <= 2 && |corner| > 0
    ensures var n, b, extra := |corner| - 1, BlockSize(edges, radial), !smooth && corner[|corner| - 1];
      && |Layout(corner, smooth, edges, radial)| == |Layout(corner[..n], smooth, edges, radial)| + b + (if extra then b else 0)
      && |corner| + Duplicates(corner, smooth) == |corner[..n]| + Duplicates(corner[..n], smooth) + 1 + (if extra then 1 else 0)
  {
  }

  /** One more ring, or two, of b slots each. */
  lemma MulStep(m: nat, b: nat, extra: bool, len: nat, len': nat, m': nat)
    requires len == m * b && len' == len + b + (if extra then b else 0) && m' == m + 1 + (if extra then 1 else 0)
    ensures len' == m' * b
  {
  }

  /** Spokes j' < j, or spoke j up to but excluding edge e, are done. */
  predicate Done(spoke: int, edge: int, j: nat, e: nat)
  {
    spoke < j || (spoke == j && edge < e)
  }

  /** On an open curve, whether vertex k of the first ring has lost its
      backward connection once the spokes and edges `Done(j, e)` are handled. */
  predicate OpenStart(radial: nat, block: nat, edges: nat, closed: bool, j: nat, e: nat, k: nat)
  {
    !closed && ((k < radial && Done(k, 0, j, e)) || (edges == 2 && radial <= k < block && Done(k - radial, 1, j, e)))
  }

  /** Likewise for the forward connection of the last ring of n vertices. */
  predicate OpenEnd(n: nat, radial: nat, block: nat, edges: nat, closed: bool, j: nat, e: nat, k: nat)
  {
    !closed && ((n - radial <= k && Done(k - (n - radial), edges - 1, j, e)) ||
                (edges == 2 && n - block <= k < n - radial && Done(k - (n - block), 0, j, e)))
  }

  /** Handling edge e of spoke j clears exactly one more backward and one
      more forward connection. */
  lemma OpenStep(n: nat, radial: nat, block: nat, edges: nat, j: nat, e: nat, k: nat)
    requires 1 <= edges <= 2 && block == BlockSize(edges, radial) && block <= n && j < radial && e < edges
    ensures OpenStart(radial, block, edges, false, j, e + 1, k) <==>
              OpenStart(radial, block, edges, false, j, e, k) || k == j + (if e == 0 then 0 else radial)
    ensures OpenEnd(n, radial, block, edges, false, j, e + 1, k) <==>
              OpenEnd(n, radial, block, edges, false, j, e, k) || k == (if e == edges - 1 then n - radial + j else n - block + j)
  {
  }

  /** Every edge of spoke j done is the same as all spokes up to j done. */
  lemma OpenNextSpoke(n: nat, radial: nat, block: nat, edges: nat, j: nat, k: nat)
    requires 1 <= edges <= 2 && block == BlockSize(edges, radial)
    ensures OpenStart(radial, block, edges, false, j, edges, k) == OpenStart(radial, block, edges, false, j + 1, 0, k)
    ensures OpenEnd(n, radial, block, edges, false, j, edges, k) == OpenEnd(n, radial, block, edges, false, j + 1, 0, k)
  {
  }

  /** Vertex k of the filled array `base` while the final pass runs: the
      backward links of the first `links` spokes of the first row and the
      forward links of the same spokes of the last row are wrapped, and the
      open-curve connection flags of the spokes and edges done are cleared. */
  function Wrapped(base: seq<EdgePoint>, radial: nat, block: nat, edges: nat, closed: bool,
                   links: nat, j: nat, e: nat, k: nat): EdgePoint
    requires k < |base|
  {
    var n := |base|;
    base[k].(next := if n - radial <= k && k - (n - radial) < links then k + radial - n else base[k].next,
             prev := if k < links then k + n - radial else base[k].prev,
             prevConnected := base[k].prevConnected && !OpenStart(radial, block, edges, closed, j, e, k),
             nextConnected := base[k].nextConnected && !OpenEnd(n, radial, block, edges, closed, j, e, k))
  }

  /** The final pass: the last ring links forward to the first and the first
      back to the last, and an open curve's ends are disconnected. */
  method LinkEnds(ep0: seq<EdgePoint>, radial: nat, edges: nat, closed: bool)
    returns (ep: seq<EdgePoint>)
    requires 1 <= edges <= 2 && 0 < radial && BlockSize(edges, radial) <= |ep0|
    ensures |ep| == |ep0|
    ensures forall k :: 0 <= k < |ep| ==> ep[k] == Wrapped(ep0, radial, BlockSize(edges, radial), edges, closed, radial, radial, 0, k)
  {
    ghost var block := BlockSize(edges, radial);
    var n := |ep0|;
    ep := ep0;
    for j := 0 to radial
      invariant |ep| == n
      invariant forall k :: 0 <= k < n ==> ep[k] == Wrapped(ep0, radial, block, edges, closed, j, j, 0, k)
    {
      ep := LinkSpoke(ep0, ep, radial, edges, closed, j);
      if !closed {
        ep := DisconnectEnds(ep0, ep, radial, edges, j);
        forall k | 0 <= k < n
          ensures ep[k] == Wrapped(ep0, radial, block, edges, closed, j + 1, j + 1, 0, k)
        {
          OpenNextSpoke(n, radial, block, edges, j, k);
        }
      }
    }
  }

  /** One step of the final pass: the last ring's vertex of spoke j links
      forward to the first ring's, and that one back to it. */
  method LinkSpoke(ghost ep0: seq<EdgePoint>, ep1: seq<EdgePoint>, radial: nat, edges: nat, closed: bool, j: nat)
    returns (ep: seq<EdgePoint>)
    requires 1 <= edges <= 2 && 0 < radial && BlockSize(edges, radial) <= |ep0| == |ep1| && j < radial
    requires forall k :: 0 <= k < |ep1| ==> ep1[k] == Wrapped(ep0, radial, BlockSize(edges, radial), edges, closed, j, j, 0, k)
    ensures |ep| == |ep1|
    ensures forall k :: 0 <= k < |ep| ==> ep[k] == Wrapped(ep0, radial, BlockSize(edges, radial), edges, closed, j + 1, j, 0, k)
  {
    ghost var block := BlockSize(edges, radial);
    var n := |ep1|;
    var lastIndex := n - radial + j;
    ep := ep1[lastIndex := ep1[lastIndex].(next := j)];
    ep := ep[j := ep[j].(prev := lastIndex)];
    forall k | 0 <= k < n
      ensures ep[k] == Wrapped(ep0, radial, block, edges, closed, j + 1, j, 0, k)
    {
      assert ep[k] == ep1[k].(next := if k == lastIndex then j else ep1[k].next,
                              prev := if k == j then lastIndex else ep1[k].prev);
      LinkSpokeAt(ep0, radial, block, edges, closed, j, k, ep1[k], ep[k]);
    }
  }

  /** Vertex k before and after spoke j is linked around. */
  lemma LinkSpokeAt(ep0: seq<EdgePoint>, radial: nat, block: nat, edges: nat, closed: bool, j: nat, k: nat,
                    before: EdgePoint, after: EdgePoint)
    requires radial <= |ep0| && j < radial && k < |ep0|
    requires before == Wrapped(ep0, radial, block, edges, closed, j, j, 0, k)
    requires after == before.(next := if k == |ep0| - radial + j then j else before.next,
                              prev := if k == j then |ep0| - radial + j else before.prev)
    ensures after == Wrapped(ep0, radial, block, edges, closed, j + 1, j, 0, k)
  {
  }

  /** The open-curve part of one step of the final pass: for each edge, the
      spoke's vertex in the first ring loses its backward connection and its
      vertex in the last ring its forward connection. */
  method DisconnectEnds(ghost ep0: seq<EdgePoint>, ep1: seq<EdgePoint>, radial: nat, edges: nat, j: nat)
    returns (ep: seq<EdgePoint>)
    requires 1 <= edges <= 2 && 0 < radial && BlockSize(edges, radial) <= |ep0| == |ep1| && j < radial
    requires forall k :: 0 <= k < |ep1| ==> ep1[k] == Wrapped(ep0, radial, BlockSize(edges, radial), edges, false, j + 1, j, 0, k)
    ensures |ep| == |ep1|
    ensures forall k :: 0 <= k < |ep| ==> ep[k] == Wrapped(ep0, radial, BlockSize(edges, radial), edges, false, j + 1, j, edges, k)
  {
    ghost var block := BlockSize(edges, radial);
    var n := |ep1|;
    var lastIndex := n - radial + j;
    ep := ep1;
    for e := 0 to edges
      invariant |ep| == n
      invariant forall k :: 0 <= k < n ==> ep[k] == Wrapped(ep0, radial, block, edges, false, j + 1, j, e, k)
    {
      ghost var before := ep;
      var base := e * radial;
      assert base == if e == 0 then 0 else radial;
      ep := ep[j + base := ep[j + base].(prevConnected := false)];
      var other := lastIndex - (edges - 1 - e) * radial;
      assert other == if e == edges - 1 then lastIndex else lastIndex - radial;
      ep := ep[other := ep[other].(nextConnected := false)];
      forall k | 0 <= k < n
        ensures ep[k] == Wrapped(ep0, radial, block, edges, false, j + 1, j, e + 1, k)
      {
        assert before[k] == Wrapped(ep0, radial, block, edges, false, j + 1, j, e, k);
        OpenStep(n, radial, block, edges, j, e, k);
      }
    }
  }

  /** Once the final pass is done, each vertex of a filled array is the
      finished vertex of its layout. */
  lemma Finished(base: seq<EdgePoint>, lay: seq<Slot>, radial: nat, edges: nat, closed: bool,
                 shade: Slot -> Attributes, k: nat)
    requires 1 <= edges <= 2 && 0 < radial && BlockSize(edges, radial) <= |base|
    requires Built(base, lay, radial, BlockSize(edges, radial), shade) && k < |base|
    ensures Wrapped(base, radial, BlockSize(edges, radial), edges, closed, radial, radial, 0, k) ==
            Expected(lay, BlockSize(edges, radial), radial, closed, shade, k)
  {
    assert BuiltAt(base, lay, radial, BlockSize(edges, radial), shade, k);
  }

  /** The center point after its corner flag is updated: a point already
      marked a corner stays one, and a sharp turn makes it one. */
  function Cornered(cp: CenterPoint, sharp: bool): (r: CenterPoint)
    ensures r.cornerPoint <==> cp.cornerPoint || sharp
    ensures r.(cornerPoint := cp.cornerPoint) == cp
  {
    cp.(cornerPoint := cp.cornerPoint || sharp)
  }

  /** Builds the edge vertices of the center points `cps0`. `sharp[i]` is
      whether the curve turns at center point i by more than the corner
      threshold, and `shade` gives the geometry of each vertex. */
  method GenerateEdgeVertices(cps0: seq<CenterPoint>, sharp: seq<bool>, smooth: bool, closed: bool,
                              edges: nat, radial: nat, shade: Slot -> Attributes)
    returns (cps: seq<CenterPoint>, ep: seq<EdgePoint>)
    requires 1 <= |cps0| && |sharp| == |cps0| && 1 <= edges <= 2 && 0 < radial
    ensures |cps| == |cps0| && forall i :: 0 <= i < |cps| ==> cps[i] == Cornered(cps0[i], sharp[i])
    ensures var lay := Layout(Corners(cps), smooth, edges, radial);
            |ep| == |lay| >= BlockSize(edges, radial) &&
            forall k :: 0 <= k < |ep| ==> ep[k] == Expected(lay, BlockSize(edges, radial), radial, closed, shade, k)
  {
    ghost var block := BlockSize(edges, radial);
    cps := cps0;
    ep := [];
    ghost var sl: seq<Slot> := [];
    var i := 0;
    while i < |cps|
      invariant i <= |cps| == |cps0|
      invariant forall m :: 0 <= m < i ==> cps[m] == Cornered(cps0[m], sharp[m])
      invariant forall m :: i <= m < |cps| ==> cps[m] == cps0[m]
      invariant sl == Layout(Corners(cps)[..i], smooth, edges, radial)
      invariant Built(ep, sl, radial, block, shade)
      invariant i > 0 ==> |ep| >= block
    {
      cps, ep, sl := CenterRings(cps0, sharp, smooth, edges, radial, shade, i, cps, ep, sl);
      i := i + 1;
    }
    assert Corners(cps)[..i] == Corners(cps);
    ghost var base := ep;
    ep := LinkEnds(ep, radial, edges, closed);
    forall k | 0 <= k < |ep|
      ensures ep[k] == Expected(sl, block, radial, closed, shade, k)
    {
      Finished(base, sl, radial, edges, closed, shade, k);
    }
  }

  /** One turn of the generation loop: mark center point i as a corner or
      not, push its ring, and push a copy of the ring when it is a corner
      and the mesh is not smooth shaded. */
  method CenterRings(cps0: seq<CenterPoint>, sharp: seq<bool>, smooth: bool, edges: nat, radial: nat,
                     shade: Slot -> Attributes, i: nat, cps: seq<CenterPoint>, ep: seq<EdgePoint>, ghost sl: seq<Slot>)
    returns (cps': seq<CenterPoint>, ep': seq<EdgePoint>, ghost sl': seq<Slot>)
    requires i < |cps| == |cps0| && |sharp| == |cps0| && 1 <= edges <= 2 && 0 < radial
    requires forall m :: 0 <= m < i ==> cps[m] == Cornered(cps0[m], sharp[m])
    requires forall m :: i <= m < |cps| ==> cps[m] == cps0[m]
    requires sl == Layout(Corners(cps)[..i], smooth, edges, radial)
    requires Built(ep, sl, radial, BlockSize(edges, radial), shade)
    ensures |cps'| == |cps0|
    ensures forall m :: 0 <= m < i + 1 ==> cps'[m] == Cornered(cps0[m], sharp[m])
    ensures forall m :: i + 1 <= m < |cps'| ==> cps'[m] == cps0[m]
    ensures sl' == Layout(Corners(cps')[..i + 1], smooth, edges, radial)
    ensures Built(ep', sl', radial, BlockSize(edges, radial), shade)
    ensures |ep'| >= BlockSize(edges, radial)
  {
    ghost var prefix := Corners(cps)[..i];
    cps' := cps[i := Cornered(cps[i], sharp[i])];
    assert Corners(cps')[..i + 1][..i] == prefix;
    ep' := PushRings(ep, sl, i, edges, radial, shade);
    sl' := sl + Ring(i, false, edges, radial);
    if !smooth && cps'[i].cornerPoint {
      ep' := PushDuplicateRings(ep', sl', i, edges, radial, shade);
      sl' := sl' + Ring(i, true, edges, radial);
    }
  }

  /** The edge of the row that follows a row of edge e. */
  function NextEdge(e: nat, edges: nat): nat
  {
    if edges == 2 && e == 0 then 1 else 0
  }

  /** A sequence of whole rows: the first row is edge 0 with spokes in
      order, every slot sits on the spoke of the slot one row back and on the
      other edge, the last row is the last edge, and an edge-1 slot comes
      from the same center point (and copy) as the edge-0 slot before it. */
  ghost predicate Striped(s: seq<Slot>, radial: nat, edges: nat)
  {
    && radial <= |s|
    && (forall k :: 0 <= k < radial ==> s[k].spoke == k && s[k].edge == 0)
    && (forall k :: radial <= k < |s| ==> RowStep(s, radial, edges, k))
    && (forall k :: |s| - radial <= k < |s| ==> s[k].spoke == k - (|s| - radial) && s[k].edge == edges - 1)
  }

  /** Slot k against the slot one row back. */
  ghost predicate RowStep(s: seq<Slot>, radial: nat, edges: nat, k: nat)
    requires radial <= k < |s|
  {
    && s[k].spoke == s[k - radial].spoke && s[k].edge == NextEdge(s[k - radial].edge, edges)
    && (s[k].edge == 1 ==> s[k].source == s[k - radial].source && s[k].duplicate == s[k - radial].duplicate)
  }

  lemma RingAt(i: nat, dup: bool, edges: nat, radial: nat, o: nat)
    requires 1 <= edges <= 2 && o < BlockSize(edges, radial)
    ensures Ring(i, dup, edges, radial)[o] == if o < radial then Slot(i, 0, o, dup) else Slot(i, 1, o - radial, dup)
  {
    if edges == 2 && o >= radial {
      assert Ring(i, dup, edges, radial)[o] == Row(i, 1, dup, radial)[o - radial];
    }
  }

  /** Appending a ring to whole rows keeps them whole rows. */
  lemma AppendRing(s: seq<Slot>, i: nat, dup: bool, edges: nat, radial: nat)
    requires 1 <= edges <= 2 && 0 < radial && (s == [] || Striped(s, radial, edges))
    ensures Striped(s + Ring(i, dup, edges, radial), radial, edges)
    ensures (s + Ring(i, dup, edges, radial))[..|s|] == s
  {
    var t := s + Ring(i, dup, edges, radial);
    forall k | 0 <= k < radial
      ensures t[k].spoke == k && t[k].edge == 0
    {
      if s != [] {
        assert t[k] == s[k];
      } else {
        RingAt(i, dup, edges, radial, k);
      }
    }
    forall k | radial <= k < |t|
      ensures RowStep(t, radial, edges, k)
    {
      AppendRingBack(s, i, dup, edges, radial, k);
    }
    forall k | |t| - radial <= k < |t|
      ensures t[k].spoke == k - (|t| - radial) && t[k].edge == edges - 1
    {
      RingAt(i, dup, edges, radial, k - |s|);
    }
  }

  lemma AppendRingBack(s: seq<Slot>, i: nat, dup: bool, edges: nat, radial: nat, k: nat)
    requires 1 <= edges <= 2 && 0 < radial && (s == [] || Striped(s, radial, edges))
    requires radial <= k < |s| + BlockSize(edges, radial)
    ensures RowStep(s + Ring(i, dup, edges, radial), radial, edges, k)
  {
    var t := s + Ring(i, dup, edges, radial);
    if k < |s| {
      assert RowStep(s, radial, edges, k);
      assert t[k] == s[k] && t[k - radial] == s[k - radial];
    } else {
      RingAt(i, dup, edges, radial, k - |s|);
      if k - radial < |s| {
        assert t[k - radial] == s[k - radial];
      } else {
        RingAt(i, dup, edges, radial, k - radial - |s|);
      }
    }
  }

  /** The layout is made of whole rows whose first row is center point 0's
      first edge. */
  lemma {:induction false} LayoutStriped(corner: seq<bool>, smooth: bool, edges: nat, radial: nat)
    requires 1 <= edges <= 2 && 0 < radial && 1 <= |corner|
    ensures Striped(Layout(corner, smooth, edges, radial), radial, edges)
    ensures forall k :: 0 <= k < radial ==> Layout(corner, smooth, edges, radial)[k] == Slot(0, 0, k, false)
    decreases |corner|
  {
    var n := |corner| - 1;
    var prefix := Layout(corner[..n], smooth, edges, radial);
    var lay := Layout(corner, smooth, edges, radial);
    if n > 0 {
      LayoutStriped(corner[..n], smooth, edges, radial);
    }
    var first := prefix + Ring(n, false, edges, radial);
    AppendRing(prefix, n, false, edges, radial);
    if !smooth && corner[n] {
      AppendRing(first, n, true, edges, radial);
      assert lay[..|first|] == first;
    } else {
      assert lay == first;
    }
    forall k | 0 <= k < radial
      ensures lay[k] == Slot(0, 0, k, false)
    {
      assert lay[k] == first[k];
      if n > 0 {
        assert first[k] == prefix[k];
      } else {
        RingAt(n, false, edges, radial, k);
      }
    }
  }

  predicate SourcedAt(lay: seq<Slot>, corner: seq<bool>, smooth: bool, k: nat)
    requires k < |lay|
  {
    lay[k].source < |corner| && (lay[k].duplicate ==> !smooth && corner[lay[k].source])
  }

  /** Every slot comes from a center point of the curve, and only a corner
      that is not smooth shaded has copies. */
  lemma {:induction false} LayoutSources(corner: seq<bool>, smooth: bool, edges: nat, radial: nat)
    requires 1 <= edges <= 2
    ensures forall k :: 0 <= k < |Layout(corner, smooth, edges, radial)| ==>
              SourcedAt(Layout(corner, smooth, edges, radial), corner, smooth, k)
    decreases |corner|
  {
    if |corner| > 0 {
      var n := |corner| - 1;
      var prefix := Layout(corner[..n], smooth, edges, radial);
      var first := prefix + Ring(n, false, edges, radial);
      var lay := Layout(corner, smooth, edges, radial);
      LayoutSources(corner[..n], smooth, edges, radial);
      assert lay == first + (if !smooth && corner[n] then Ring(n, true, edges, radial) else []);
      forall k | 0 <= k < |lay|
        ensures SourcedAt(lay, corner, smooth, k)
      {
        if k < |prefix| {
          assert lay[k] == prefix[k];
          assert SourcedAt(prefix, corner[..n], smooth, k);
        } else if k < |first| {
          assert lay[k] == first[k];
          RingAt(n, false, edges, radial, k - |prefix|);
        } else {
          RingAt(n, true, edges, radial, k - |first|);
        }
      }
    }
  }
}
