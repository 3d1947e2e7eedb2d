/** Mesh assembly: the stages run in order on a snapshot of the
    configuration, and when they produce no triangle the output falls back
    to a single vertex at the origin and the index triple 0, 0, 0. Whatever
    the input, the engine receives whole triangles over existing vertices. */
module Assembly {
  import opened Records
  import opened Config
  import opened CenterLine
  import opened EdgeVertices
  import opened InitialChains
  import opened Chains
  import opened Interleave
  import opened Filter
  import opened Packing
  import opened Strips
  import opened Tubes
  import opened RingLayout
  import opened TubeRings
  import opened Readiness
  import opened StripRings

  datatype Option<T> = None | Some(value: T)

  /** The output before any stage runs. */
  const NoArrays: MeshArrays := MeshArrays([], [], [], [], [], [])

  /** The vertex the fallback adds: at the origin, normal up, tangent along
      x, zero texture coordinates. */
  const OriginAttrs: Attributes := Attributes(Zero3, Vec3(0.0, 1.0, 0.0), Zero2, Zero2, Vec3(1.0, 0.0, 0.0))

  /** The per-vertex arrays agree: one position, normal and uv per vertex,
      four tangent floats per vertex, and second uvs only when enabled. */
  predicate Consistent(m: MeshArrays, addUv2: bool)
  {
    && |m.normals| == |m.points| && |m.uvs| == |m.points| && |m.tangents| == 4 * |m.points|
    && |m.uv2s| == (if addUv2 then |m.points| else 0)
  }

  /** The index buffer is whole triangles over existing vertices. */
  predicate Triangles(m: MeshArrays)
  {
    |m.indices| % 3 == 0 && forall p :: 0 <= p < |m.indices| ==> 0 <= m.indices[p] < |m.points|
  }

  /** The fallback: one more vertex, at the origin, and the single index
      triple 0, 0, 0 (which names the first vertex of the arrays). */
  function WithFallback(m: MeshArrays, addUv2: bool): (r: MeshArrays)
    requires Consistent(m, addUv2)
    ensures Consistent(r, addUv2) && Triangles(r) && r.indices == [0, 0, 0]
    ensures |r.points| == |m.points| + 1 && r.points[|m.points|] == Zero3 && r.normals[|m.points|] == Vec3(0.0, 1.0, 0.0)
    ensures r.uvs[|m.points|] == Zero2 && r.tangents == m.tangents + [1.0, 0.0, 0.0, 1.0]
    ensures r.points[..|m.points|] == m.points && r.normals[..|m.points|] == m.normals && r.uvs[..|m.points|] == m.uvs
    ensures r.uv2s == if addUv2 then m.uv2s + [Zero2] else m.uv2s
  {
    AddPoint(m, OriginAttrs, addUv2).(indices := [0, 0, 0])
  }

  /** What the walk of the profile needs of the vertex array. */
  ghost predicate WalkReady(ep: seq<EdgePoint>, profile: Profile, radial: nat, rings: nat, orders: seq<seq<int>>,
                            rank: seq<nat>, clock: nat)
  {
    if profile != Tube then StripsReady(ep, orders, radial) else TubeReady(ep, radial, rings, rank, clock)
  }

  /** Interleaving runs only when it is switched on and the profile is not
      a tube. */
  predicate Interleaves(s: Settings)
  {
    s.interleaveVertices && s.profile != Tube
  }

  /** Neither reduction runs. */
  predicate Plain(s: Settings)
  {
    !Interleaves(s) && !s.filterOverlaps
  }

  /** What the reductions make of the freshly built array `built`: `mid`
      after interleaving, `reduced` after overlap filtering. Interleaving
      leaves the chains the reference walk makes of the chains ring
      construction laid out; filtering runs the rounds `rounds` through the
      arrays `passes`. A stage that does not run leaves the array as it
      is. */
  ghost predicate Gated(s: Settings, radial: nat, corner: seq<bool>, scan: seq<EdgePoint> -> set<int>,
                        merge: (Attributes, Attributes) -> Attributes, built: seq<EdgePoint>, mid: seq<EdgePoint>,
                        reduced: seq<EdgePoint>, passes: seq<seq<EdgePoint>>, rounds: seq<Round>)
  {
    var tag := Spokes(Layout(corner, s.smoothShadedCorners, s.Edges(), radial));
    && 0 < radial
    && (if Interleaves(s) then
          && Interleave.Kept(built, mid) && Gone(built, mid, corner)
          && Chained(mid, tag, InterleavedOrders(built, corner, StartOrders(radial, |built|)))
        else mid == built)
    && (if s.filterOverlaps then
          && Filtered(mid, passes, rounds, reduced, corner, scan, merge)
          && Framed(mid, reduced) && SparesCorners(mid, reduced, corner) && LiveCount(reduced) <= LiveCount(mid)
          && Unflagged(reduced)
        else reduced == mid)
  }

  /** The index buffer is the triangles of the walk of the profile over the
      packed array: the strip walk of every chain from its start, or the
      tube walk of every ring. */
  ghost predicate Walked(ep: seq<EdgePoint>, profile: Profile, radial: nat, rings: nat, orders: seq<seq<int>>,
                         rank: seq<nat>, clock: nat, starts: seq<Start>, indices: seq<int>)
  {
    if profile != Tube then
      && StripsReady(ep, orders, radial) && |starts| == radial && Started(ep, orders, starts, radial)
      && Walks(ep, orders, starts, radial) && indices == Emit(ep, AllStrips(ep, orders, starts, radial))
    else
      TubeReady(ep, radial, rings, rank, clock) && indices == Emit(ep, TubeFaces(ep, radial, rings, rank, clock, rings))
  }

  /** One run of the stages: the vertex array as ring construction builds
      it, after interleaving, after filtering and after packing, the
      chains, removal ranks and walk starts the walk used, and the arrays
      and rounds of the filtering loop. */
  datatype Trace = Trace(built: seq<EdgePoint>, mid: seq<EdgePoint>, reduced: seq<EdgePoint>, packed: seq<EdgePoint>,
                         orders: seq<seq<int>>, rank: seq<nat>, clock: nat, starts: seq<Start>,
                         passes: seq<seq<EdgePoint>>, rounds: seq<Round>)

  /** The corner flags ring construction works with: the sampled flag, or
      the curve turning sharply at the point. */
  ghost function SharpCorners(cps0: seq<CenterPoint>, bend: CenterPoint -> bool): seq<bool>
  {
    seq(|cps0|, i requires 0 <= i < |cps0| => cps0[i].cornerPoint || bend(cps0[i]))
  }

  /** `m` is what the stages make of center points `cps0`: `t.built` is the
      array ring construction builds for their corner flags, the reductions
      `s` switches on turn it into `t.reduced`, packing lists its live
      vertices in `m` and renumbers it into `t.packed`, and the walk of the
      profile over `t.packed` gives the index buffer. Without reductions the
      walk starts from the chains ring construction lays out. */
  ghost predicate Assembled(s: Settings, radial: nat, closed: bool, cps0: seq<CenterPoint>, bend: CenterPoint -> bool,
                            shade: Slot -> Attributes, scan: seq<EdgePoint> -> set<int>,
                            merge: (Attributes, Attributes) -> Attributes, t: Trace, m: MeshArrays)
  {
    var corner := SharpCorners(cps0, bend);
    var lay := Layout(corner, s.smoothShadedCorners, s.Edges(), radial);
    && 0 < radial <= |lay|
    && Fresh(t.built, lay, radial, s.Edges(), closed, shade)
    && Gated(s, radial, corner, scan, merge, t.built, t.mid, t.reduced, t.passes, t.rounds)
    && Carries(m, t.reduced, LiveIndices(t.reduced), s.addUv2)
    && Renumbered(t.reduced, t.packed)
    && Walked(t.packed, s.profile, radial, |RingFlags(corner, s.smoothShadedCorners)|, t.orders, t.rank, t.clock, t.starts, m.indices)
    && (Plain(s) ==> t.orders == StartOrders(radial, |t.built|) && |t.rank| == |t.built|)
  }

  /** `cps` are the center points sampling gives: point i of the line, for
      every i. */
  ghost predicate Samples(cps: seq<CenterPoint>, l: Line, measure: (Vec3, Vec3) -> real, direction: (Vec3, Vec3) -> Vec3)
    requires Drawable(l)
  {
    |cps| == |l.p| && forall i :: 0 <= i < |cps| ==> cps[i] == PointAt(l, measure, direction, i)
  }

  /** The curve yields at least two center points, so the stages run. */
  predicate Sampled(mode: TessellationMode, curve: Option<Curve>)
  {
    curve.Some? && |curve.value.control| > 1 && KeptCount(mode, curve.value) >= 2
  }

  /** The mesh arrays of a curve mesh. Without a curve of at least two
      points, or when sampling keeps fewer than two center points, the
      result is exactly the fallback. Otherwise the stages run over the
      sampled center points (`inner`, run `t`) and the fallback is added
      only if they produce no triangle (PlainOutput: without reductions
      they always produce one). The corner test, the vertex geometry, the
      overlap scan and the attribute merge are the floating-point oracles
      `bend`, `shade`, `scan` and `merge`. */
  method CreateMeshArray(mesh: CurveMesh, curve: Option<Curve>, scale0: real, scale1: real,
                         measure: (Vec3, Vec3) -> real, direction: (Vec3, Vec3) -> Vec3,
                         bend: CenterPoint -> bool, shade: (seq<CenterPoint>, real) -> Slot -> Attributes,
                         scan: seq<EdgePoint> -> set<int>, merge: (Attributes, Attributes) -> Attributes)
    returns (m: MeshArrays, ghost inner: MeshArrays, ghost t: Trace, ghost cps: seq<CenterPoint>)
    requires mesh.Valid()
    requires curve.Some? && |curve.value.control| > 1 ==> Sizable(mesh.tessellationMode, curve.value)
    requires Sampled(mesh.tessellationMode, curve) && mesh.filterOverlaps && curve.value.closed ==>
               bend(PointAt(LineOf(mesh.Snapshot(), curve.value, scale0, scale1), measure, direction, 0))
    ensures Consistent(m, mesh.addUv2) && Triangles(m) && |m.indices| >= 3
    ensures Consistent(inner, mesh.addUv2) && Triangles(inner) && m == Finished(inner, mesh.addUv2)
    ensures !Sampled(mesh.tessellationMode, curve) ==> inner == NoArrays && m == WithFallback(NoArrays, mesh.addUv2)
    ensures Sampled(mesh.tessellationMode, curve) ==>
              Produced(mesh.Snapshot(), curve.value, scale0, scale1, measure, direction, bend, shade, scan, merge, cps, t, inner)
  {
    var s := mesh.Snapshot();
    var made := NoArrays;
    t, cps := Trace([], [], [], [], [], [], 0, [], [], []), [];
    if curve.Some? && |curve.value.control| > 1 {
      made, t, cps := Sample(s, curve.value, scale0, scale1, measure, direction, bend, shade, scan, merge);
    }
    inner := made;
    m := Finished(made, s.addUv2);
    assert s == mesh.Snapshot();
  }

  /** The output the engine receives: the arrays the stages made when they
      hold a triangle, otherwise those arrays with the fallback added. */
  function Finished(m: MeshArrays, addUv2: bool): (r: MeshArrays)
    requires Consistent(m, addUv2) && Triangles(m)
    ensures Consistent(r, addUv2) && Triangles(r) && |r.indices| >= 3
    ensures |m.indices| > 0 ==> r == m
    ensures |m.indices| == 0 ==> r == WithFallback(m, addUv2)
  {
    if |m.indices| > 0 then m else WithFallback(m, addUv2)
  }

  /** `m` is the surface, run `t`, over the center points `cps` that
      sampling the curve gives. */
  ghost predicate Produced(s: Settings, c: Curve, scale0: real, scale1: real,
                           measure: (Vec3, Vec3) -> real, direction: (Vec3, Vec3) -> Vec3, bend: CenterPoint -> bool,
                           shade: (seq<CenterPoint>, real) -> Slot -> Attributes, scan: seq<EdgePoint> -> set<int>,
                           merge: (Attributes, Attributes) -> Attributes, cps: seq<CenterPoint>, t: Trace, m: MeshArrays)
    requires s.Valid() && Sizable(s.tessellationMode, c) && KeptCount(s.tessellationMode, c) >= 2
  {
    var l := LineOf(s, c, scale0, scale1);
    && Samples(cps, l, measure, direction)
    && Assembled(s, s.Radial(), c.closed, cps, bend, shade(cps, TotalLength(l, measure, direction)), scan, merge, t, m)
    && Consistent(m, s.addUv2)
  }

  /** Sampling of the center line and, when it yields at least two center
      points, the surface over them; otherwise no arrays. */
  method Sample(s: Settings, c: Curve, scale0: real, scale1: real,
                measure: (Vec3, Vec3) -> real, direction: (Vec3, Vec3) -> Vec3,
                bend: CenterPoint -> bool, shade: (seq<CenterPoint>, real) -> Slot -> Attributes,
                scan: seq<EdgePoint> -> set<int>, merge: (Attributes, Attributes) -> Attributes)
    returns (m: MeshArrays, ghost t: Trace, ghost cps: seq<CenterPoint>)
    requires s.Valid() && Sizable(s.tessellationMode, c)
    requires KeptCount(s.tessellationMode, c) >= 2 && s.filterOverlaps && c.closed ==>
               bend(PointAt(LineOf(s, c, scale0, scale1), measure, direction, 0))
    ensures KeptCount(s.tessellationMode, c) < 2 ==> m == NoArrays
    ensures KeptCount(s.tessellationMode, c) >= 2 ==>
              Produced(s, c, scale0, scale1, measure, direction, bend, shade, scan, merge, cps, t, m) && Triangles(m)
  {
    m := NoArrays;
    t := Trace([], [], [], [], [], [], 0, [], [], []);
    var points, length := GenerateCurvePoints(s, c, scale0, scale1, measure, direction);
    cps := points;
    if |points| >= 2 {
      m, t := Surface(s, s.Radial(), c.closed, points, bend, shade(points, length), scan, merge);
    }
  }

  /** Without reductions the stages always produce a triangle, so the
      output is their arrays unchanged, with 6R(P - 1) indices over P
      center points of an open curve and 6RP over a closed one. */
  lemma PlainOutput(s: Settings, c: Curve, scale0: real, scale1: real,
                    measure: (Vec3, Vec3) -> real, direction: (Vec3, Vec3) -> Vec3, bend: CenterPoint -> bool,
                    shade: (seq<CenterPoint>, real) -> Slot -> Attributes, scan: seq<EdgePoint> -> set<int>,
                    merge: (Attributes, Attributes) -> Attributes, cps: seq<CenterPoint>, t: Trace, m: MeshArrays)
    requires s.Valid() && Sizable(s.tessellationMode, c) && KeptCount(s.tessellationMode, c) >= 2
    requires Produced(s, c, scale0, scale1, measure, direction, bend, shade, scan, merge, cps, t, m) && Triangles(m) && Plain(s)
    ensures |m.indices| == Sixfold(s.Radial(), Junctions(KeptCount(s.tessellationMode, c), c.closed)) > 0
    ensures Finished(m, s.addUv2) == m
  {
    var l := LineOf(s, c, scale0, scale1);
    AssembledCount(s, s.Radial(), c.closed, cps, bend, shade(cps, TotalLength(l, measure, direction)), scan, merge, t, m);
    assert |cps| == KeptCount(s.tessellationMode, c);
  }

  /** The junctions between consecutive rings of `points` center points:
      one after every point of a closed curve, one fewer on an open one. */
  function Junctions(points: nat, closed: bool): (j: nat)
    ensures points >= 2 ==> j >= 1
  {
    if closed then points else if points == 0 then 0 else points - 1
  }

  /** The index count of a surface without reductions: six indices, two
      triangles, per spoke and per junction between consecutive rings. */
  function Sixfold(radial: nat, junctions: nat): (n: nat)
    ensures 0 < radial && 0 < junctions ==> n > 0
  {
    if junctions == 0 then 0 else Sixfold(radial, junctions - 1) + 6 * radial
  }

  /** The count in closed form: 6 * radial * junctions. */
  lemma {:induction false} SixfoldIs(radial: nat, junctions: nat)
    ensures Sixfold(radial, junctions) == 6 * radial * junctions
  {
    if junctions > 0 {
      SixfoldIs(radial, junctions - 1);
    }
  }

  /** Ring construction, the optional reductions and triangle generation
      over center points `cps0`. */
  method Surface(s: Settings, radial: nat, closed: bool, cps0: seq<CenterPoint>, bend: CenterPoint -> bool,
                 shade: Slot -> Attributes, scan: seq<EdgePoint> -> set<int>, merge: (Attributes, Attributes) -> Attributes)
    returns (m: MeshArrays, ghost t: Trace)
    requires s.Valid() && radial == s.Radial() && |cps0| >= 2
    requires s.filterOverlaps ==> cps0[0].cornerPoint || bend(cps0[0])
    ensures Consistent(m, s.addUv2) && Triangles(m)
    ensures Assembled(s, radial, closed, cps0, bend, shade, scan, merge, t, m)
  {
    var a, corner := Build(s, radial, closed, cps0, bend, shade);
    ghost var ep := a[..];
    ghost var mid, passes, rounds, orders, rank, clock := Reduce(a, s, closed, corner, radial, s.Edges(), shade, scan, merge);
    ghost var reduced := a[..];
    ghost var rings := |RingFlags(corner, s.smoothShadedCorners)|;
    ghost var starts;
    m, starts := Triangulate(a, s.profile, radial, s.addUv2, rings, orders, rank, clock);
    t := Trace(ep, mid, reduced, a[..], orders, rank, clock, starts, passes, rounds);
  }

  /** A surface assembled without reductions has six indices per spoke and
      per junction: 6R(P - 1) over P center points of an open curve and
      6RP over a closed one. */
  lemma AssembledCount(s: Settings, radial: nat, closed: bool, cps0: seq<CenterPoint>, bend: CenterPoint -> bool,
                       shade: Slot -> Attributes, scan: seq<EdgePoint> -> set<int>,
                       merge: (Attributes, Attributes) -> Attributes, t: Trace, m: MeshArrays)
    requires |cps0| >= 2 && Assembled(s, radial, closed, cps0, bend, shade, scan, merge, t, m) && Plain(s)
    ensures |m.indices| == Sixfold(radial, Junctions(|cps0|, closed)) > 0
  {
    var corner := SharpCorners(cps0, bend);
    PlainCount(t.built, t.packed, corner, s.smoothShadedCorners, s.profile, radial, closed, shade,
               t.orders, t.rank, t.clock, t.starts, m.indices);
  }

  /** Ring construction: the corner flags of the center points, and the
      fresh ring vertices laid out over them in a new array. */
  method Build(s: Settings, radial: nat, closed: bool, cps0: seq<CenterPoint>, bend: CenterPoint -> bool,
               shade: Slot -> Attributes)
    returns (a: array<EdgePoint>, corner: seq<bool>)
    requires s.Valid() && radial == s.Radial() && |cps0| >= 2
    ensures fresh(a) && corner == SharpCorners(cps0, bend)
    ensures var lay := Layout(corner, s.smoothShadedCorners, s.Edges(), radial);
            0 < radial <= |lay| && Fresh(a[..], lay, radial, s.Edges(), closed, shade)
  {
    var edges := s.Edges();
    var sharp := seq(|cps0|, i requires 0 <= i < |cps0| => bend(cps0[i]));
    var cps, ep := GenerateEdgeVertices(cps0, sharp, s.smoothShadedCorners, closed, edges, radial, shade);
    corner := Corners(cps);
    assert corner == SharpCorners(cps0, bend);
    ghost var lay := Layout(corner, s.smoothShadedCorners, edges, radial);
    assert Fresh(ep, lay, radial, edges, closed, shade);
    a := new EdgePoint[|ep|](i requires 0 <= i < |ep| => ep[i]);
    assert a[..] == ep;
  }

  /** Without reductions, the walk over the packed array emits six indices
      per spoke between every ring and the ring after it where the surface
      goes on: 6R(P - 1) over P center points of an open curve and 6RP over
      a closed one, corner copies or not. */
  lemma PlainCount(built: seq<EdgePoint>, packed: seq<EdgePoint>, corner: seq<bool>, smooth: bool, profile: Profile,
                   radial: nat, closed: bool, shade: Slot -> Attributes, orders: seq<seq<int>>, rank: seq<nat>, clock: nat,
                   starts: seq<Start>, indices: seq<int>)
    requires 0 < radial && 1 <= |corner| && radial <= |Layout(corner, smooth, EdgeCount(profile), radial)|
    requires Fresh(built, Layout(corner, smooth, EdgeCount(profile), radial), radial, EdgeCount(profile), closed, shade)
    requires Renumbered(built, packed) && orders == StartOrders(radial, |built|) && |rank| == |built|
    requires Walked(packed, profile, radial, |RingFlags(corner, smooth)|, orders, rank, clock, starts, indices)
    ensures |indices| == Sixfold(radial, Junctions(|corner|, closed))
  {
    var rings := |RingFlags(corner, smooth)|;
    var open := if closed then 0 else 1;
    assert Junctions(|corner|, closed) == |corner| - open;
    if profile != Tube {
      assert EdgeCount(profile) == 2 && |packed| == |built|;
      PackedStripTotal(built, packed, corner, smooth, radial, closed, shade, starts);
      Triple(|AllStrips(packed, orders, starts, radial)|, radial, |corner| - open);
    } else {
      PackedTubeTotal(built, packed, corner, smooth, radial, closed, shade, rank, clock);
      Triple(|TubeFaces(packed, radial, rings, rank, clock, rings)|, radial, |corner| - open);
    }
  }

  lemma Triple(faces: int, radial: nat, junctions: nat)
    requires faces == 2 * radial * junctions
    ensures 3 * faces == Sixfold(radial, junctions)
  {
    SixfoldIs(radial, junctions);
  }

  /** The optional reductions: interleaving (not on tubes), then overlap
      filtering, each only when switched on. Either way the array is left
      ready for the walk of its profile; without reductions the array and
      the chains are those ring construction laid out. */
  method Reduce(a: array<EdgePoint>, s: Settings, closed: bool, corner: seq<bool>, radial: nat, edges: nat,
                shade: Slot -> Attributes, scan: seq<EdgePoint> -> set<int>, merge: (Attributes, Attributes) -> Attributes)
    returns (ghost mid: seq<EdgePoint>, ghost passes: seq<seq<EdgePoint>>, ghost rounds: seq<Round>,
             ghost orders: seq<seq<int>>, ghost rank: seq<nat>, ghost clock: nat)
    modifies a
    requires s.Valid() && radial == s.Radial() && edges == s.Edges() && 1 <= |corner|
    requires s.filterOverlaps ==> corner[0]
    requires var lay := Layout(corner, s.smoothShadedCorners, edges, radial);
             radial <= |lay| && Fresh(a[..], lay, radial, edges, closed, shade)
    ensures WalkReady(a[..], s.profile, radial, |RingFlags(corner, s.smoothShadedCorners)|, orders, rank, clock)
    ensures Gated(s, radial, corner, scan, merge, old(a[..]), mid, a[..], passes, rounds)
    ensures Plain(s) ==> orders == StartOrders(radial, a.Length) && |rank| == a.Length
  {
    ghost var smooth := s.smoothShadedCorners;
    ghost var lay := Layout(corner, smooth, edges, radial);
    ghost var ep := a[..];
    ghost var tag := Spokes(lay);
    mid, passes, rounds := ep, [], [];
    orders, rank, clock := StartOrders(radial, |ep|), seq(|ep|, k => 0), 0;
    StartChained(ep, corner, smooth, radial, edges, closed, shade);
    FreshSourced(ep, corner, smooth, radial, edges, closed, shade);
    if s.filterOverlaps {
      FreshRooted(ep, corner, smooth, radial, edges, closed, shade);
    }
    if Interleaves(s) {
      forall j | 0 <= j < radial
        ensures Headed(orders[j], j)
      {
        StartHeaded(radial, |ep|, j);
      }
      ghost var orders0 := orders;
      orders, rank, clock := InterleaveEdgeVertices(a, corner, radial, tag, orders, rank, clock);
      InterleavedAll(ep, corner, orders0, orders);
      mid := a[..];
      if s.filterOverlaps {
        KeptRooted(ep, a[..], tag, corner, radial, edges);
      }
    } else if s.profile != Tube {
      forall j | 0 <= j < radial
        ensures Headed(orders[j], j)
      {
        StartHeaded(radial, |ep|, j);
      }
    }
    if s.filterOverlaps {
      passes, rounds, orders, rank, clock := FilterOverlappingVertices(a, corner, radial, scan, merge, edges, tag, orders, rank, clock);
    }
    if s.profile != Tube {
      if s.filterOverlaps {
        RootedReady(a[..], tag, corner, orders, radial);
      } else {
        HeadedReady(a[..], tag, orders, radial);
      }
    } else if s.filterOverlaps {
      LayoutBlocks(corner, smooth, 1, radial);
      LayoutSpoked(corner, smooth, radial);
      ChainedTubeReady(a[..], tag, orders, radial, |RingFlags(corner, smooth)|, rank, clock);
    } else {
      FreshTubeTotal(ep, corner, smooth, radial, closed, shade, rank, clock);
    }
  }

  /** Every index is one of `count` output slots, three per triangle. */
  predicate IndexTriples(indices: seq<int>, count: nat)
  {
    |indices| % 3 == 0 && forall p :: 0 <= p < |indices| ==> 0 <= indices[p] < count
  }

  /** Every live vertex has one of `count` output slots. */
  ghost predicate Packed(ep: seq<EdgePoint>, count: nat)
  {
    forall k :: 0 <= k < |ep| && !ep[k].removed ==> 0 <= ep[k].source < count
  }

  /** Triangle generation: pack the live vertices into the vertex arrays,
      then walk the chains of the profile over the packed array. Every
      index it emits names a packed vertex. */
  method Triangulate(a: array<EdgePoint>, profile: Profile, radial: nat, addUv2: bool, ghost rings: nat,
                     ghost orders: seq<seq<int>>, ghost rank: seq<nat>, ghost clock: nat)
    returns (m: MeshArrays, ghost starts: seq<Start>)
    modifies a
    requires WalkReady(a[..], profile, radial, rings, orders, rank, clock)
    ensures Consistent(m, addUv2) && Triangles(m)
    ensures Carries(m, old(a[..]), LiveIndices(old(a[..])), addUv2) && Renumbered(old(a[..]), a[..])
    ensures Walked(a[..], profile, radial, rings, orders, rank, clock, starts, m.indices)
  {
    ghost var ep0 := a[..];
    starts := [];
    var packed := PackVertices(a, addUv2);
    var ep := a[..];
    var indices;
    if profile != Tube {
      RenumberedStrips(ep0, ep, orders, radial);
      indices, starts := StripIndices(ep, radial, orders, |packed.points|);
      assert Walked(ep, profile, radial, rings, orders, rank, clock, starts, indices);
    } else {
      RenumberedTube(ep0, ep, radial, rings, rank, clock);
      indices := TubeIndices(ep, radial, rings, rank, clock, |packed.points|);
      assert Walked(ep, profile, radial, rings, orders, rank, clock, starts, indices);
    }
    m := packed.(indices := indices);
    CarriesIndices(packed, ep0, LiveIndices(ep0), addUv2, indices);
  }

  /** The vertex arrays do not depend on the index buffer. */
  lemma CarriesIndices(m: MeshArrays, ep: seq<EdgePoint>, l: seq<nat>, addUv2: bool, indices: seq<int>)
    requires Carries(m, ep, l, addUv2)
    ensures Carries(m.(indices := indices), ep, l, addUv2)
  {
    var m' := m.(indices := indices);
    forall r | 0 <= r < |l|
      ensures l[r] < |ep| && CarriesAt(m', ep[l[r]].attrs, r, addUv2)
    {
      assert CarriesAt(m, ep[l[r]].attrs, r, addUv2);
    }
  }

  /** The strip walk emits whole triangles over packed vertices: the faces
      of the walk of every chain, in chain order. */
  method StripIndices(ep: seq<EdgePoint>, radial: nat, ghost orders: seq<seq<int>>, ghost count: nat)
    returns (indices: seq<int>, ghost starts: seq<Start>)
    requires StripsReady(ep, orders, radial) && Packed(ep, count)
    ensures IndexTriples(indices, count)
    ensures |starts| == radial && Started(ep, orders, starts, radial) && Walks(ep, orders, starts, radial)
    ensures indices == Emit(ep, AllStrips(ep, orders, starts, radial))
  {
    indices, starts := StripTriangles(ep, radial, orders, []);
    ghost var faces := AllStrips(ep, orders, starts, radial);
    AllStripsLive(ep, orders, starts, radial);
    assert indices == Emit(ep, faces);
    EmitTriples(ep, faces, count, indices);
  }

  /** The tube walk emits whole triangles over packed vertices: the faces
      of every ring, in ring order. */
  method TubeIndices(ep: seq<EdgePoint>, radial: nat, ghost rings: nat, ghost rank: seq<nat>, ghost clock: nat,
                     ghost count: nat)
    returns (indices: seq<int>)
    requires TubeReady(ep, radial, rings, rank, clock) && Packed(ep, count)
    ensures IndexTriples(indices, count)
    ensures indices == Emit(ep, TubeFaces(ep, radial, rings, rank, clock, rings))
  {
    indices := TubeTriangles(ep, radial, rings, rank, clock, []);
    ghost var faces := TubeFaces(ep, radial, rings, rank, clock, rings);
    assert indices == Emit(ep, faces);
    EmitTriples(ep, faces, count, indices);
  }

  /** The index buffer of faces over packed vertices is whole triangles
      over the packed slots. */
  lemma EmitTriples(ep: seq<EdgePoint>, faces: seq<Face>, count: nat, indices: seq<int>)
    requires LiveFaces(ep, faces) && Packed(ep, count) && indices == Emit(ep, faces)
    ensures IndexTriples(indices, count)
  {
    EmitBounded(ep, faces, count);
  }
}
