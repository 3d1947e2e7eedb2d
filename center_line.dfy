/** The centerline sampler: turns the samples a curve resource yields into
    center points carrying tangents, cumulative arc length and the
    open-end corner flags. Lengths and unit directions between points are
    floating-point geometry and are supplied by the caller as `measure` and
    `direction`. */
module CenterLine {
  import opened Records
  import opened Config

  /** One sample of the curve resource: a position and its tilt. */
  datatype Sample = Sample(position: Vec3, tilt: real)

  /** What the curve resource yields: whether it is closed, its control
      points, its baked polyline, and its adaptive tessellation at the
      configured tolerance. */
  datatype Curve = Curve(closed: bool, control: seq<Sample>, baked: seq<Sample>, adaptive: seq<Vec3>)

  /** The samples a tessellation mode reads; adaptive samples carry no tilt. */
  function Sampled(mode: TessellationMode, c: Curve): (r: seq<Sample>)
    ensures mode == Adaptive ==>
              |r| == |c.adaptive| &&
              forall i :: 0 <= i < |r| ==> r[i].position == c.adaptive[i] && r[i].tilt == 0.0
  {
    match mode
    case Baked => c.baked
    case Adaptive => seq(|c.adaptive|, i requires 0 <= i < |c.adaptive| => Sample(c.adaptive[i], 0.0))
    case Disabled => c.control
  }

  /** How many samples become center points: a closed curve's duplicate
      closing sample is dropped in the baked and adaptive modes, never when
      the raw control points are used. */
  function KeptCount(mode: TessellationMode, c: Curve): (n: int)
    ensures mode == Disabled ==> n == |c.control|
    ensures mode == Baked ==> n == |c.baked| - (if c.closed then 1 else 0)
    ensures mode == Adaptive ==> n == |c.adaptive| - (if c.closed then 1 else 0)
  {
    if mode != Disabled && c.closed then |Sampled(mode, c)| - 1 else |Sampled(mode, c)|
  }

  /** The source cannot size the point list when a closed curve yields no
      baked or adaptive sample at all; the host never does that. */
  predicate Sizable(mode: TessellationMode, c: Curve)
  {
    KeptCount(mode, c) >= 0
  }

  /** Positions of the kept samples. */
  function Kept(mode: TessellationMode, c: Curve): (p: seq<Vec3>)
    requires Sizable(mode, c)
    ensures |p| == KeptCount(mode, c)
  {
    var smp := Sampled(mode, c);
    seq(KeptCount(mode, c), i requires 0 <= i < KeptCount(mode, c) => smp[i].position)
  }

  /** Whether the ends are pushed outward (only on open curves). */
  predicate Extends(s: Settings, closed: bool)
  {
    s.extendEdges && !closed
  }

  /** How far one end is pushed outward: half the width scaled by the width
      curve's sample at that end (`scale` is 1 without a width curve). */
  function ExtraWidth(s: Settings, closed: bool, scale: real): (e: real)
    ensures !Extends(s, closed) ==> e == 0.0
  {
    if Extends(s, closed) then s.width * 0.5 * scale else 0.0
  }

  /** The sampler's inputs once the samples are read: kept positions and
      tilts, whether the curve is closed, whether the ends are pushed
      outward and by how much at each end. */
  datatype Line = Line(p: seq<Vec3>, tilts: seq<real>, closed: bool, ext: bool, e0: real, e1: real)

  function LineOf(s: Settings, c: Curve, scale0: real, scale1: real): (l: Line)
    requires Sizable(s.tessellationMode, c)
    ensures |l.p| == |l.tilts| == KeptCount(s.tessellationMode, c)
    ensures l.ext == Extends(s, c.closed) && l.closed == c.closed
    ensures forall i :: 0 <= i < |l.tilts| ==> l.tilts[i] == Sampled(s.tessellationMode, c)[i].tilt
  {
    var smp := Sampled(s.tessellationMode, c);
    var n := KeptCount(s.tessellationMode, c);
    Line(Kept(s.tessellationMode, c), seq(n, i requires 0 <= i < n => smp[i].tilt), c.closed,
         Extends(s, c.closed), ExtraWidth(s, c.closed, scale0), ExtraWidth(s, c.closed, scale1))
  }

  /** The point list right after it is sized: default records carrying the
      kept samples' positions and tilts. */
  function Seeded(l: Line): (cps: seq<CenterPoint>)
    requires |l.p| == |l.tilts|
    ensures |cps| == |l.p|
    ensures forall k :: 0 <= k < |cps| ==> cps[k] == DefaultCenterPoint().(position := l.p[k], tilt := l.tilts[k])
  {
    seq(|l.p|, k requires 0 <= k < |l.p| => DefaultCenterPoint().(position := l.p[k], tilt := l.tilts[k]))
  }

  /** A line the sampler measures: at least two points. */
  predicate Drawable(l: Line)
  {
    |l.p| == |l.tilts| >= 2
  }

  /** Where point k is when the segment lengths are measured: the first point
      is already pushed back along its outgoing direction, the last one is
      not yet pushed forward. */
  function MeasuredAt(l: Line, direction: (Vec3, Vec3) -> Vec3, k: nat): Vec3
    requires Drawable(l) && k < |l.p|
  {
    if k == 0 && l.ext then l.p[0].Minus(direction(l.p[0], l.p[1]).Times(l.e0)) else l.p[k]
  }

  /** Distance covered from the first measured point to point k. */
  function Travel(l: Line, measure: (Vec3, Vec3) -> real, direction: (Vec3, Vec3) -> Vec3, k: nat): real
    requires Drawable(l) && k < |l.p|
  {
    if k == 0 then 0.0
    else Travel(l, measure, direction, k - 1) + measure(MeasuredAt(l, direction, k - 1), MeasuredAt(l, direction, k))
  }

  /** Cumulative length at point i: 0 at the start, then the start extension
      plus the distance covered, and the end extension at the last point. */
  function ArcLength(l: Line, measure: (Vec3, Vec3) -> real, direction: (Vec3, Vec3) -> Vec3, i: nat): real
    requires Drawable(l) && i < |l.p|
  {
    if i == 0 then 0.0
    else if i < |l.p| - 1 then l.e0 + Travel(l, measure, direction, i)
    else l.e0 + Travel(l, measure, direction, i) + l.e1
  }

  ghost predicate NonNegativeMeasure(measure: (Vec3, Vec3) -> real)
  {
    forall a, b :: measure(a, b) >= 0.0
  }

  lemma {:induction false} TravelMonotone(l: Line, measure: (Vec3, Vec3) -> real, direction: (Vec3, Vec3) -> Vec3,
                                          a: nat, b: nat)
    requires Drawable(l) && NonNegativeMeasure(measure) && a <= b < |l.p|
    ensures 0.0 <= Travel(l, measure, direction, a) <= Travel(l, measure, direction, b)
    decreases b
  {
    if b > 0 {
      if a < b {
        TravelMonotone(l, measure, direction, a, b - 1);
      } else {
        TravelMonotone(l, measure, direction, a - 1, b - 1);
      }
    }
  }

  /** The center point produced at index i of a line with at least two
      points: arc length from `ArcLength`, the incoming tangent measured from
      the previous point as it stands when lengths are measured, the outgoing
      tangent towards the next point, the seam direction at both ends of a
      closed curve, equal tangents at the ends of an open curve, corners
      exactly at the two ends of an open curve, and the last point pushed
      forward along its outgoing tangent when the ends are extended. */
  function PointAt(l: Line, measure: (Vec3, Vec3) -> real, direction: (Vec3, Vec3) -> Vec3, i: nat): (r: CenterPoint)
    requires Drawable(l) && i < |l.p|
    ensures r.tilt == l.tilts[i] && r.partialLength == ArcLength(l, measure, direction, i)
    ensures r.cornerPoint <==> !l.closed && (i == 0 || i == |l.p| - 1)
  {
    var n := |l.p|;
    if i == 0 then
      var next := direction(l.p[0], l.p[1]);
      DefaultCenterPoint().(position := MeasuredAt(l, direction, 0), tilt := l.tilts[0],
                            tangentNext := next, tangentPrev := if l.closed then direction(l.p[n - 1], l.p[0]) else next,
                            cornerPoint := !l.closed)
    else if i < n - 1 then
      InteriorPoint(l, measure, direction, i)
    else
      var prev := direction(MeasuredAt(l, direction, n - 2), l.p[n - 1]);
      var next := if l.closed then direction(l.p[n - 1], l.p[0]) else prev;
      DefaultCenterPoint().(position := if l.ext then l.p[n - 1].Plus(next.Times(l.e1)) else l.p[n - 1],
                            tilt := l.tilts[i], partialLength := ArcLength(l, measure, direction, i),
                            tangentPrev := prev, tangentNext := next, cornerPoint := !l.closed)
  }

  /** An interior center point: it keeps its sample's position, and its
      incoming tangent is measured from the previous point as it stands when
      lengths are measured. */
  function InteriorPoint(l: Line, measure: (Vec3, Vec3) -> real, direction: (Vec3, Vec3) -> Vec3, i: nat): (r: CenterPoint)
    requires Drawable(l) && 0 < i < |l.p| - 1
  {
    DefaultCenterPoint().(position := l.p[i], tilt := l.tilts[i], partialLength := ArcLength(l, measure, direction, i),
                          tangentPrev := direction(MeasuredAt(l, direction, i - 1), l.p[i]),
                          tangentNext := direction(l.p[i], l.p[i + 1]))
  }

  /** The total length: the arc length at the last point plus, on a closed
      curve, the closing segment back to the first point. */
  function TotalLength(l: Line, measure: (Vec3, Vec3) -> real, direction: (Vec3, Vec3) -> Vec3): real
    requires Drawable(l)
  {
    var n := |l.p|;
    ArcLength(l, measure, direction, n - 1) + (if l.closed then measure(l.p[n - 1], l.p[0]) else 0.0)
  }

  /** With non-negative lengths and end extensions, the arc length is 0 at
      the first point, never decreases along the curve and never exceeds the
      total length. */
  lemma ArcLengthMonotone(l: Line, measure: (Vec3, Vec3) -> real, direction: (Vec3, Vec3) -> Vec3, i: nat, j: nat)
    requires Drawable(l) && NonNegativeMeasure(measure) && l.e0 >= 0.0 && l.e1 >= 0.0
    requires i <= j < |l.p|
    ensures PointAt(l, measure, direction, 0).partialLength == 0.0
    ensures 0.0 <= PointAt(l, measure, direction, i).partialLength <= PointAt(l, measure, direction, j).partialLength
    ensures PointAt(l, measure, direction, j).partialLength <= TotalLength(l, measure, direction)
  {
    TravelMonotone(l, measure, direction, i, j);
    TravelMonotone(l, measure, direction, j, |l.p| - 1);
  }

  /** The interior pass of the sampler: point i (0 < i < n - 1) receives the
      arc length accumulated so far and its two tangents; the ends are left
      as they are. */
  method MeasureInterior(l: Line, measure: (Vec3, Vec3) -> real, direction: (Vec3, Vec3) -> Vec3,
                         cps0: seq<CenterPoint>, total0: real)
    returns (cps: seq<CenterPoint>, total: real)
    requires Drawable(l) && |cps0| == |l.p|
    requires cps0[0].position == MeasuredAt(l, direction, 0) && total0 == l.e0
    requires forall k :: 0 < k < |l.p| ==> cps0[k] == DefaultCenterPoint().(position := l.p[k], tilt := l.tilts[k])
    ensures |cps| == |cps0| && cps[0] == cps0[0] && cps[|cps| - 1] == cps0[|cps| - 1]
    ensures forall k :: 0 < k < |cps| - 1 ==> cps[k] == InteriorPoint(l, measure, direction, k)
    ensures total == l.e0 + Travel(l, measure, direction, |cps| - 2)
  {
    var n := |cps0|;
    cps, total := cps0, total0;
    var i := 1;
    while i < n - 1
      invariant 1 <= i <= n - 1 && |cps| == n
      invariant total == l.e0 + Travel(l, measure, direction, i - 1)
      invariant cps[0] == cps0[0]
      invariant forall k :: 0 < k < i ==> cps[k] == InteriorPoint(l, measure, direction, k)
      invariant forall k :: i <= k < n ==> cps[k] == cps0[k]
    {
      var prevLength := measure(cps[i - 1].position, cps[i].position);
      var prevDir := direction(cps[i - 1].position, cps[i].position);
      var nextDir := direction(cps[i].position, cps[i + 1].position);
      total := total + prevLength;
      cps := cps[i := cps[i].(partialLength := total, tangentPrev := prevDir, tangentNext := nextDir)];
      i := i + 1;
    }
  }

  /** The first point of the sampler: both tangents (the incoming one is the
      seam direction on a closed curve), arc length 0, and the push-back
      of an extended open end. */
  method MeasureStart(l: Line, measure: (Vec3, Vec3) -> real, direction: (Vec3, Vec3) -> Vec3,
                      cps0: seq<CenterPoint>, extra: real)
    returns (cps: seq<CenterPoint>, total: real)
    requires Drawable(l) && |cps0| == |l.p| && extra == l.e0 && (l.closed ==> !l.ext) && (!l.ext ==> l.e0 == 0.0)
    requires forall k :: 0 <= k < |l.p| ==> cps0[k] == DefaultCenterPoint().(position := l.p[k], tilt := l.tilts[k])
    ensures |cps| == |cps0| && cps[0] == PointAt(l, measure, direction, 0).(cornerPoint := false)
    ensures forall k :: 0 < k < |cps| ==> cps[k] == cps0[k]
    ensures total == l.e0
  {
    var n := |cps0|;
    cps := cps0;
    var nextDir := direction(cps[0].position, cps[1].position);
    var prevDir := nextDir;
    if l.closed {
      prevDir := direction(cps[n - 1].position, cps[0].position);
    }
    cps := cps[0 := cps[0].(tangentPrev := prevDir, tangentNext := nextDir)];
    total := 0.0;
    cps := cps[0 := cps[0].(partialLength := total)];
    if l.ext {
      cps := cps[0 := cps[0].(position := cps[0].position.Minus(nextDir.Times(extra)))];
      total := total + extra;
    }
  }

  /** The last point of the sampler: its arc length, its incoming tangent,
      the seam direction and closing segment of a closed curve, and the
      push-forward of an extended open end. */
  method MeasureEnd(l: Line, measure: (Vec3, Vec3) -> real, direction: (Vec3, Vec3) -> Vec3,
                    cps0: seq<CenterPoint>, total0: real, extra: real)
    returns (cps: seq<CenterPoint>, total: real)
    requires Drawable(l) && |cps0| == |l.p| && extra == l.e1 && (l.closed ==> !l.ext) && (!l.ext ==> l.e1 == 0.0)
    requires cps0[|l.p| - 2].position == MeasuredAt(l, direction, |l.p| - 2) && cps0[0].position == MeasuredAt(l, direction, 0)
    requires cps0[|l.p| - 1] == DefaultCenterPoint().(position := l.p[|l.p| - 1], tilt := l.tilts[|l.p| - 1])
    requires total0 == l.e0 + Travel(l, measure, direction, |l.p| - 2)
    ensures |cps| == |cps0| && cps[|cps| - 1] == PointAt(l, measure, direction, |cps| - 1).(cornerPoint := false)
    ensures forall k :: 0 <= k < |cps| - 1 ==> cps[k] == cps0[k]
    ensures total == TotalLength(l, measure, direction)
  {
    var n := |cps0|;
    cps := cps0;
    var prevLength := measure(cps[n - 2].position, cps[n - 1].position);
    var prevDir := direction(cps[n - 2].position, cps[n - 1].position);
    var nextDir := prevDir;
    total := total0 + prevLength;
    cps := cps[n - 1 := cps[n - 1].(partialLength := total)];
    if l.closed {
      var extraLength := measure(cps[n - 1].position, cps[0].position);
      nextDir := direction(cps[n - 1].position, cps[0].position);
      total := total + extraLength;
    }
    cps := cps[n - 1 := cps[n - 1].(tangentPrev := prevDir, tangentNext := nextDir)];
    if l.ext {
      cps := cps[n - 1 := cps[n - 1].(position := cps[n - 1].position.Plus(nextDir.Times(extra)))];
      total := total + extra;
      cps := cps[n - 1 := cps[n - 1].(partialLength := cps[n - 1].partialLength + extra)];
    }
  }

  /** Samples the curve into center points. With fewer than two kept samples
      the points keep their defaults and the length is 0 (the caller then
      produces no geometry); otherwise point i is `PointAt(i)` and the
      length is `TotalLength`. */
  method GenerateCurvePoints(s: Settings, c: Curve, scale0: real, scale1: real,
                             measure: (Vec3, Vec3) -> real, direction: (Vec3, Vec3) -> Vec3)
    returns (cps: seq<CenterPoint>, total: real)
    requires Sizable(s.tessellationMode, c)
    ensures |cps| == KeptCount(s.tessellationMode, c)
    ensures |cps| < 2 ==> total == 0.0 && cps == Seeded(LineOf(s, c, scale0, scale1))
    ensures |cps| >= 2 ==>
      && (forall i :: 0 <= i < |cps| ==> cps[i] == PointAt(LineOf(s, c, scale0, scale1), measure, direction, i))
      && total == TotalLength(LineOf(s, c, scale0, scale1), measure, direction)
    ensures |cps| >= 2 && !c.closed ==>
      cps[0].cornerPoint && cps[|cps| - 1].cornerPoint && cps[0].tangentPrev == cps[0].tangentNext &&
      cps[|cps| - 1].tangentPrev == cps[|cps| - 1].tangentNext
    ensures |cps| >= 2 && c.closed ==>
      (forall i :: 0 <= i < |cps| ==> !cps[i].cornerPoint) && cps[|cps| - 1].tangentNext == cps[0].tangentPrev
  {
    var l := LineOf(s, c, scale0, scale1);
    var n := |l.p|;
    cps := Seeded(l);
    if n < 2 {
      total := 0.0;
      return;
    }
    var extendEnds := s.extendEdges && !c.closed;
    var extra0 := if extendEnds then s.width * 0.5 * scale0 else 0.0;
    var extra1 := if extendEnds then s.width * 0.5 * scale1 else 0.0;
    cps, total := MeasureLine(l, measure, direction, cps, extra0, extra1);
    PointAtEnds(l, measure, direction);
  }

  /** The measuring passes over a line of at least two points. */
  method MeasureLine(l: Line, measure: (Vec3, Vec3) -> real, direction: (Vec3, Vec3) -> Vec3,
                     cps0: seq<CenterPoint>, extra0: real, extra1: real)
    returns (cps: seq<CenterPoint>, total: real)
    requires Drawable(l) && |cps0| == |l.p| && extra0 == l.e0 && extra1 == l.e1
    requires (l.closed ==> !l.ext) && (!l.ext ==> l.e0 == 0.0 && l.e1 == 0.0)
    requires forall k :: 0 <= k < |l.p| ==> cps0[k] == DefaultCenterPoint().(position := l.p[k], tilt := l.tilts[k])
    ensures |cps| == |l.p| && forall i :: 0 <= i < |cps| ==> cps[i] == PointAt(l, measure, direction, i)
    ensures total == TotalLength(l, measure, direction)
  {
    cps, total := MeasureStart(l, measure, direction, cps0, extra0);
    cps, total := MeasureInterior(l, measure, direction, cps, total);
    cps, total := MeasureEnd(l, measure, direction, cps, total, extra1);
    cps := MarkEnds(l, measure, direction, cps);
  }

  /** The two ends of an open curve become corners. */
  method MarkEnds(l: Line, measure: (Vec3, Vec3) -> real, direction: (Vec3, Vec3) -> Vec3, cps0: seq<CenterPoint>)
    returns (cps: seq<CenterPoint>)
    requires Drawable(l) && |cps0| == |l.p|
    requires cps0[0] == PointAt(l, measure, direction, 0).(cornerPoint := false)
    requires cps0[|l.p| - 1] == PointAt(l, measure, direction, |l.p| - 1).(cornerPoint := false)
    requires forall k :: 0 < k < |l.p| - 1 ==> cps0[k] == PointAt(l, measure, direction, k)
    ensures |cps| == |cps0| && forall i :: 0 <= i < |cps| ==> cps[i] == PointAt(l, measure, direction, i)
  {
    var n := |cps0|;
    cps := cps0;
    if !l.closed {
      cps := cps[n - 1 := cps[n - 1].(cornerPoint := true)];
      cps := cps[0 := cps[0].(cornerPoint := true)];
    }
    assert cps[0] == PointAt(l, measure, direction, 0);
    assert cps[n - 1] == PointAt(l, measure, direction, n - 1);
  }

  /** The ends of the line: corners with equal tangents on an open curve;
      on a closed curve no corners, and the seam direction shared by the
      last point's outgoing and the first point's incoming tangent. */
  lemma PointAtEnds(l: Line, measure: (Vec3, Vec3) -> real, direction: (Vec3, Vec3) -> Vec3)
    requires Drawable(l)
    ensures var n := |l.p|;
            var first := PointAt(l, measure, direction, 0);
            var last := PointAt(l, measure, direction, n - 1);
            && (!l.closed ==> first.cornerPoint && last.cornerPoint && first.tangentPrev == first.tangentNext
                              && last.tangentPrev == last.tangentNext)
            && (l.closed ==> (forall i :: 0 <= i < n ==> !PointAt(l, measure, direction, i).cornerPoint)
                             && last.tangentNext == first.tangentPrev)
  {
  }
}
