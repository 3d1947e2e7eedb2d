/** Configuration of a curve mesh: the two closed enumerations, the clamping
    helpers and the `CurveMesh` object whose setters keep its fields inside
    the ranges the mesh pipeline relies on. */
module Config {

  datatype Profile = Flat | Cross | Tube

  datatype TessellationMode = Adaptive | Baked | Disabled

  /** Smallest tessellation tolerance a setter stores. */
  const MinTolerance: real := 0.001

  /** Relative tolerance of the engine's approximate float comparison. */
  const CmpEpsilon: real := 0.00001

  function Abs(x: real): (r: real)
    ensures r >= 0.0 && (r == x || r == -x)
  {
    if x < 0.0 then -x else x
  }

  /** The engine's approximate equality: exact equality, or a difference
      below a tolerance proportional to the first operand (never below
      `CmpEpsilon`). */
  predicate IsEqualApprox(a: real, b: real)
  {
    a == b ||
    Abs(a - b) < (if CmpEpsilon * Abs(a) < CmpEpsilon then CmpEpsilon else CmpEpsilon * Abs(a))
  }

  /** A positive value is kept; anything else is replaced by the fallback. */
  function ClampPositive(value: real, fallback: real): (r: real)
    ensures value > 0.0 ==> r == value
    ensures value <= 0.0 ==> r == fallback
    ensures fallback > 0.0 ==> r > 0.0
  {
    if value > 0.0 then value else fallback
  }

  /** Fewest segments a profile admits: three around a tube, two otherwise. */
  function MinSegments(p: Profile): (m: int)
    ensures m == (if p == Tube then 3 else 2)
  {
    if p == Tube then 3 else 2
  }

  /** The clamping expression of the segment setter. */
  function ClampSegments(requested: int, p: Profile): (r: int)
    ensures r >= MinSegments(p)
    ensures r >= requested
    ensures r == requested || r == MinSegments(p)
  {
    if requested > MinSegments(p) then requested else MinSegments(p)
  }

  /** The clamping expression of the tessellation tolerance setter. */
  function ClampTolerance(requested: real): (r: real)
    ensures r >= MinTolerance
    ensures requested >= MinTolerance ==> r == requested
    ensures requested < MinTolerance ==> r == MinTolerance
  {
    if requested < MinTolerance then MinTolerance else requested
  }

  /** Number of vertices per ring position: one for a flat ribbon, the
      configured segment count for cross and tube profiles. */
  function RadialSegments(p: Profile, segments: int): (r: int)
    ensures p == Flat ==> r == 1
    ensures p != Flat ==> r == segments
  {
    if p == Flat then 1 else segments
  }

  /** Number of edges (sides) per ring: one for a tube, two otherwise. */
  function EdgeCount(p: Profile): (r: nat)
    ensures r == (if p == Tube then 1 else 2)
  {
    if p == Tube then 1 else 2
  }

  /** Snapshot of the configuration the pipeline stages read. Every stage
      receives it by value, so no stage can change the configuration. */
  datatype Settings = Settings(
    width: real,
    extendEdges: bool,
    tessellationMode: TessellationMode,
    tessellationTolerance: real,
    smoothShadedCorners: bool,
    profile: Profile,
    segments: int,
    interleaveVertices: bool,
    filterOverlaps: bool,
    addUv2: bool)
  {
    /** The setter invariant. */
    predicate Valid()
    {
      segments >= 2 && (profile == Tube ==> segments >= 3) && tessellationTolerance >= MinTolerance
    }

    function Radial(): (r: int)
      ensures Valid() ==> r >= 1
      ensures profile == Tube && Valid() ==> r >= 3
    {
      RadialSegments(profile, segments)
    }

    function Edges(): (r: nat)
      ensures 1 <= r <= 2
    {
      EdgeCount(profile)
    }
  }

  class CurveMesh {
    var width: real
    var extendEdges: bool
    var tessellationMode: TessellationMode
    var tessellationTolerance: real
    var followCurve: bool
    var cornerThreshold: real
    var smoothShadedCorners: bool
    var profile: Profile
    var segments: int
    var interleaveVertices: bool
    var filterOverlaps: bool
    var scaleUvByLength: bool
    var scaleUvByWidth: bool
    var tileSegmentUv: bool
    /** Inherited from the primitive-mesh base: whether a lightmap UV set is generated. */
    var addUv2: bool

    /** The invariant the setters maintain. */
    predicate Valid()
      reads this
    {
      segments >= 2 && (profile == Tube ==> segments >= 3) && tessellationTolerance >= MinTolerance
    }

    /** The field initialisers of the class declaration. */
    constructor ()
      ensures Valid()
      ensures width == 0.5 && !extendEdges
      ensures tessellationMode == Baked && tessellationTolerance == 4.0
      ensures followCurve && cornerThreshold == 0.5236 && smoothShadedCorners
      ensures profile == Flat && segments == 2
      ensures !interleaveVertices && !filterOverlaps
      ensures !scaleUvByLength && !scaleUvByWidth && tileSegmentUv && !addUv2
    {
      width := 0.5;
      extendEdges := false;
      tessellationMode := Baked;
      tessellationTolerance := 4.0;
      followCurve := true;
      cornerThreshold := 0.5236;
      smoothShadedCorners := true;
      profile := Flat;
      segments := 2;
      interleaveVertices := false;
      filterOverlaps := false;
      scaleUvByLength := false;
      scaleUvByWidth := false;
      tileSegmentUv := true;
      addUv2 := false;
    }

    function Snapshot(): (s: Settings)
      reads this
      ensures Valid() ==> s.Valid()
      ensures s.profile == profile && s.segments == segments
    {
      Settings(width, extendEdges, tessellationMode, tessellationTolerance, smoothShadedCorners,
               profile, segments, interleaveVertices, filterOverlaps, addUv2)
    }

    /** Changing the profile raises the segment count to the new profile's minimum. */
    method SetProfile(p: Profile)
      requires Valid()
      modifies this`profile, this`segments
      ensures Valid()
      ensures profile == p
      ensures old(profile) == p ==> segments == old(segments)
      ensures old(profile) != p ==> segments == (if p == Flat then old(segments) else ClampSegments(old(segments), p))
    {
      if profile != p {
        profile := p;
        if profile == Cross {
          segments := if segments > 2 then segments else 2;
        } else if profile == Tube {
          segments := if segments > 3 then segments else 3;
        }
      }
    }

    /** The requested count, raised to the current profile's minimum. */
    method SetSegments(requested: int)
      requires Valid()
      modifies this`segments
      ensures Valid()
      ensures segments == ClampSegments(requested, profile)
    {
      var minimum := if profile == Tube then 3 else 2;
      var clamped := if requested > minimum then requested else minimum;
      if segments != clamped {
        segments := clamped;
      }
    }

    /** The requested tolerance, raised to `MinTolerance`; a value
        approximately equal to the stored one leaves it unchanged. */
    method SetTessellationTolerance(requested: real)
      requires Valid()
      modifies this`tessellationTolerance
      ensures Valid()
      ensures IsEqualApprox(old(tessellationTolerance), ClampTolerance(requested)) ==>
                tessellationTolerance == old(tessellationTolerance)
      ensures !IsEqualApprox(old(tessellationTolerance), ClampTolerance(requested)) ==>
                tessellationTolerance == ClampTolerance(requested)
    {
      var clamped := if requested < MinTolerance then MinTolerance else requested;
      if !IsEqualApprox(tessellationTolerance, clamped) {
        tessellationTolerance := clamped;
      }
    }
  }
}
