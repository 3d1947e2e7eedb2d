/** Vector payloads and the two per-vertex records of the mesh pipeline.
    Vectors are carried as payload; the only arithmetic the model performs on
    them is the end-point extension of the centerline. */
module Records {

  datatype Vec3 = Vec3(x: real, y: real, z: real)
  {
    function Plus(o: Vec3): Vec3 { Vec3(x + o.x, y + o.y, z + o.z) }
    function Minus(o: Vec3): Vec3 { Vec3(x - o.x, y - o.y, z - o.z) }
    function Times(k: real): Vec3 { Vec3(x * k, y * k, z * k) }
  }

  datatype Vec2 = Vec2(u: real, v: real)

  const Zero3: Vec3 := Vec3(0.0, 0.0, 0.0)
  const Zero2: Vec2 := Vec2(0.0, 0.0)

  /** One sample of the centerline. */
  datatype CenterPoint = CenterPoint(
    position: Vec3,
    tangentNext: Vec3,
    tangentPrev: Vec3,
    partialLength: real,
    tilt: real,
    cornerPoint: bool)

  /** A center point with every field at its declared default. */
  function DefaultCenterPoint(): (c: CenterPoint)
    ensures !c.cornerPoint && c.partialLength == 0.0 && c.tilt == 0.0
  {
    CenterPoint(Zero3, Zero3, Zero3, 0.0, 0.0, false)
  }

  /** The floating-point attributes of a generated vertex. */
  datatype Attributes = Attributes(position: Vec3, normal: Vec3, uv: Vec2, uv2: Vec2, tangent: Vec3)

  /** One generated vertex: its attributes and its place in the doubly linked
      chain stored in the vertex array (`next`/`prev` are array indices). */
  datatype EdgePoint = EdgePoint(
    attrs: Attributes,
    source: int,
    next: int,
    prev: int,
    edge: int,
    filter: bool,
    removed: bool,
    nextConnected: bool,
    prevConnected: bool)

  /** A vertex with the given attributes and every other field at its declared
      default: no links, no source, edge 0, unflagged, live and connected on
      both sides. */
  function DefaultEdgePoint(a: Attributes): (p: EdgePoint)
    ensures p.attrs == a
    ensures p.source == -1 && p.next == -1 && p.prev == -1 && p.edge == 0
    ensures !p.filter && !p.removed && p.nextConnected && p.prevConnected
  {
    EdgePoint(a, -1, -1, -1, 0, false, false, true, true)
  }
}
