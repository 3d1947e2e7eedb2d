# CurveMesh in Dafny

CurveMesh is a Godot `PrimitiveMesh` that extrudes a `Curve3D` into a
surface: a flat ribbon, a cross of ribbons or a tube. Rebuilding the mesh
runs a fixed pipeline over two arrays of records:

1. **Center line.** The curve is sampled (control points, baked points or
   adaptive tessellation) into center points. Each one gets its tilt, its
   two tangents, its cumulative length and whether it is a corner.
2. **Ring construction.** For every center point there is one ring of
   edge vertices per edge (side): one row of `radial` spokes per edge.
   A sharp corner that is not smooth shaded gets a second copy of its
   ring. Each vertex is linked to the same spoke of the next ring
   (`next`/`prev` indices into the array), and the last ring links back
   to the first. A copy, and both ends of an open curve, break the
   connection flags, and the surface stops there.
3. **Interleaving** (optional, flat and cross profiles). Along each
   spoke's chain, an edge-1 vertex and the edge-0 vertex after it are
   spliced out together when they come from two different non-corner
   center points.
4. **Overlap filtering** (optional). Vertices are flagged when they
   overlap; flags are dropped at corners and on two-vertex chains. Every
   run of flagged vertices on one edge is then merged into its first
   vertex, or a lone flagged vertex is removed. This repeats until a
   round removes nothing.
5. **Triangulation.** The live vertices are packed into the engine's
   vertex arrays and renumbered. Then one of two walks emits triangles:
   - the strip walk (flat, cross) goes along each chain and closes a
     triangle at every step that is not cut;
   - the tube walk covers every vertex of every ring and steps past
     removed neighbours.
6. **Fallback.** When no triangle was made, a single degenerate triangle
   over one vertex at the origin is emitted.

The model keeps the pipeline's integer and link structure exactly:
array indices, chains, removal marks, connection flags and index
buffers. Floating-point geometry is a parameter:

- segment lengths and directions come from the functions `measure` and
  `direction`;
- vertex attributes come from `shade`;
- the corner cosine test comes from `sharp` or `bend`;
- the overlap test comes from `scan`;
- the merged attributes come from `merge`.

Stages that work in place on the source's `LocalVector<EdgePoint>` are
methods over `array<EdgePoint>`. Stages that append are methods over
`seq`. The settings object is a class whose setters keep its invariant.

The modules follow the pipeline:

| module | contents |
|---|---|
| `Records` | `CenterPoint` and `EdgePoint` |
| `Config` | the `CurveMesh` settings class and its clamping setters |
| `CenterLine` | the sampler |
| `RingLayout` | the shape of the generated array as a pure slot layout |
| `EdgeVertices` | ring construction |
| `Chains` | linked chains and splicing |
| `InitialChains` | the chains ring construction builds |
| `Interleave` | interleaving |
| `Filter` | overlap filtering |
| `Strips`, `StripRings` | the strip walk |
| `Tubes`, `TubeRings` | the tube walk |
| `Readiness` | what each walk needs, and why the earlier stages provide it |
| `Packing` | vertex packing |
| `Assembly` | the top-level `_create_mesh_array` |

The proofs use ghost state:

- per spoke, the order of its live vertices (`orders`);
- per vertex, its spoke (`tag`);
- per removed vertex, when it was removed (`rank`, `clock`);
- for interleaving, a reference walk over each initial chain (`Interleaved`) that the in-place loop is proved to follow;
- for filtering, the record of every grouping visit (`Step`) and of every round (`Round`), each state being what the visit or round makes of the one before.

These let the walks that follow links be proved to terminate and to
visit what they should.

## Model

| member | source | states |
|---|---|---|
| Records.DefaultCenterPoint | src/curve_mesh.h:42-50 | a fresh center point is no corner and has zero length and tilt |
| Records.DefaultEdgePoint | src/curve_mesh.h:52-67 | a fresh edge vertex has no source and no links, lies on edge 0, is unflagged and live, and is connected both ways |
| Config.ClampPositive | src/curve_mesh.cpp:24-27 | a positive value is kept, anything else becomes the fallback, so a positive fallback gives a positive result |
| Config.MinSegments | src/curve_mesh.cpp:1438 | three segments are the minimum for a tube, two for the other profiles |
| Config.ClampSegments | src/curve_mesh.cpp:1438-1439 | the result is at least the profile's minimum and at least the request, and is one of the two |
| Config.ClampTolerance | src/curve_mesh.cpp:1356 | the result is at least 0.001, and equals any request that is not below it |
| Config.RadialSegments | src/curve_mesh.cpp:128-129 | one spoke for a flat ribbon, the segment count otherwise |
| Config.EdgeCount | src/curve_mesh.cpp:363 | one edge for a tube, two otherwise |
| Config.Settings.Radial | src/curve_mesh.cpp:128-129 | under the setter invariant there is at least one spoke, and at least three around a tube |
| Config.Settings.Edges | src/curve_mesh.cpp:363 | one or two edges |
| Config.CurveMesh.constructor | src/curve_mesh.h:70-91 | the declared field defaults, which satisfy the setter invariant |
| Config.CurveMesh.Snapshot | src/curve_mesh.h:95-112 | the configuration the stages read is a copy that keeps the invariant (the stages are `const`) |
| Config.CurveMesh.SetProfile | src/curve_mesh.cpp:1416-1432 | the new profile is stored; a change to cross or tube raises the segment count to that profile's minimum, and setting the same profile or flat leaves it alone; the invariant is kept |
| Config.CurveMesh.SetSegments | src/curve_mesh.cpp:1436-1445 | the request, raised to the current profile's minimum, is stored; the invariant is kept |
| Config.CurveMesh.SetTessellationTolerance | src/curve_mesh.cpp:1354-1362 | the clamped request is stored unless it is approximately equal to the stored value, which is then kept |
| CenterLine.Sampled | src/curve_mesh.cpp:207-221 | adaptive samples carry the tessellated positions and no tilt |
| CenterLine.KeptCount | src/curve_mesh.cpp:188-235 | all control points are kept; of baked or adaptive samples, a closed curve drops the last (the repeated first) |
| CenterLine.Kept | src/curve_mesh.cpp:188-235 | there are as many kept positions as the count says |
| CenterLine.LineOf | src/curve_mesh.cpp:188-235 | the sampled line has one position and one tilt per kept sample, with the sample's tilt, and extends its ends only on an open curve with extension enabled |
| CenterLine.Seeded | src/curve_mesh.cpp:199-234 | the resized point list holds default records carrying the kept positions and tilts |
| CenterLine.ExtraWidth | src/curve_mesh.cpp:259-268 | an end is pushed outward only when the line extends its ends |
| CenterLine.TravelMonotone | src/curve_mesh.cpp:270-282 | with non-negative segment lengths, the distance covered never decreases along the line |
| CenterLine.PointAt | src/curve_mesh.cpp:243-321 | point i keeps its tilt, its cumulative length is the arc length, and it is a corner exactly when it is an end of an open curve |
| CenterLine.ArcLengthMonotone | src/curve_mesh.cpp:243-315 | cumulative lengths start at 0, never decrease along the line and never exceed the total length |
| CenterLine.MeasureStart | src/curve_mesh.cpp:243-268 | the first point gets its tangents and length; nothing else changes; the running total is the start extension |
| CenterLine.MeasureInterior | src/curve_mesh.cpp:270-282 | every interior point gets its tangents and cumulative length; the ends are untouched; the running total is the distance covered |
| CenterLine.MeasureEnd | src/curve_mesh.cpp:284-315 | the last point gets its tangents and length, and the total becomes the full length, closing segment included |
| CenterLine.MeasureLine | src/curve_mesh.cpp:243-315 | the three passes yield the measured point at every index and the total length |
| CenterLine.MarkEnds | src/curve_mesh.cpp:317-321 | on an open curve the two ends become corners; every point is then the point of the line |
| CenterLine.PointAtEnds | src/curve_mesh.cpp:243-321 | on an open curve both ends are corners with equal tangents; on a closed curve none is a corner and the last tangent leads into the first |
| CenterLine.GenerateCurvePoints | src/curve_mesh.cpp:185-322 | as many center points as kept samples; fewer than two give a zero length and unmeasured records; otherwise every point is the measured one, the total is the curve length, and the ends are handled by open/closed as in PointAtEnds |
| EdgeVertices.BlockSize | src/curve_mesh.cpp:363 | a ring holds `radial` vertices per edge |
| EdgeVertices.Row | src/curve_mesh.cpp:455-514 | one edge's row holds one slot per spoke, in spoke order |
| EdgeVertices.Ring | src/curve_mesh.cpp:452-514 | one center point's ring is one block long |
| EdgeVertices.Corners | src/curve_mesh.cpp:374-378 | the corner flag of every center point, in order |
| EdgeVertices.AttrsFor | src/curve_mesh.cpp:525-541 | a corner copy keeps the position and texture coordinates of the vertex it copies and takes its own tangent and normal |
| EdgeVertices.Push | src/curve_mesh.cpp:504-513 | appending grows the array by one |
| EdgeVertices.PushOriginal | src/curve_mesh.cpp:504-513 | appending a vertex links it one ring back, and that vertex forward to it |
| EdgeVertices.PushDuplicate | src/curve_mesh.cpp:525-542 | appending a copy links it one ring back, disconnects it backward and disconnects the copied vertex forward |
| EdgeVertices.PushRow | src/curve_mesh.cpp:455-514 | after one edge's loop every vertex is the one its slot calls for |
| EdgeVertices.PushRings | src/curve_mesh.cpp:452-514 | after one center point's loops the array holds its ring |
| EdgeVertices.PushDuplicateRow | src/curve_mesh.cpp:522-543 | after one edge of a copy, every vertex is the one its slot calls for |
| EdgeVertices.DuplicateRowStep | src/curve_mesh.cpp:527-530 | the vertex copied at step j is the matching slot of the block being copied |
| EdgeVertices.PushDuplicateRings | src/curve_mesh.cpp:517-545 | a corner that is not smooth shaded gets a full copy of its ring |
| EdgeVertices.LayoutSize | src/curve_mesh.cpp:370 | the array holds one block per center point plus one per duplicated corner |
| EdgeVertices.OpenStep | src/curve_mesh.cpp:553-561 | each edge handled for a spoke on an open curve disconnects exactly one more first-ring vertex backward and one last-ring vertex forward |
| EdgeVertices.OpenNextSpoke | src/curve_mesh.cpp:555-561 | finishing every edge of spoke j is the same as starting spoke j + 1 |
| EdgeVertices.LinkSpokeAt | src/curve_mesh.cpp:550-552 | linking spoke j joins the last ring's vertex to the first ring's in both directions and touches no other link |
| EdgeVertices.LinkSpoke | src/curve_mesh.cpp:550-552 | one step of the final pass, on the whole array |
| EdgeVertices.DisconnectEnds | src/curve_mesh.cpp:553-561 | on an open curve the first ring's vertices lose their backward connection and the last ring's their forward one |
| EdgeVertices.LinkEnds | src/curve_mesh.cpp:548-563 | the final pass leaves every vertex wrapped: the last ring linked to the first, ends disconnected on an open curve |
| EdgeVertices.Finished | src/curve_mesh.cpp:548-563 | after the final pass each vertex is the finished vertex of its slot |
| EdgeVertices.Cornered | src/curve_mesh.cpp:374-378 | a point becomes a corner when it already was one or the turn is sharp; nothing else changes |
| EdgeVertices.CenterRings | src/curve_mesh.cpp:372-546 | after center point i, points 0..i are cornered, the later ones untouched, and the array is built from the layout of points 0..i |
| EdgeVertices.GenerateEdgeVertices | src/curve_mesh.cpp:324-564 | every center point is cornered; the array has one vertex per slot of the layout (at least one ring) and each is the finished vertex for its slot |
| EdgeVertices.RingAt | src/curve_mesh.cpp:452-514 | slot o of a ring: edge 0 for the first `radial` slots, edge 1 after them, on spoke o mod radial |
| EdgeVertices.LayoutStriped | src/curve_mesh.cpp:452-545 | the array is made of whole rows, and its first row is center point 0's edge 0 |
| EdgeVertices.LayoutSources | src/curve_mesh.cpp:452-545 | every vertex comes from a center point, and only a corner that is not smooth shaded has copies |
| RingLayout.RingFlags | src/curve_mesh.cpp:372-546 | one ring per center point plus one per copy; the first ring is never a copy |
| RingLayout.RingTail | src/curve_mesh.cpp:517 | a center point adds a copy exactly when it is a corner and not smooth shaded |
| RingLayout.RingFlagsCopies | src/curve_mesh.cpp:517-545 | the copies among the rings are the duplicated corners |
| RingLayout.UncutCopies | src/curve_mesh.cpp:517-545 | every ring is either a copy or not |
| RingLayout.LayoutBlocks | src/curve_mesh.cpp:372-546 | the array is one block per ring |
| RingLayout.LayoutGrows | src/curve_mesh.cpp:372-546 | one more center point adds one ring, or two for a copied corner |
| RingLayout.BlocksOrder | src/curve_mesh.cpp:963 | block starts increase strictly with the ring number |
| RingLayout.LayoutRings | src/curve_mesh.cpp:452-545 | slot `off` of ring b is on edge 0 or 1 by its position, and is a copy exactly when ring b is |
| RingLayout.OwnSlot | src/curve_mesh.cpp:452-514 | the last center point's own ring holds its slots in order |
| RingLayout.CopySlot | src/curve_mesh.cpp:517-545 | the copy of a corner holds the same slots, marked as copies |
| RingLayout.RingCuts | src/curve_mesh.cpp:538-561 | the surface stops after ring r exactly when the next ring is a copy or, past the last ring, when the curve is open |
| RingLayout.RingCutsUncut | src/curve_mesh.cpp:538-561 | the surface stops once per copy and once more at the end of an open curve |
| RingLayout.UncutPrefix | src/curve_mesh.cpp:538-561 | the uncut junctions among the first m rings are m minus the copies after them |
| InitialChains.ChainFrom | src/curve_mesh.cpp:504-508 | a chain starts at its spoke, steps one ring at a time, increases strictly and ends in the last ring |
| InitialChains.StartOrders | src/curve_mesh.cpp:548-552 | one chain per spoke |
| InitialChains.Spokes | src/curve_mesh.cpp:455 | every vertex's spoke |
| InitialChains.ChainSpokes | src/curve_mesh.cpp:452-545 | every vertex of a chain is on that chain's spoke, one row after the previous one |
| InitialChains.OnChain | src/curve_mesh.cpp:452-545 | every vertex lies on the chain of its spoke |
| InitialChains.ChainCycle | src/curve_mesh.cpp:504-552 | each spoke's chain is a doubly linked cycle of its own vertices; it alternates edges and, with two edges, pairs vertices of one center point |
| InitialChains.ChainAlternating | src/curve_mesh.cpp:452-514 | along a chain the vertices alternate edge 0 and edge 1, starting on edge 0 |
| InitialChains.ChainPaired | src/curve_mesh.cpp:452-514 | with two edges, positions 2s and 2s+1 of a chain come from the same center point |
| InitialChains.PairAt | src/curve_mesh.cpp:452-514 | an edge-1 vertex shares its center point with the vertex one row back |
| InitialChains.ChainEnds | src/curve_mesh.cpp:548-552 | chain j runs from vertex j to the last ring's vertex of spoke j |
| InitialChains.StartChained | src/curve_mesh.cpp:324-564 | ring construction leaves every spoke a live cycle, nothing removed, alternating and paired |
| InitialChains.StartVertex | src/curve_mesh.cpp:324-564 | every vertex starts live on the chain of its spoke |
| Chains.Succ | src/curve_mesh.cpp:929-958 | the next position around a cycle is a position |
| Chains.Pred | src/curve_mesh.cpp:774-786 | the previous position around a cycle is a position |
| Chains.Without | src/curve_mesh.cpp:570-574 | dropping position t shifts the later positions down by one |
| Chains.RemovePoint | src/curve_mesh.cpp:570-574 | splicing in place: the predecessor links to the successor and back; nothing else changes |
| Chains.ChainedLinked | src/curve_mesh.cpp:570-574 | when every spoke is a live cycle, every live vertex's neighbours are live and link back to it |
| Chains.RemovedAt | src/curve_mesh.cpp:570-574 | what splicing out k and marking it removed does to each vertex: only the two neighbours' links and k's marks change |
| Chains.CycleWithout | src/curve_mesh.cpp:570-574 | splicing a vertex out of a cycle of at least two leaves the rest a cycle |
| Chains.ChainedRemoved | src/curve_mesh.cpp:570-574 | splicing out a live vertex keeps every chain a cycle of exactly the live vertices of its spoke, and records when it was removed |
| Chains.ChainedRemovedOthers | src/curve_mesh.cpp:570-574 | the other chains are untouched by the splice |
| Chains.MembersRemoved | src/curve_mesh.cpp:570-574 | every vertex still live after a splice is on the chain of its spoke |
| Chains.StaleRemoved | src/curve_mesh.cpp:570-574 | the stale links of removed vertices still lead to vertices removed later or live ones |
| Interleave.Spliced | src/curve_mesh.cpp:591-594 | the pair splice keeps the array's length |
| Interleave.SplicePair | src/curve_mesh.cpp:591-594 | the source's four statements (unlink p, unlink x, mark both) produce the pair splice |
| Interleave.SpliceOrder | src/curve_mesh.cpp:591-594 | unlinking p then x and then marking both equals removing p then x |
| Interleave.SplicedChained | src/curve_mesh.cpp:591-594 | splicing out the pair keeps every chain a cycle, with the pair dropped from its own |
| Interleave.SplicedKept | src/curve_mesh.cpp:591-594 | the pair splice changes only links and removal marks |
| Interleave.GoneStep | src/curve_mesh.cpp:584-594 | every vertex removed so far is a non-corner vertex of a removed pair whose two vertices come from different center points |
| Interleave.GuardStep | src/curve_mesh.cpp:580-582 | while the loop test passes the walk has not reached the chain's last vertex |
| Interleave.JumpShape | src/curve_mesh.cpp:595-597 | after the splice, the three-link jump lands two positions on in the shortened chain, or wraps past the head |
| Interleave.JumpWraps | src/curve_mesh.cpp:580-597 | a jump that wraps past the head makes the loop test fail |
| Interleave.JumpThree | src/curve_mesh.cpp:595-597 | the three link steps reach the chain position two beyond the spliced pair |
| Interleave.SpliceAndJump | src/curve_mesh.cpp:591-597 | the splicing branch keeps the pass invariant; the array is the pair splice of the old one, chain j loses positions pos and pos + 1, the walk lands two positions on (wrapping to 0), and what remains of the walk is the reference walk of the old chain from pos |
| Interleave.WalkStep | src/curve_mesh.cpp:580-597 | one loop iteration keeps the pass invariant and strictly raises `point_index`; a pair that splices is spliced out of the array and of chain j, any other pair leaves array and chains as they were and moves one position on; either way what remains of the walk is the reference walk from the old position |
| Interleave.InterleaveChain | src/curve_mesh.cpp:576-598 | the pass over chain j keeps the chains intact, chain j headed, increasing and alternating, and every removal explained, and leaves chain j exactly as the reference walk `Interleaved` does from position 0 |
| Interleave.InterleaveEdgeVertices | src/curve_mesh.cpp:566-600 | every chain is left exactly as the reference walk leaves its initial order; all chains stay live cycles headed at their spoke and alternating edges; only links and removal marks change; every removed vertex is one of a non-corner pair from two center points; the live vertices stay doubly linked |
| Interleave.KeptShape | src/curve_mesh.cpp:566-600 | changing only links and removal marks keeps alternation, pairing and sources |
| Interleave.Interleaved | src/curve_mesh.cpp:576-598 | the reference walk of one chain: a pair of non-corner vertices from different center points is dropped and the walk resumes two positions on (stopping if that wraps), any other vertex is passed; it keeps the positions already walked and the parity of the length, and never lengthens the chain |
| Interleave.SkipRemaining | src/curve_mesh.cpp:580-590 | passing a pair that does not splice leaves the reference walk unchanged |
| Interleave.SpliceRemaining | src/curve_mesh.cpp:591-597 | splicing a pair and jumping leaves the reference walk unchanged, including the jump that wraps past the head and ends the loop |
| Interleave.SplicesNow | src/curve_mesh.cpp:584-590 | the splice test the loop makes on the current array is the reference walk's test on the initial array |
| Interleave.ChainAdvance | src/curve_mesh.cpp:566-600 | walking one more chain extends the prefix of chains left as the reference walk leaves them |
| Interleave.InterleavedAll | src/curve_mesh.cpp:566-600 | once every chain is walked the chains are the reference orders of the initial chains |
| Filter.Dist | src/curve_mesh.cpp:753-800 | the forward distance around a cycle is below its length and zero only from a position to itself |
| Filter.DistAdvance | src/curve_mesh.cpp:753-800 | a walk that has not reached its target can take one more step without passing it |
| Filter.DistRetreat | src/curve_mesh.cpp:774-786 | likewise walking backward |
| Filter.SeekForward | src/curve_mesh.cpp:788-800 | the forward walk stops at the first unflagged vertex on the group's edge, and passes none |
| Filter.SeekBackward | src/curve_mesh.cpp:774-786 | the backward walk stops at the nearest unflagged vertex on the group's edge, and passes none |
| Filter.CollectRun | src/curve_mesh.cpp:749-767 | the group is the first vertex followed by the flagged vertices on its edge met before the first unflagged one, other edges skipped |
| Filter.RunDistinct | src/curve_mesh.cpp:749-767 | a group lists no vertex twice |
| Filter.LiveCount | src/curve_mesh.cpp:602-876 | the live vertices number at most the array's length |
| Filter.LiveCountDrop | src/curve_mesh.cpp:856-871 | removing one live vertex lowers the live count by exactly one |
| Filter.LiveCountRemoved | src/curve_mesh.cpp:868-871 | splicing out a live vertex lowers the live count by one |
| Filter.Merged | src/curve_mesh.cpp:841-854 | the kept vertex takes the merged attributes and loses its flag |
| Filter.RemoveAll | src/curve_mesh.cpp:856-864 | splicing out a list of vertices keeps every link an index |
| Filter.RemoveRest | src/curve_mesh.cpp:856-864 | the group after its first vertex is spliced out in order; chains stay live cycles; every vertex gone was flagged; the live count falls by the group's size |
| Filter.RemoveOne | src/curve_mesh.cpp:858-863 | one removal keeps the chain invariant and extends the removed set |
| Filter.RemoveStep | src/curve_mesh.cpp:868-871 | removing a live vertex that shares its chain with another live one keeps the chains and lowers the live count |
| Filter.MergeFirst | src/curve_mesh.cpp:802-854 | `before` is the nearest unflagged vertex on the group's edge walking backward from the vertex before the group, `after` the nearest walking forward from the vertex after its last member, and the first vertex is merged from their attributes |
| Filter.MergeRun | src/curve_mesh.cpp:769-865 | a group of several vertices is grouped: the first is merged from the nearest unflagged vertices before and after the run and kept, the rest are removed; chains are intact and the live count falls |
| Filter.AloneStep | src/curve_mesh.cpp:866-872 | a lone flagged vertex is removed and unflagged, keeping the chains and lowering the live count |
| Filter.MergedSettled | src/curve_mesh.cpp:841-864 | merging and removing the rest leaves the kept vertex live and unflagged |
| Filter.SettledTrans | src/curve_mesh.cpp:744-874 | group steps compose |
| Filter.GroupStep | src/curve_mesh.cpp:744-874 | a group step at a flagged live vertex gathers its run along its chain and groups it: a lone vertex is removed, a longer run merged into its first vertex from the nearest unflagged neighbours and the rest removed; the chains are kept and the live count falls |
| Filter.Visit | src/curve_mesh.cpp:744-874 | one iteration of the grouping loop keeps its invariant and is one visit: a flagged live vertex's run is gathered and grouped, any other vertex leaves the array unchanged |
| Filter.GroupPass | src/curve_mesh.cpp:744-874 | the pass is the sequence of visits of every vertex in array order, each state the visit of the state before; afterwards no live vertex is flagged; the chains and anchors are kept; a pass that removes something lowers the live count, and one that removes nothing changes nothing |
| Filter.PassStep | src/curve_mesh.cpp:744-874 | a group step keeps every earlier vertex unflagged and the anchors live |
| Filter.ScanPass | src/curve_mesh.cpp:616-729 | exactly the live vertices reported as overlapping get flagged (`Scanned`); nothing else changes |
| Filter.ClearPass | src/curve_mesh.cpp:731-742 | flags of corner vertices and of vertices whose two neighbours coincide are dropped (`Cleared`); every flag that stays is on a non-corner vertex with distinct neighbours |
| Filter.Rescanned | src/curve_mesh.cpp:616-742 | rescanning changes no link and no removal mark, so the chains, anchors and live count are kept |
| Filter.RoundFacts | src/curve_mesh.cpp:612-875 | a round keeps the filtering invariant; a round that removes something lowers the live count, which bounds the rounds |
| Filter.RoundFramed | src/curve_mesh.cpp:612-875 | a round keeps sources, edges and connection flags, spares corners, and leaves removed vertices as they were |
| Filter.RoundRooted | src/curve_mesh.cpp:731-874 | corner vertices are never removed, so each chain keeps a live corner anchor on each edge |
| Filter.FilterOverlappingVertices | src/curve_mesh.cpp:602-876 | the loop terminates and is the sequence of its rounds, each a scan of the current array, a clearing pass and a grouping pass, every round but the last removing something; afterwards chains are live cycles and no live vertex is flagged; only corner-sparing removals, merges and flag changes happened; the live count never grows |
| Filter.ReflaggedChains | src/curve_mesh.cpp:731-742 | changing flags or attributes keeps the chains |
| Filter.FindAnchor | src/curve_mesh.cpp:753-800 | every flagged live vertex's chain holds an unflagged live vertex on its edge, where the walks stop |
| Filter.RunRemovable | src/curve_mesh.cpp:856-864 | the rest of a run can be spliced out with the first vertex merged |
| Filter.SweptStep | src/curve_mesh.cpp:744-874 | a visit of the next vertex extends the record of the grouping pass |
| Filter.RoundsStep | src/curve_mesh.cpp:612-875 | a round after a round that removed something extends the record of the filtering loop |
| Strips.Emit | src/curve_mesh.cpp:947-952 | three index entries per face |
| Strips.EmitAt | src/curve_mesh.cpp:947-952 | face i takes entries 3i to 3i+2, the output slots of its corners in order |
| Strips.EmitAppend | src/curve_mesh.cpp:947-952 | emitting more faces appends their entries |
| Strips.EmitBounded | src/curve_mesh.cpp:900-955 | faces over live vertices emit only packed slots |
| Strips.Along | src/curve_mesh.cpp:931-958 | the position n steps on is a position |
| Strips.FindEdgeChange | src/curve_mesh.cpp:917-925 | the walk stops at the first vertex on the other edge; the vertex before it and every vertex passed are on the start's edge |
| Strips.StepEntries | src/curve_mesh.cpp:936-955 | a step emits three entries, or none when its face is skipped |
| Strips.StepEmit | src/curve_mesh.cpp:931-958 | each step appends the entries of the face it closes |
| Strips.StripFacesLive | src/curve_mesh.cpp:931-958 | a walk that starts from live vertices closes faces over live vertices only |
| Strips.LastsAfterLive | src/curve_mesh.cpp:957 | the last vertices seen stay live |
| Strips.StartLasts | src/curve_mesh.cpp:927-929 | the walk starts with live last vertices |
| Strips.StripStep | src/curve_mesh.cpp:933-957 | one iteration of the do-while advances one position and appends the face the step closes |
| Strips.StripChain | src/curve_mesh.cpp:912-958 | the walk of one chain covers the whole cycle once and appends exactly its faces |
| Strips.AllStripsLive | src/curve_mesh.cpp:910-960 | every face of every chain's walk is over live vertices |
| Strips.AllStripsAppend | src/curve_mesh.cpp:912-958 | walking chain m appends its faces after those of chains 0..m-1 |
| Strips.StripNext | src/curve_mesh.cpp:912-958 | one iteration of the loop over chains |
| Strips.StripTriangles | src/curve_mesh.cpp:910-960 | the strip index buffer is, chain by chain, the entries of each chain's walk |
| StripRings.JunctionsCount | src/curve_mesh.cpp:936-955 | on an unfiltered chain, the junction faces are two for every ring after which the surface goes on |
| StripRings.JunctionsBridge | src/curve_mesh.cpp:936-955 | no junction face crosses a place where the surface stops |
| StripRings.ArriveEdge0 | src/curve_mesh.cpp:938-948 | reaching the next ring's edge-0 vertex is skipped exactly when the surface stops there |
| StripRings.ArriveEdge1 | src/curve_mesh.cpp:938-948 | likewise for the edge-1 vertex |
| StripRings.CrossToEdge0 | src/curve_mesh.cpp:931-958 | the first step across a junction adds one face unless the surface stops |
| StripRings.CrossToEdge1 | src/curve_mesh.cpp:931-958 | the second step across a junction adds the other face unless the surface stops |
| StripRings.JunctionStep | src/curve_mesh.cpp:931-958 | two steps cross one junction, adding its two faces unless the surface stops |
| StripRings.LastsRings | src/curve_mesh.cpp:931-958 | at ring m the last vertices are ring m's two |
| StripRings.RingWalk | src/curve_mesh.cpp:912-958 | the walk of an unfiltered chain closes exactly the junction faces |
| StripRings.RingWalkFaces | src/curve_mesh.cpp:912-958 | an unfiltered chain's walk closes two faces per uncut junction, each joining a ring to the next |
| StripRings.RingStart | src/curve_mesh.cpp:915-929 | on an unfiltered chain the walk starts one position on, with ring 0's two vertices |
| StripRings.LayoutStripLaid | src/curve_mesh.cpp:452-514 | a flat or cross layout is, ring by ring, a block of 2R slots, R on edge 0 then R on edge 1, copies exactly on the copied rings |
| StripRings.LaidSlot | src/curve_mesh.cpp:452-561 | each fresh vertex of such a layout is live, on the edge of its row, and connected forward and backward exactly where the surface goes on after and before its ring |
| StripRings.FreshStripShaped | src/curve_mesh.cpp:452-561 | a fresh flat or cross array has that ring shape at every ring |
| StripRings.ShapedRinged | src/curve_mesh.cpp:576-578 | on such an array the chain of spoke j passes through every ring in order, its edge-0 vertex then its edge-1 vertex, connected as the surface's cuts say |
| StripRings.RingedChainWalk | src/curve_mesh.cpp:912-958 | the walk of a ringed chain from its start closes exactly its junction faces |
| StripRings.ClosesAll | src/curve_mesh.cpp:910-960 | every chain closing its junctions makes the chains close together |
| StripRings.WalksJunctions | src/curve_mesh.cpp:910-960 | then every chain's walk runs and all the faces are the junction faces of every chain, in chain order |
| StripRings.AllJunctionsCount | src/curve_mesh.cpp:936-955 | the junction faces of m chains number 2·m per uncut junction |
| StripRings.RingedTotal | src/curve_mesh.cpp:910-960 | ringed chains give exactly their junction faces, 2·m per uncut junction |
| StripRings.ShapedStripTotal | src/curve_mesh.cpp:910-960 | on a ring-shaped array the strip walk of all R chains gives 2·R faces per uncut junction |
| Tubes.SpokesModulo | src/curve_mesh.cpp:974-978 | the neighbouring spokes are the source's remainders of j + 1 and j + radial - 1 |
| Tubes.Surviving | src/curve_mesh.cpp:980-995 | following links past removed vertices ends at a live vertex, at once for a live start |
| Tubes.WalkLive | src/curve_mesh.cpp:980-995 | the skip loops terminate and reach the surviving vertex |
| Tubes.SpokeFaces | src/curve_mesh.cpp:967-1002 | a vertex's triangles are over live vertices |
| Tubes.SpokeFacesAt | src/curve_mesh.cpp:967-1002 | a live vertex gets its top face when the next vertex or the top neighbour connects, and its bottom face when it or the bottom neighbour connects |
| Tubes.EmitIf | src/curve_mesh.cpp:985-1001 | a face's three entries are appended only when its condition holds |
| Tubes.TubeSpoke | src/curve_mesh.cpp:967-1002 | one vertex's iteration appends exactly its faces; a removed vertex adds none |
| Tubes.TubeRing | src/curve_mesh.cpp:965-1003 | one ring's spokes append their faces in spoke order |
| Tubes.TubeTriangles | src/curve_mesh.cpp:961-1005 | the tube index buffer is the faces of every ring in array order |
| TubeRings.FreshBlocks | src/curve_mesh.cpp:452-514 | a tube array is one block of `radial` vertices per ring |
| TubeRings.FreshForward | src/curve_mesh.cpp:504-552 | vertex `off` of ring r is live and links to vertex `off` of the next ring, wrapping to the first |
| TubeRings.FreshOnward | src/curve_mesh.cpp:538-561 | vertex `off` of ring r is connected forward exactly when the surface goes on after ring r |
| TubeRings.FreshBackward | src/curve_mesh.cpp:538-561 | and connected backward exactly when the surface goes on after the ring before |
| TubeRings.LayoutJoined | src/curve_mesh.cpp:538-561 | the surface goes on from a slot exactly when the slot a ring on is no copy or, past the end, when the curve is closed |
| TubeRings.ShapedCorners | src/curve_mesh.cpp:967-995 | the four corners of a vertex's triangles are live, with the connection flags of the junction |
| TubeRings.ShapedSpokeFaces | src/curve_mesh.cpp:967-1002 | on an unfiltered tube each vertex gets two faces towards the next ring exactly where the surface goes on |
| TubeRings.ShapedRing | src/curve_mesh.cpp:965-1003 | each ring gives 2·radial faces when the surface goes on after it, none otherwise |
| TubeRings.ShapedTube | src/curve_mesh.cpp:961-1005 | the tube's faces are those paired faces, ring by ring |
| TubeRings.PairTubeTotal | src/curve_mesh.cpp:961-1005 | the pair tube over the ring cuts of P center points has 2·R·(P−1) triangles on an open curve and 2·R·P on a closed one, corner copies or not |
| TubeRings.FreshTubeTotal | src/curve_mesh.cpp:961-1005 | before filtering the tube walk can run and its faces are exactly the pair tube's, so a tube over P center points has 2·R·(P−1) triangles on an open curve and 2·R·P on a closed one, corner copies or not |
| Readiness.LayoutHead | src/curve_mesh.cpp:452-514 | the first block of the array is center point 0's ring |
| Readiness.FreshRooted | src/curve_mesh.cpp:317-321 | with center point 0 a corner, each chain starts with a corner vertex on each edge |
| Readiness.FreshSourced | src/curve_mesh.cpp:511 | every vertex comes from a center point |
| Readiness.KeptRooted | src/curve_mesh.cpp:584-586 | interleaving spares corner vertices, so the corner anchors survive |
| Readiness.StartHeaded | src/curve_mesh.cpp:576-578 | each chain starts at its spoke and holds at least two vertices |
| Readiness.HeadedReady | src/curve_mesh.cpp:912-929 | a chain headed at its spoke and alternating edges is ready for the strip walk |
| Readiness.RootedReady | src/curve_mesh.cpp:912-929 | a chain with a live anchor on each edge is ready for the strip walk |
| Readiness.ChainedTubeReady | src/curve_mesh.cpp:963-995 | the chains of a tube array keep every block on its spokes, as the tube walk needs |
| Readiness.RenumberedStrips | src/curve_mesh.cpp:900-908 | packing changes only `source`, so the strip walk's needs survive it |
| Readiness.RenumberedTube | src/curve_mesh.cpp:900-908 | and so do the tube walk's |
| Readiness.RenumberedShaped | src/curve_mesh.cpp:900-908 | packing keeps a tube array's ring shape |
| Readiness.RenumberedStripShaped | src/curve_mesh.cpp:900-908 | and a flat or cross array's ring shape |
| Readiness.PackedStripTotal | src/curve_mesh.cpp:900-960 | on a fresh flat or cross array, after packing, the strip walk gives exactly the junction faces: 2R(P−1) faces over P center points of an open curve, 2RP over a closed one |
| Readiness.PackedTubeTotal | src/curve_mesh.cpp:900-1005 | on a fresh tube array, after packing, the tube walk can run and gives exactly the paired faces of each ring: 2R(P−1) faces over P center points of an open curve, 2RP over a closed one |
| Packing.TangentFloats | src/curve_mesh.cpp:894-897 | a tangent is stored as its three components and a handedness of 1 |
| Packing.LiveIndices | src/curve_mesh.cpp:900-908 | the live vertices in increasing array order, as many as the live count |
| Packing.Rank | src/curve_mesh.cpp:905 | a vertex's output slot is at most its index |
| Packing.RankIndex | src/curve_mesh.cpp:900-908 | every live vertex is listed at its rank |
| Packing.RankOrder | src/curve_mesh.cpp:900-908 | ranks of live vertices are distinct, follow array order and are below the live count |
| Packing.AddPoint | src/curve_mesh.cpp:885-898 | appending a vertex leaves the index buffer alone |
| Packing.AddPointCarries | src/curve_mesh.cpp:885-898 | after appending, the arrays carry the attributes of one more vertex in the last slot |
| Packing.PackVertices | src/curve_mesh.cpp:900-908 | the arrays hold the live vertices' attributes in array order, second uvs only when enabled; each live vertex is renumbered to the slot holding its attributes |
| Packing.PackedSlots | src/curve_mesh.cpp:900-908 | after renumbering, each live vertex's `source` is its slot |
| Assembly.WithFallback | src/curve_mesh.cpp:150-166 | the fallback adds one vertex at the origin with an up normal, a unit tangent and zero uvs, and the single triangle 0, 0, 0 |
| Assembly.EmitTriples | src/curve_mesh.cpp:947-1001 | the index buffer of faces over live vertices is whole triangles over packed slots |
| Assembly.StripIndices | src/curve_mesh.cpp:910-960 | the strip walk emits whole triangles over packed vertices, and they are exactly the entries of every chain's walk from its start, in chain order |
| Assembly.TubeIndices | src/curve_mesh.cpp:961-1005 | the tube walk emits whole triangles over packed vertices, and they are exactly the entries of every ring's faces, in ring order |
| Assembly.Triangulate | src/curve_mesh.cpp:878-1006 | the vertex arrays hold the live vertices' attributes in array order, the array is renumbered to those slots, and the index buffer is the walk of the profile over the renumbered array |
| Assembly.Reduce | src/curve_mesh.cpp:133-143 | interleaving runs exactly when it is on and the profile is not a tube, keeping only what it may, removing no corner and leaving the chains the reference walk makes of the chains ring construction laid out; filtering runs exactly when it is on, as the recorded sequence of rounds, keeps the chains, spares corners, never adds live vertices and leaves no live vertex flagged; a stage that is off leaves the array unchanged; afterwards the walk of the profile can run, and without reductions it uses the chains ring construction laid out |
| Assembly.Build | src/curve_mesh.cpp:126-131 | a new array holding the fresh ring vertices laid out over the corner flags, a flag being the sampled corner or a sharp bend |
| Assembly.Surface | src/curve_mesh.cpp:126-146 | the arrays are what the stages make of the center points: ring construction, each reduction as switched on, packing of the live vertices and the walk of the profile |
| Assembly.AssembledCount | src/curve_mesh.cpp:126-147 | without reductions the assembled surface has 6 indices per spoke and per junction, 6R(P−1) on an open curve of P center points and 6RP on a closed one, never none |
| Assembly.PlainCount | src/curve_mesh.cpp:878-1005 | without reductions, the walk of either profile over the packed array emits 6 indices per spoke and per junction, corner copies or not |
| Assembly.SixfoldIs | src/curve_mesh.cpp:936-1001 | the index count per spoke and junction, six, in closed form: 6·R·junctions |
| Assembly.Sample | src/curve_mesh.cpp:119-147 | with fewer than two center points no arrays are made; otherwise the arrays are the surface over exactly the sampled center points |
| Assembly.Finished | src/curve_mesh.cpp:150-166 | the output keeps the arrays made when they hold a triangle and adds the fallback exactly when they hold none; either way at least one whole triangle |
| Assembly.PlainOutput | src/curve_mesh.cpp:119-166 | without reductions the fallback is never added and the output has 6R(P−1) indices over the P sampled center points of an open curve, 6RP over a closed one |
| Assembly.CreateMeshArray | src/curve_mesh.cpp:107-183 | the result is always consistent, whole triangles, at least one triangle; without a curve of two or more points, or with fewer than two kept samples, it is exactly the fallback; otherwise it is the surface over the sampled center points, with the fallback added only when that surface has no triangle |

## Left out

- Floating-point geometry: tangents, normals, spokes, widths, uvs and merged positions. It becomes the parameters `measure`, `direction`, `shade`, `bend`/`sharp` and `merge`, so float rounding is not modelled. `IsEqualApprox` is the engine's relative tolerance, computed on reals.
- The overlap scan (src/curve_mesh.cpp:616-729), including its top and bottom walks for tubes: the set of vertices it flags is the parameter `scan`. Filter.ScanPass only sets exactly those flags.
- The merged attributes (src/curve_mesh.cpp:812-851) come from the parameter `merge`. The neighbours it reads are modelled.
- Calls into the engine are left out: sampling the `Curve3D`, the width curve, `request_update`, `notify_property_list_changed` and signal connection. Curve samples are the `Curve` datatype; the width curve's end samples are `scale0`/`scale1`.
- The lightmap size update and texel size (src/curve_mesh.cpp:29-105), the uv2 padding, `_validate_property`, `_bind_methods` and type registration.
- The final packing into a Godot `Array` (src/curve_mesh.cpp:168-178): the result is the `MeshArrays` record.
- Plain setters and getters (width, width curve, up vector, corner threshold, flags, tessellation mode, curve) are left out: they store a value and request an update. `set_width` (src/curve_mesh.cpp:1245-1252) stores negative widths unchanged, so no invariant is claimed about width.
- Assembly.CreateMeshArray: with overlap filtering on a closed curve, requires that center point 0 counts as a corner (`bend` holds there); Assembly.Sample, Assembly.Surface, Assembly.Reduce, Readiness.FreshRooted and Filter.FilterOverlappingVertices likewise require that corner flag 0 is set (always true on an open curve). Without such a corner a chain can have no unflagged vertex on an edge, and the run and seek loops at src/curve_mesh.cpp:753-800 then have no exit; moreover filtering could then remove a chain's head, and the strip walk at src/curve_mesh.cpp:914-929 starts from `edge_points[j]` whatever its removed mark. The model does not cover that case.
- Assembly.CreateMeshArray: the triangle count is not an `ensures` of the method; it is stated by Assembly.PlainOutput over the method's `inner` and `t` results, for runs without reductions. With reductions no count is claimed.
- Assembly.Reduce: after interleaving the chains are stated exactly (the reference walk of the chains ring construction laid out), but after filtering the chains, and at every stage the removal ranks, are specified only by what the walk needs (`WalkReady`); the filtering rounds determine the array, not the chain orders element by element.
- Assembly.CreateMeshArray: requires `Sizable`, i.e. a closed curve sampled into no point at all is excluded, because the source would resize its point list to -1.
- Interleave.InterleaveEdgeVertices: modelled for two edges only. The source runs it only for flat and cross profiles, which have two edges.
- Readiness.RootedReady, Strips.StripTriangles: the strip walk is proved for chains that keep a live vertex on each edge. After filtering this holds through the corner anchors.
- TubeRings.FreshTubeTotal: the triangle count is proved for an unfiltered tube only. After removals the tube walk is proved to emit whole triangles over live vertices, but no count is claimed.
- Integer widths: indices and counts are unbounded integers, since arrays of 2^31 vertices are out of reach of the source's `int`.
