/** The first half of triangle generation: every live vertex, in array
    order, is appended to the output vertex arrays, and its `source` field
    is overwritten with its position there, so that the index buffer can
    refer to it. */
module Packing {
  import opened Records
  import opened Filter

  /** The output arrays of a mesh surface, as the engine receives them:
      four floats per tangent, and second texture coordinates only when
      they are enabled. */
  datatype MeshArrays = MeshArrays(points: seq<Vec3>, normals: seq<Vec3>, tangents: seq<real>,
                                   uvs: seq<Vec2>, uv2s: seq<Vec2>, indices: seq<int>)

  /** A tangent as the four floats the engine stores: its components and a
      handedness of 1. */
  function TangentFloats(t: Vec3): (f: seq<real>)
    ensures |f| == 4 && f[3] == 1.0 && f[0] == t.x && f[1] == t.y && f[2] == t.z
  {
    [t.x, t.y, t.z, 1.0]
  }

  /** The indices of the live vertices, in array order. */
  function LiveIndices(ep: seq<EdgePoint>): (l: seq<nat>)
    ensures |l| == LiveCount(ep)
    ensures forall r :: 0 <= r < |l| ==> l[r] < |ep| && !ep[l[r]].removed
    ensures forall r, s :: 0 <= r < s < |l| ==> l[r] < l[s]
  {
    if ep == [] then []
    else
      var p := LiveIndices(ep[..|ep| - 1]);
      if ep[|ep| - 1].removed then p else p + [|ep| - 1]
  }

  /** The position vertex k takes in the output arrays: the number of live
      vertices before it. */
  function Rank(ep: seq<EdgePoint>, k: nat): (r: nat)
    requires k <= |ep|
    ensures r <= k
  {
    LiveCount(ep[..k])
  }

  /** Every live vertex is listed, at its rank. */
  lemma {:induction false} RankIndex(ep: seq<EdgePoint>, k: nat)
    requires k < |ep| && !ep[k].removed
    ensures Rank(ep, k) < |LiveIndices(ep)| && LiveIndices(ep)[Rank(ep, k)] == k
    decreases |ep|
  {
    var front := ep[..|ep| - 1];
    if k == |ep| - 1 {
      assert front == ep[..k];
    } else {
      assert front[..k] == ep[..k];
      RankIndex(front, k);
    }
  }

  /** Ranks of live vertices are distinct, below the live count, and follow
      array order. */
  lemma {:induction false} RankOrder(ep: seq<EdgePoint>, k: nat, m: nat)
    requires k < m < |ep| && !ep[k].removed && !ep[m].removed
    ensures Rank(ep, k) < Rank(ep, m) < LiveCount(ep)
  {
    RankIndex(ep, k);
    RankIndex(ep, m);
    SortedIndex(LiveIndices(ep), Rank(ep, k), Rank(ep, m));
  }

  /** In a strictly increasing sequence, the smaller entry comes first. */
  lemma SortedIndex(l: seq<nat>, r: nat, s: nat)
    requires forall r', s' :: 0 <= r' < s' < |l| ==> l[r'] < l[s']
    requires r < |l| && s < |l| && l[r] < l[s]
    ensures r < s
  {
  }

  /** Output slot r of the vertex arrays holds attributes `at`. */
  ghost predicate CarriesAt(m: MeshArrays, at: Attributes, r: nat, addUv2: bool)
    requires r < |m.points| == |m.normals| == |m.uvs| && 4 * |m.points| == |m.tangents|
    requires addUv2 ==> |m.uv2s| == |m.points|
  {
    && m.points[r] == at.position && m.normals[r] == at.normal && m.uvs[r] == at.uv
    && (addUv2 ==> m.uv2s[r] == at.uv2)
    && m.tangents[4 * r..4 * r + 4] == TangentFloats(at.tangent)
  }

  /** The vertex arrays hold, slot by slot, the attributes of the vertices
      listed in `l`; second texture coordinates exist only when enabled. */
  ghost predicate Carries(m: MeshArrays, ep: seq<EdgePoint>, l: seq<nat>, addUv2: bool)
  {
    && |m.points| == |l| && |m.normals| == |l| && |m.uvs| == |l| && |m.tangents| == 4 * |l|
    && |m.uv2s| == (if addUv2 then |l| else 0)
    && forall r :: 0 <= r < |l| ==> l[r] < |ep| && CarriesAt(m, ep[l[r]].attrs, r, addUv2)
  }

  /** Appending one vertex's attributes to the vertex arrays. */
  function AddPoint(m: MeshArrays, at: Attributes, addUv2: bool): (m': MeshArrays)
    ensures m'.indices == m.indices
  {
    MeshArrays(m.points + [at.position], m.normals + [at.normal], m.tangents + TangentFloats(at.tangent),
               m.uvs + [at.uv], if addUv2 then m.uv2s + [at.uv2] else m.uv2s, m.indices)
  }

  lemma AddPointCarries(m: MeshArrays, ep: seq<EdgePoint>, l: seq<nat>, addUv2: bool, k: nat)
    requires Carries(m, ep, l, addUv2) && k < |ep|
    ensures Carries(AddPoint(m, ep[k].attrs, addUv2), ep, l + [k], addUv2)
  {
    var m' := AddPoint(m, ep[k].attrs, addUv2);
    var l' := l + [k];
    forall r | 0 <= r < |l'|
      ensures l'[r] < |ep| && CarriesAt(m', ep[l'[r]].attrs, r, addUv2)
    {
      if r < |l| {
        assert CarriesAt(m, ep[l[r]].attrs, r, addUv2);
        SliceFront(m.tangents, TangentFloats(ep[k].attrs.tangent), 4 * r);
      } else {
        SliceBack(m.tangents, TangentFloats(ep[k].attrs.tangent));
      }
    }
  }

  lemma SliceFront(a: seq<real>, b: seq<real>, i: nat)
    requires i + 4 <= |a|
    ensures (a + b)[i..i + 4] == a[i..i + 4]
  {
  }

  lemma SliceBack(a: seq<real>, b: seq<real>)
    requires |b| == 4
    ensures (a + b)[|a|..|a| + 4] == b
  {
  }

  /** A vertex after packing: a live vertex is renumbered to its rank, a
      removed one is untouched. */
  ghost predicate Renumbered(ep0: seq<EdgePoint>, ep: seq<EdgePoint>)
  {
    |ep| == |ep0| &&
    forall k :: 0 <= k < |ep| ==> ep[k] == if ep0[k].removed then ep0[k] else ep0[k].(source := Rank(ep0, k))
  }

  /** The packing loop of triangle generation: the vertex arrays list the
      live vertices in array order, and every live vertex's `source` is its
      slot there, which holds its own attributes. Nothing else changes. */
  method PackVertices(a: array<EdgePoint>, addUv2: bool) returns (m: MeshArrays)
    modifies a
    ensures m.indices == [] && Carries(m, old(a[..]), LiveIndices(old(a[..])), addUv2)
    ensures Renumbered(old(a[..]), a[..])
    ensures forall k :: 0 <= k < a.Length && !a[k].removed ==>
              0 <= a[k].source < |m.points| && CarriesAt(m, a[k].attrs, a[k].source, addUv2)
  {
    ghost var ep := a[..];
    m := MeshArrays([], [], [], [], [], []);
    for k := 0 to a.Length
      invariant m.indices == [] && Carries(m, ep, LiveIndices(ep[..k]), addUv2)
      invariant forall i :: 0 <= i < k ==> a[i] == if ep[i].removed then ep[i] else ep[i].(source := Rank(ep, i))
      invariant forall i :: k <= i < a.Length ==> a[i] == ep[i]
    {
      assert ep[..k + 1][..k] == ep[..k];
      if !a[k].removed {
        a[k] := a[k].(source := |m.points|);
        AddPointCarries(m, ep, LiveIndices(ep[..k]), addUv2, k);
        m := AddPoint(m, a[k].attrs, addUv2);
      }
    }
    assert ep[..a.Length] == ep;
    PackedSlots(ep, a[..], m, addUv2);
  }

  /** After packing, each live vertex's `source` is the slot that holds
      its attributes. */
  lemma {:induction false} PackedSlots(ep: seq<EdgePoint>, ep': seq<EdgePoint>, m: MeshArrays, addUv2: bool)
    requires Renumbered(ep, ep') && Carries(m, ep, LiveIndices(ep), addUv2)
    ensures forall k :: 0 <= k < |ep'| && !ep'[k].removed ==>
              0 <= ep'[k].source < |m.points| && CarriesAt(m, ep'[k].attrs, ep'[k].source, addUv2)
  {
    forall k | 0 <= k < |ep'| && !ep'[k].removed
      ensures 0 <= ep'[k].source < |m.points| && CarriesAt(m, ep'[k].attrs, ep'[k].source, addUv2)
    {
      RankIndex(ep, k);
    }
  }
}
