/**
 * Brush-face containment (src/brush/brush_face_containment.rs): for each brush, the faces of
 * other brushes whose vertices all lie inside the brush's hull, in face-list order.
 */
module BrushFaceContainment {
  import opened Ids
  import opened Wrappers
  import opened Geometry
  import opened Seqs

  /** The tables the pass reads. */
  datatype Input = Input(
    k: Kernel,
    brushes: seq<BrushId>,
    faces: seq<FaceId>,
    brushFaces: map<BrushId, seq<FaceId>>,
    brushHulls: map<BrushId, ConvexHull>,
    faceVertices: map<FaceId, seq<Vector3>>
  )

  /** Every brush has faces and a hull, and every face foreign to it has vertices. */
  predicate Complete(s: Input) {
    forall b :: b in s.brushes ==>
      b in s.brushFaces && b in s.brushHulls && forall f :: f in s.faces && f !in s.brushFaces[b] ==> f in s.faceVertices
  }

  /** Face `f` is not one of brush `b`'s own faces, and all of its vertices are inside `b`'s hull. */
  predicate Swallowed(s: Input, b: BrushId, f: FaceId)
    requires b in s.brushFaces && b in s.brushHulls
  {
    f !in s.brushFaces[b] && f in s.faceVertices
    && forall v :: v in s.faceVertices[f] ==> s.k.contains(s.brushHulls[b], v)
  }

  /**
   * `brush_face_containment`: one entry per listed brush, holding the swallowed faces in the order
   * of the face list. A missing lookup is a failure (`None`).
   */
  function BrushFaceContainment(s: Input): (r: Option<map<BrushId, seq<FaceId>>>)
    ensures r.Some? <==> Complete(s)
    ensures r.Some? ==> forall b :: b in r.value <==> b in s.brushes
    ensures r.Some? ==> forall b, f :: b in r.value ==>
      (f in r.value[b] <==> f in s.faces && f !in s.brushFaces[b]
                            && forall v :: v in s.faceVertices[f] ==> s.k.contains(s.brushHulls[b], v))
    ensures r.Some? ==> forall b :: b in r.value ==> IsSubsequence(r.value[b], s.faces)
    ensures r.Some? ==> forall b, f :: b in r.value ==>
      multiset(r.value[b])[f] ==
        if f !in s.brushFaces[b] && f in s.faceVertices
           && forall v :: v in s.faceVertices[f] ==> s.k.contains(s.brushHulls[b], v)
        then multiset(s.faces)[f] else 0
  {
    if !Complete(s) then None
    else Some(map b | b in s.brushes :: Contained(s, b))
  }

  /** The faces swallowed by brush `b`, each as often as the face list holds it. */
  function Contained(s: Input, b: BrushId): (r: seq<FaceId>)
    requires Complete(s) && b in s.brushes
    ensures forall f :: f in r <==> f in s.faces && Swallowed(s, b, f)
    ensures IsSubsequence(r, s.faces)
    ensures forall f :: multiset(r)[f] == if Swallowed(s, b, f) then multiset(s.faces)[f] else 0
  {
    FilterCounts(s.faces, f => Swallowed(s, b, f));
    Filter(s.faces, f => Swallowed(s, b, f))
  }

  /** A foreign face without vertices is listed for every brush. */
  lemma {:induction false} EmptyFaceListed(s: Input, b: BrushId, f: FaceId)
    requires Complete(s) && b in s.brushes && f in s.faces && f !in s.brushFaces[b] && s.faceVertices[f] == []
    ensures f in BrushFaceContainment(s).value[b]
  {
  }
}
