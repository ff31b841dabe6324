/**
 * The duplicate-face relation (src/face/face_duplicates.rs): two different faces whose planes
 * oppose, with the same number n of vertices, where the number of near (vertex, vertex)
 * combinations across the two faces is exactly n. The count does not require every vertex of
 * one face to be near a vertex of the other (`CountAdmitsUnmatchedVertex`).
 */
module FaceDuplicates {
  import opened Ids
  import opened Wrappers
  import opened Geometry

  /** How many of the positions `ys` are near `v`. */
  function NearCount(k: Kernel, v: Vector3, ys: seq<Vector3>): (r: nat)
    ensures r <= |ys|
  {
    if ys == [] then 0 else (if k.near(v, ys[0]) then 1 else 0) + NearCount(k, v, ys[1..])
  }

  /** The number of near (a, b) combinations, counted over all |xs| x |ys| combinations. */
  function PairCount(k: Kernel, xs: seq<Vector3>, ys: seq<Vector3>): (r: nat)
    ensures r <= |xs| * |ys|
  {
    if xs == [] then 0
    else
      var rest := PairCount(k, xs[1..], ys);
      assert rest <= (|xs| - 1) * |ys|;
      assert (|xs| - 1) * |ys| + |ys| == |xs| * |ys|;
      NearCount(k, xs[0], ys) + rest
  }

  lemma {:induction false} PairCountEmpty(k: Kernel, ys: seq<Vector3>)
    ensures PairCount(k, ys, []) == 0
  {
    if ys != [] {
      PairCountEmpty(k, ys[1..]);
    }
  }

  /** Putting `a` in front of the right-hand list adds the number of left-hand positions near it. */
  lemma {:induction false} PairCountCons(k: Kernel, xs: seq<Vector3>, a: Vector3, t: seq<Vector3>)
    requires NearIsSymmetric(k)
    ensures PairCount(k, xs, [a] + t) == NearCount(k, a, xs) + PairCount(k, xs, t)
  {
    if xs != [] {
      assert ([a] + t)[1..] == t;
      PairCountCons(k, xs[1..], a, t);
    }
  }

  /** With a symmetric distance test the count does not depend on which face comes first. */
  lemma {:induction false} PairCountSymmetric(k: Kernel, xs: seq<Vector3>, ys: seq<Vector3>)
    requires NearIsSymmetric(k)
    ensures PairCount(k, xs, ys) == PairCount(k, ys, xs)
  {
    if xs == [] {
      PairCountEmpty(k, ys);
    } else {
      PairCountSymmetric(k, xs[1..], ys);
      assert xs == [xs[0]] + xs[1..];
      PairCountCons(k, ys, xs[0], xs[1..]);
    }
  }

  /** The tables the duplicate pass reads: the face list, the face planes, the face vertices. */
  datatype Input = Input(k: Kernel, faces: seq<FaceId>, facePlanes: map<FaceId, Plane3d>,
                         faceVertices: map<FaceId, seq<Vector3>>)

  /** Every face of the list has a plane and a vertex list; otherwise the pass panics. */
  predicate Complete(s: Input) {
    forall f :: f in s.faces ==> f in s.facePlanes && f in s.faceVertices
  }

  /** The test the pass applies to the ordered pair (a, b) of faces. */
  predicate Duplicate(s: Input, a: FaceId, b: FaceId)
    requires a in s.facePlanes && a in s.faceVertices && b in s.facePlanes && b in s.faceVertices
  {
    var va, vb := s.faceVertices[a], s.faceVertices[b];
    a != b && s.k.opposes(s.facePlanes[a], s.facePlanes[b]) && |va| == |vb| && PairCount(s.k, va, vb) == |va|
  }

  /**
   * `face_duplicates`: for every ordered pair of listed faces that passes the test, both (a, b)
   * and (b, a) are recorded. A face without a plane or vertices is a failure (`None`).
   */
  function FaceDuplicates(s: Input): (r: Option<set<(FaceId, FaceId)>>)
    ensures r.Some? <==> Complete(s)
    ensures r.Some? ==> forall a, b :: (a, b) in r.value <==>
      a in s.faces && b in s.faces && (Duplicate(s, a, b) || Duplicate(s, b, a))
    ensures r.Some? ==> forall a, b :: (a, b) in r.value <==> (b, a) in r.value
    ensures r.Some? ==> forall a :: (a, a) !in r.value
  {
    if !Complete(s) then None
    else Some(set a, b | a in s.faces && b in s.faces && (Duplicate(s, a, b) || Duplicate(s, b, a)) :: (a, b))
  }

  /** Only pairs whose planes oppose and whose vertex counts agree are recorded. */
  lemma {:induction false} OnlyOpposing(s: Input, a: FaceId, b: FaceId)
    requires FaceDuplicates(s).Some? && (a, b) in FaceDuplicates(s).value
    ensures a in s.faces && b in s.faces && a != b
    ensures s.k.opposes(s.facePlanes[a], s.facePlanes[b]) || s.k.opposes(s.facePlanes[b], s.facePlanes[a])
    ensures |s.faceVertices[a]| == |s.faceVertices[b]|
  {
  }

  /**
   * With symmetric `near` and `opposes`, the test itself is symmetric, so a pair is recorded
   * exactly when it passes the test in the order (a, b).
   */
  lemma {:induction false} RecordedIff(s: Input, a: FaceId, b: FaceId)
    requires Complete(s) && NearIsSymmetric(s.k) && OpposesIsSymmetric(s.k)
    ensures (a, b) in FaceDuplicates(s).value <==> a in s.faces && b in s.faces && Duplicate(s, a, b)
  {
    if a in s.faces && b in s.faces {
      PairCountSymmetric(s.k, s.faceVertices[a], s.faceVertices[b]);
    }
  }

  /** Two different opposing faces without vertices are duplicates: a count of 0 equals 0. */
  lemma {:induction false} EmptyFacesDuplicate(s: Input, a: FaceId, b: FaceId)
    requires Complete(s) && a in s.faces && b in s.faces && a != b
    requires s.k.opposes(s.facePlanes[a], s.facePlanes[b])
    requires s.faceVertices[a] == [] && s.faceVertices[b] == []
    ensures (a, b) in FaceDuplicates(s).value && (b, a) in FaceDuplicates(s).value
  {
    assert Duplicate(s, a, b);
  }

  /**
   * The count test does not compare vertex sets: one vertex near both vertices of the other face
   * makes up for a vertex near neither, and the pair is still recorded.
   */
  lemma {:induction false} CountAdmitsUnmatchedVertex(s: Input, a: FaceId, b: FaceId,
                                                      a0: Vector3, a1: Vector3, b0: Vector3, b1: Vector3)
    requires Complete(s) && NearIsSymmetric(s.k) && a in s.faces && b in s.faces && a != b
    requires s.k.opposes(s.facePlanes[a], s.facePlanes[b])
    requires s.faceVertices[a] == [a0, a1] && s.faceVertices[b] == [b0, b1]
    requires s.k.near(a0, b0) && s.k.near(a0, b1) && !s.k.near(a1, b0) && !s.k.near(a1, b1)
    ensures (a, b) in FaceDuplicates(s).value && (b, a) in FaceDuplicates(s).value
    ensures a1 in s.faceVertices[a] && forall y :: y in s.faceVertices[b] ==> !s.k.near(a1, y)
  {
    var xs, ys := s.faceVertices[a], s.faceVertices[b];
    assert NearCount(s.k, a0, ys) == 2 by {
      assert ys[1..] == [b1] && ys[1..][1..] == [];
    }
    assert NearCount(s.k, a1, ys) == 0 by {
      assert ys[1..] == [b1] && ys[1..][1..] == [];
    }
    assert PairCount(s.k, xs, ys) == 2 by {
      assert xs[1..] == [a1] && xs[1..][1..] == [];
    }
    assert Duplicate(s, a, b);
  }
}
