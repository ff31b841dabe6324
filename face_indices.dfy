/**
 * Face winding (src/face/face_indices.rs): each face's vertex indices 0..n, sorted by the
 * angle of each vertex around the face centre, ascending for clockwise winding and descending
 * for counter-clockwise winding. An undefined angle (NaN) compares equal to everything.
 */
module FaceIndices {
  import opened Ids
  import opened Wrappers
  import opened Geometry

  /** `FaceWinding`. */
  datatype Winding = Clockwise | CounterClockwise

  /** `std::cmp::Ordering`. */
  datatype Ordering = Less | Equal | Greater

  /** `partial_cmp` on two defined reals. */
  function Cmp(x: real, y: real): Ordering {
    if x < y then Less else if x == y then Equal else Greater
  }

  /**
   * The sort comparator on two angle keys: reversed for counter-clockwise winding, and `Equal`
   * when either angle is undefined (`unwrap_or(Ordering::Equal)`).
   */
  function Compare(w: Winding, l: Option<real>, r: Option<real>): (o: Ordering)
    ensures l.Some? && r.Some? && w == Clockwise ==> (o == Greater <==> l.value > r.value)
    ensures l.Some? && r.Some? && w == CounterClockwise ==> (o == Greater <==> l.value < r.value)
    ensures l.None? || r.None? ==> o == Equal
  {
    if l.None? || r.None? then Equal
    else if w == CounterClockwise then Cmp(r.value, l.value)
    else Cmp(l.value, r.value)
  }

  /** Every angle key is defined. */
  predicate AllDefined(keys: seq<Option<real>>) {
    forall i :: 0 <= i < |keys| ==> keys[i].Some?
  }

  /** The key of vertex index `x`; an index without a key compares like an undefined angle. */
  function Key(keys: seq<Option<real>>, x: nat): Option<real> {
    if x < |keys| then keys[x] else None
  }

  /** Every index of `s` names a vertex. */
  predicate Bounded(s: seq<nat>, n: nat) {
    forall i :: 0 <= i < |s| ==> s[i] < n
  }

  /** Vertex `x` may come before vertex `y`: the comparator does not put `x` after `y`. */
  predicate InOrder(w: Winding, keys: seq<Option<real>>, x: nat, y: nat) {
    Compare(w, Key(keys, x), Key(keys, y)) != Greater
  }

  /** With defined keys the comparator is a total preorder: it is transitive. */
  lemma InOrderTransitive(w: Winding, keys: seq<Option<real>>, x: nat, y: nat, z: nat)
    requires AllDefined(keys) && x < |keys| && y < |keys| && z < |keys|
    requires InOrder(w, keys, x, y) && InOrder(w, keys, y, z)
    ensures InOrder(w, keys, x, z)
  {
  }

  /** Every pair of indices in `s` is in comparator order. */
  predicate Sorted(w: Winding, keys: seq<Option<real>>, s: seq<nat>) {
    forall p, q :: 0 <= p < q < |s| ==> InOrder(w, keys, s[p], s[q])
  }

  /** The first `n` entries of `s` are in comparator order. */
  predicate SortedPrefix(w: Winding, keys: seq<Option<real>>, s: seq<nat>, n: nat) {
    forall p, q :: 0 <= p < q < n && q < |s| ==> InOrder(w, keys, s[p], s[q])
  }

  /**
   * While the element at `j` sinks towards the front: the entries up to `i` other than the one at
   * `j` are in order, and the sinking element is in order with everything after it.
   */
  predicate Sinking(w: Winding, keys: seq<Option<real>>, s: seq<nat>, i: nat, j: nat)
    requires j <= i < |s|
  {
    (forall p, q :: 0 <= p < q <= i && p != j && q != j ==> InOrder(w, keys, s[p], s[q]))
    && forall q :: j < q <= i ==> InOrder(w, keys, s[j], s[q])
  }

  /** The indices 0..n in order (`(0..n).collect()`). */
  function Range(n: nat): (r: seq<nat>)
    ensures |r| == n && forall i :: 0 <= i < n ==> r[i] == i
  {
    if n == 0 then [] else Range(n - 1) + [n - 1]
  }

  /** Before the first swap the element at `i` is the sinking one. */
  lemma SinkStart(w: Winding, keys: seq<Option<real>>, s: seq<nat>, i: nat)
    requires i < |s| && SortedPrefix(w, keys, s, i)
    ensures Sinking(w, keys, s, i, i)
  {
  }

  /** Swapping the sinking element with an earlier neighbour that belongs after it keeps it sinking. */
  lemma {:induction false} SinkSwap(w: Winding, keys: seq<Option<real>>, s: seq<nat>, i: nat, j: nat)
    requires 0 < j <= i < |s| && AllDefined(keys) && Bounded(s, |keys|)
    requires Sinking(w, keys, s, i, j) && Compare(w, Key(keys, s[j - 1]), Key(keys, s[j])) == Greater
    ensures Sinking(w, keys, s[j - 1 := s[j]][j := s[j - 1]], i, j - 1)
  {
    var t := s[j - 1 := s[j]][j := s[j - 1]];
    assert InOrder(w, keys, s[j], s[j - 1]);
    forall q | j - 1 < q <= i ensures InOrder(w, keys, t[j - 1], t[q]) {
      if q > j {
        assert InOrder(w, keys, s[j], s[q]);
      }
    }
  }

  /** Once the sinking element stops behind an element it may follow, the prefix up to `i` is in order. */
  lemma {:induction false} SinkStop(w: Winding, keys: seq<Option<real>>, s: seq<nat>, i: nat, j: nat)
    requires j <= i < |s| && AllDefined(keys) && Bounded(s, |keys|)
    requires Sinking(w, keys, s, i, j) && (j > 0 ==> InOrder(w, keys, s[j - 1], s[j]))
    ensures SortedPrefix(w, keys, s, i + 1)
  {
    forall p, q | 0 <= p < q < i + 1 ensures InOrder(w, keys, s[p], s[q]) {
      if q == j && p < j - 1 {
        InOrderTransitive(w, keys, s[p], s[j - 1], s[j]);
      }
    }
  }

  /** Exchanges two entries of the array; its contents keep their multiset. */
  method Swap(a: array<nat>, i: nat, j: nat)
    modifies a
    requires i < a.Length && j < a.Length
    ensures a[..] == old(a[..])[i := old(a[j])][j := old(a[i])]
    ensures multiset(a[..]) == multiset(old(a[..]))
  {
    a[i], a[j] := a[j], a[i];
  }

  /**
   * One pass of the insertion sort: the entry at `i` sinks past every earlier entry the
   * comparator puts after it, so the first `i + 1` entries are in order when every key is defined.
   */
  method Sink(a: array<nat>, keys: seq<Option<real>>, w: Winding, i: nat)
    modifies a
    requires i < a.Length && Bounded(a[..], |keys|)
    requires AllDefined(keys) ==> SortedPrefix(w, keys, a[..], i)
    ensures multiset(a[..]) == multiset(old(a[..])) && Bounded(a[..], |keys|)
    ensures AllDefined(keys) ==> SortedPrefix(w, keys, a[..], i + 1)
  {
    ghost var defined := AllDefined(keys);
    if defined {
      SinkStart(w, keys, a[..], i);
    }
    var j := i;
    while j > 0 && Compare(w, Key(keys, a[j - 1]), Key(keys, a[j])) == Greater
      invariant 0 <= j <= i
      invariant multiset(a[..]) == multiset(old(a[..])) && Bounded(a[..], |keys|)
      invariant defined ==> Sinking(w, keys, a[..], i, j)
    {
      if defined {
        SinkSwap(w, keys, a[..], i, j);
      }
      Swap(a, j - 1, j);
      j := j - 1;
    }
    if defined {
      SinkStop(w, keys, a[..], i, j);
    }
  }

  /**
   * `sort_unstable_by` with the winding comparator, as an insertion sort by adjacent swaps:
   * the contents are permuted, and when every key is defined they end up in comparator order.
   */
  method SortByAngle(a: array<nat>, keys: seq<Option<real>>, w: Winding)
    modifies a
    requires Bounded(a[..], |keys|)
    ensures multiset(a[..]) == multiset(old(a[..])) && Bounded(a[..], |keys|)
    ensures AllDefined(keys) ==> Sorted(w, keys, a[..])
  {
    for i := 0 to a.Length
      invariant multiset(a[..]) == multiset(old(a[..])) && Bounded(a[..], |keys|)
      invariant AllDefined(keys) ==> SortedPrefix(w, keys, a[..], i)
    {
      Sink(a, keys, w, i);
    }
  }

  /**
   * The winding order of one face's vertices, given their angle keys: the indices 0..n, sorted
   * in place by the comparator.
   */
  method WindingOrder(keys: seq<Option<real>>, w: Winding) returns (r: seq<nat>)
    ensures multiset(r) == multiset(Range(|keys|)) && Bounded(r, |keys|)
    ensures AllDefined(keys) ==> Sorted(w, keys, r)
  {
    var range := Range(|keys|);
    var indices := new nat[|keys|](i requires 0 <= i < |keys| => range[i]);
    assert indices[..] == range;
    SortByAngle(indices, keys, w);
    r := indices[..];
  }

  /** The range 0..n holds exactly the indices below n. */
  lemma {:induction false} RangeMembers(n: nat)
    ensures forall i: nat :: i in Range(n) <==> i < n
  {
    forall i: nat ensures i in Range(n) <==> i < n {
      if i < n {
        assert Range(n)[i] == i;
      }
    }
  }

  /** The range 0..n holds each index at most once. */
  lemma {:induction false} RangeOnce(n: nat, x: nat)
    ensures multiset(Range(n))[x] <= 1
  {
    if n > 0 {
      RangeOnce(n - 1, x);
      RangeMembers(n - 1);
      assert Range(n) == Range(n - 1) + [n - 1];
    }
  }

  /** A value at two positions of a sequence occurs at least twice in its multiset. */
  lemma {:induction false} MultisetTwice(r: seq<nat>, p: nat, q: nat)
    requires p < q < |r| && r[p] == r[q]
    ensures multiset(r)[r[p]] >= 2
  {
    assert r == r[..q] + [r[q]] + r[q + 1..];
    assert r[p] in r[..q];
    assert multiset(r) == multiset(r[..q]) + multiset{r[q]} + multiset(r[q + 1..]);
  }

  /** A winding order is a permutation of 0..n: it has n entries and holds each index exactly once. */
  lemma {:induction false} PermutationFacts(r: seq<nat>, n: nat)
    requires multiset(r) == multiset(Range(n))
    ensures |r| == n
    ensures forall i: nat :: i in r <==> i < n
    ensures forall p, q :: 0 <= p < q < |r| ==> r[p] != r[q]
  {
    assert |r| == |multiset(r)| == |multiset(Range(n))| == n;
    RangeMembers(n);
    forall i: nat ensures i in r <==> i < n {
      assert i in r <==> i in multiset(r);
      assert i in Range(n) <==> i in multiset(Range(n));
    }
    forall p, q | 0 <= p < q < |r| ensures r[p] != r[q] {
      if r[p] == r[q] {
        RangeOnce(n, r[p]);
        MultisetTwice(r, p, q);
      }
    }
  }

  /**
   * Sorted means: ascending angles for clockwise winding, descending angles for counter-clockwise
   * winding.
   */
  lemma {:induction false} SortedMeaning(w: Winding, keys: seq<Option<real>>, r: seq<nat>)
    requires AllDefined(keys) && Bounded(r, |keys|)
    requires Sorted(w, keys, r)
    ensures w == Clockwise ==> forall p, q :: 0 <= p < q < |r| ==> keys[r[p]].value <= keys[r[q]].value
    ensures w == CounterClockwise ==> forall p, q :: 0 <= p < q < |r| ==> keys[r[p]].value >= keys[r[q]].value
  {
    forall p, q | 0 <= p < q < |r|
      ensures w == Clockwise ==> keys[r[p]].value <= keys[r[q]].value
      ensures w == CounterClockwise ==> keys[r[p]].value >= keys[r[q]].value
    {
      assert InOrder(w, keys, r[p], r[q]);
    }
  }

  /** A face with no vertex gets no index, and a face with one vertex gets the single index 0. */
  lemma {:induction false} SmallFaces(r: seq<nat>, n: nat)
    requires n <= 1 && multiset(r) == multiset(Range(n))
    ensures n == 0 ==> r == []
    ensures n == 1 ==> r == [0]
  {
    PermutationFacts(r, n);
    if n == 1 {
      assert r[0] in r;
    }
  }

  /** The angle keys of a face's vertices, from its defining triangle, plane and centre. */
  function Angles(k: Kernel, face: TrianglePlane, plane: Plane3d, center: Vector3, vs: seq<Vector3>)
    : (r: seq<Option<real>>)
    ensures |r| == |vs| && forall i :: 0 <= i < |vs| ==> r[i] == k.angle(face, plane, center, vs[i])
  {
    if vs == [] then [] else Angles(k, face, plane, center, vs[..|vs| - 1]) + [k.angle(face, plane, center, vs[|vs| - 1])]
  }

  /** Every face with vertices has a defining triangle, a plane and a centre; otherwise indexing panics. */
  predicate Complete(faceVertices: map<FaceId, seq<Vector3>>, facePlanes: map<FaceId, TrianglePlane>,
                     geoPlanes: map<FaceId, Plane3d>, faceCenters: map<FaceId, Vector3>)
  {
    forall f :: f in faceVertices ==> f in facePlanes && f in geoPlanes && f in faceCenters
  }

  /** `r` is a valid winding of face `f`: a permutation of its indices, in angle order when every angle is defined. */
  predicate Wound(k: Kernel, w: Winding, faceVertices: map<FaceId, seq<Vector3>>, facePlanes: map<FaceId, TrianglePlane>,
                  geoPlanes: map<FaceId, Plane3d>, faceCenters: map<FaceId, Vector3>, f: FaceId, r: seq<nat>)
    requires f in faceVertices && f in facePlanes && f in geoPlanes && f in faceCenters
  {
    var keys := Angles(k, facePlanes[f], geoPlanes[f], faceCenters[f], faceVertices[f]);
    multiset(r) == multiset(Range(|keys|)) && Bounded(r, |keys|) && (AllDefined(keys) ==> Sorted(w, keys, r))
  }

  /** Every face of `out` has its inputs and a valid winding. */
  ghost predicate AllWound(k: Kernel, w: Winding, faceVertices: map<FaceId, seq<Vector3>>, facePlanes: map<FaceId, TrianglePlane>,
                           geoPlanes: map<FaceId, Plane3d>, faceCenters: map<FaceId, Vector3>, out: map<FaceId, seq<nat>>)
  {
    forall f :: f in out ==>
      f in faceVertices && f in facePlanes && f in geoPlanes && f in faceCenters
      && Wound(k, w, faceVertices, facePlanes, geoPlanes, faceCenters, f, out[f])
  }

  /** Adding one validly wound face keeps the whole table validly wound. */
  lemma WoundStep(k: Kernel, w: Winding, faceVertices: map<FaceId, seq<Vector3>>, facePlanes: map<FaceId, TrianglePlane>,
                  geoPlanes: map<FaceId, Plane3d>, faceCenters: map<FaceId, Vector3>, out: map<FaceId, seq<nat>>,
                  f: FaceId, order: seq<nat>)
    requires AllWound(k, w, faceVertices, facePlanes, geoPlanes, faceCenters, out)
    requires f in faceVertices && f in facePlanes && f in geoPlanes && f in faceCenters
    requires Wound(k, w, faceVertices, facePlanes, geoPlanes, faceCenters, f, order)
    ensures AllWound(k, w, faceVertices, facePlanes, geoPlanes, faceCenters, out[f := order])
  {
  }

  /** The winding order of face `f`, from its vertices' angle keys. */
  method WindFace(k: Kernel, facePlanes: map<FaceId, TrianglePlane>, geoPlanes: map<FaceId, Plane3d>,
                  faceVertices: map<FaceId, seq<Vector3>>, faceCenters: map<FaceId, Vector3>, w: Winding, f: FaceId)
    returns (order: seq<nat>)
    requires f in faceVertices && f in facePlanes && f in geoPlanes && f in faceCenters
    ensures Wound(k, w, faceVertices, facePlanes, geoPlanes, faceCenters, f, order)
  {
    var keys := Angles(k, facePlanes[f], geoPlanes[f], faceCenters[f], faceVertices[f]);
    order := WindingOrder(keys, w);
  }

  /**
   * `face_indices`: one entry per face of the vertex table, holding its winding order. A face
   * without a defining triangle, plane or centre is a failure, since indexing panics.
   */
  method FaceIndices(k: Kernel, facePlanes: map<FaceId, TrianglePlane>, geoPlanes: map<FaceId, Plane3d>,
                     faceVertices: map<FaceId, seq<Vector3>>, faceCenters: map<FaceId, Vector3>, w: Winding)
    returns (r: Option<map<FaceId, seq<nat>>>)
    ensures r.None? <==> !Complete(faceVertices, facePlanes, geoPlanes, faceCenters)
    ensures r.Some? ==> r.value.Keys == faceVertices.Keys
    ensures r.Some? ==> AllWound(k, w, faceVertices, facePlanes, geoPlanes, faceCenters, r.value)
  {
    if !Complete(faceVertices, facePlanes, geoPlanes, faceCenters) {
      return None;
    }
    var out: map<FaceId, seq<nat>> := map[];
    var remaining := faceVertices.Keys;
    while remaining != {}
      invariant out.Keys !! remaining && out.Keys + remaining == faceVertices.Keys
      invariant AllWound(k, w, faceVertices, facePlanes, geoPlanes, faceCenters, out)
      decreases remaining
    {
      var f :| f in remaining;
      var order := WindFace(k, facePlanes, geoPlanes, faceVertices, faceCenters, w, f);
      WoundStep(k, w, faceVertices, facePlanes, geoPlanes, faceCenters, out, f, order);
      out := out[f := order];
      remaining := remaining - {f};
    }
    return Some(out);
  }
}
