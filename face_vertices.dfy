/**
 * Face vertices (src/face/face_vertices.rs): every face's vertices are the triplanar
 * intersections of its plane with each ordered pair of its brush's planes that lie inside the
 * brush's hull, with runs of equal positions collapsed. Each vertex also records the three
 * planes that produced it.
 */
module FaceVertices {
  import opened Ids
  import opened Wrappers
  import opened Geometry
  import opened Seqs

  /** The ids of the three planes meeting at a vertex; the face's own plane comes first. */
  type Triple = (FaceId, FaceId, FaceId)

  /** A vertex candidate: the planes that produced it and its position. */
  datatype Vertex = Vertex(planes: Triple, position: Vector3)

  /** The two per-face tables of `FaceVertices`. */
  datatype FaceVertices = FaceVertices(vertices: map<FaceId, seq<Vector3>>, vertexPlanes: map<FaceId, seq<Triple>>)

  /**
   * `triplanar_intersection`: no point when the signed denominator is below EPSILON, so a
   * negative denominator is rejected as well as a near-zero one.
   */
  function TriplanarIntersection(k: Kernel, p0: Plane3d, p1: Plane3d, p2: Plane3d): (r: Option<Vector3>)
    ensures r.None? <==> k.denominator(p0, p1, p2) < EPSILON
    ensures r.Some? ==> r.value == k.solve(p0, p1, p2)
  {
    var denom := k.denominator(p0, p1, p2);
    if denom < EPSILON then None else Some(k.solve(p0, p1, p2))
  }

  /** Three planes whose normals have a negative triple product never yield a vertex. */
  lemma {:induction false} NegativeDenominatorRejected(k: Kernel, p0: Plane3d, p1: Plane3d, p2: Plane3d)
    requires k.denominator(p0, p1, p2) <= 0.0
    ensures TriplanarIntersection(k, p0, p1, p2) == None
  {
  }

  /**
   * The candidate planes of a brush: the ids of `facePlanes` that occur in the brush's list, in
   * the ascending order of the face-plane table rather than the order of the list.
   */
  function Candidates(facePlanes: map<FaceId, Plane3d>, ids: seq<FaceId>): (r: seq<FaceId>)
    ensures StrictlyIncreasing(r)
    ensures forall f :: f in r <==> f in facePlanes && f in ids
  {
    var listed: nat -> bool := f => f in ids;
    SortedKeysIncreasing(facePlanes.Keys);
    FilterIncreasing(SortedKeys(facePlanes.Keys), listed);
    Filter(SortedKeys(facePlanes.Keys), listed)
  }

  /** Planes `p0`, `p1`, `p2` meet in a point, and that point is inside the hull. */
  predicate Hit(k: Kernel, hull: ConvexHull, planes: map<FaceId, Plane3d>, p0: FaceId, p1: FaceId, p2: FaceId)
    requires p0 in planes && p1 in planes && p2 in planes
  {
    var v := TriplanarIntersection(k, planes[p0], planes[p1], planes[p2]);
    v.Some? && k.contains(hull, v.value)
  }

  /** `x` is a vertex of face `p0`: its planes meet exactly at its position, inside the hull. */
  predicate Kept(k: Kernel, hull: ConvexHull, planes: map<FaceId, Plane3d>, p0: FaceId, x: Vertex)
    requires p0 in planes
  {
    x.planes.0 == p0 && x.planes.1 in planes && x.planes.2 in planes
    && TriplanarIntersection(k, planes[p0], planes[x.planes.1], planes[x.planes.2]) == Some(x.position)
    && k.contains(hull, x.position)
  }

  /** One pass of the inner loop: the vertex of `p0`, `p1`, `p2`, when they meet inside the hull. */
  function Meet(k: Kernel, hull: ConvexHull, planes: map<FaceId, Plane3d>, p0: FaceId, p1: FaceId, p2: FaceId)
    : seq<Vertex>
    requires p0 in planes && p1 in planes && p2 in planes
  {
    match TriplanarIntersection(k, planes[p0], planes[p1], planes[p2])
    case Some(v) => if k.contains(hull, v) then [Vertex((p0, p1, p2), v)] else []
    case None => []
  }

  /** The inner loop of `intersect_planes` for one outer plane `p1`, over the inner planes `ps`. */
  function Row(k: Kernel, hull: ConvexHull, planes: map<FaceId, Plane3d>, p0: FaceId, p1: FaceId, ps: seq<FaceId>)
    : seq<Vertex>
    requires p0 in planes && p1 in planes && forall p :: p in ps ==> p in planes
  {
    if ps == [] then []
    else Row(k, hull, planes, p0, p1, ps[..|ps| - 1]) + Meet(k, hull, planes, p0, p1, ps[|ps| - 1])
  }

  /** `intersect_planes` as a value: the rows of the outer planes `qs` in order. */
  function Grid(k: Kernel, hull: ConvexHull, planes: map<FaceId, Plane3d>, p0: FaceId, qs: seq<FaceId>, ps: seq<FaceId>)
    : seq<Vertex>
    requires p0 in planes && (forall p :: p in qs ==> p in planes) && forall p :: p in ps ==> p in planes
  {
    if qs == [] then []
    else Grid(k, hull, planes, p0, qs[..|qs| - 1], ps) + Row(k, hull, planes, p0, qs[|qs| - 1], ps)
  }

  /** A row holds at most one vertex per inner plane. */
  lemma {:induction false} RowBound(k: Kernel, hull: ConvexHull, planes: map<FaceId, Plane3d>, p0: FaceId, p1: FaceId,
                                    ps: seq<FaceId>)
    requires p0 in planes && p1 in planes && forall p :: p in ps ==> p in planes
    ensures |Row(k, hull, planes, p0, p1, ps)| <= |ps|
  {
    if ps != [] {
      RowBound(k, hull, planes, p0, p1, ps[..|ps| - 1]);
    }
  }

  /**
   * Every vertex in a row is kept for `p0` and `p1`, and every inner plane that meets `p0` and `p1` inside the hull contributes its vertex.
   */
  lemma {:induction false} RowFacts(k: Kernel, hull: ConvexHull, planes: map<FaceId, Plane3d>, p0: FaceId, p1: FaceId,
                                    ps: seq<FaceId>)
    requires p0 in planes && p1 in planes && forall p :: p in ps ==> p in planes
    ensures forall x :: x in Row(k, hull, planes, p0, p1, ps) ==>
      Kept(k, hull, planes, p0, x) && x.planes.1 == p1 && x.planes.2 in ps
    ensures forall p2 :: p2 in ps && Hit(k, hull, planes, p0, p1, p2) ==>
      Vertex((p0, p1, p2), TriplanarIntersection(k, planes[p0], planes[p1], planes[p2]).value) in Row(k, hull, planes, p0, p1, ps)
  {
    if ps != [] {
      var front, last := ps[..|ps| - 1], ps[|ps| - 1];
      assert forall p :: p in ps ==> p in front || p == last;
      RowFacts(k, hull, planes, p0, p1, front);
    }
  }

  /** `intersect_planes` tries each ordered pair once: at most one vertex per pair. */
  lemma {:induction false} GridBound(k: Kernel, hull: ConvexHull, planes: map<FaceId, Plane3d>, p0: FaceId,
                                     qs: seq<FaceId>, ps: seq<FaceId>)
    requires p0 in planes && (forall p :: p in qs ==> p in planes) && forall p :: p in ps ==> p in planes
    ensures |Grid(k, hull, planes, p0, qs, ps)| <= |qs| * |ps|
  {
    if qs != [] {
      var front, last := qs[..|qs| - 1], qs[|qs| - 1];
      GridBound(k, hull, planes, p0, front, ps);
      RowBound(k, hull, planes, p0, last, ps);
      assert Grid(k, hull, planes, p0, qs, ps) == Grid(k, hull, planes, p0, front, ps) + Row(k, hull, planes, p0, last, ps);
      RowsBound(|qs|, |ps|, |Grid(k, hull, planes, p0, front, ps)|, |Row(k, hull, planes, p0, last, ps)|);
    }
  }

  /** `n - 1` rows of at most `w`, plus one more, hold at most `n * w`. */
  lemma RowsBound(n: nat, w: nat, x: nat, y: nat)
    requires 1 <= n && x <= (n - 1) * w && y <= w
    ensures x + y <= n * w
  {
  }

  /** Every vertex `intersect_planes` keeps is a vertex of `p0` whose outer plane is from `qs` and inner plane from `ps`. */
  lemma {:induction false} GridSound(k: Kernel, hull: ConvexHull, planes: map<FaceId, Plane3d>, p0: FaceId,
                                     qs: seq<FaceId>, ps: seq<FaceId>)
    requires p0 in planes && (forall p :: p in qs ==> p in planes) && forall p :: p in ps ==> p in planes
    ensures forall x :: x in Grid(k, hull, planes, p0, qs, ps) ==>
      Kept(k, hull, planes, p0, x) && x.planes.1 in qs && x.planes.2 in ps
  {
    if qs != [] {
      var front, last := qs[..|qs| - 1], qs[|qs| - 1];
      GridSound(k, hull, planes, p0, front, ps);
      RowFacts(k, hull, planes, p0, last, ps);
    }
  }

  /** Every ordered pair from `qs` and `ps` that meets `p0` inside the hull contributes its vertex. */
  lemma {:induction false} GridComplete(k: Kernel, hull: ConvexHull, planes: map<FaceId, Plane3d>, p0: FaceId,
                                        qs: seq<FaceId>, ps: seq<FaceId>)
    requires p0 in planes && (forall p :: p in qs ==> p in planes) && forall p :: p in ps ==> p in planes
    ensures forall p1, p2 :: p1 in qs && p2 in ps && Hit(k, hull, planes, p0, p1, p2) ==>
      Vertex((p0, p1, p2), TriplanarIntersection(k, planes[p0], planes[p1], planes[p2]).value) in Grid(k, hull, planes, p0, qs, ps)
  {
    if qs != [] {
      var front, last := qs[..|qs| - 1], qs[|qs| - 1];
      assert forall p :: p in qs ==> p in front || p == last;
      GridComplete(k, hull, planes, p0, front, ps);
      RowFacts(k, hull, planes, p0, last, ps);
    }
  }

  /** The inner loop of `intersect_planes`: the kept vertices of `p0`, `p1` and each inner plane of `cs`. */
  method IntersectRow(k: Kernel, p0: FaceId, p1: FaceId, cs: seq<FaceId>, planes: map<FaceId, Plane3d>, hull: ConvexHull)
    returns (row: seq<Vertex>)
    requires p0 in planes && p1 in planes && forall p :: p in cs ==> p in planes
    ensures row == Row(k, hull, planes, p0, p1, cs)
  {
    row := [];
    for j := 0 to |cs|
      invariant row == Row(k, hull, planes, p0, p1, cs[..j])
    {
      var p2 := cs[j];
      var position := TriplanarIntersection(k, planes[p0], planes[p1], planes[p2]);
      if position.Some? && k.contains(hull, position.value) {
        row := row + [Vertex((p0, p1, p2), position.value)];
      }
      assert cs[..j + 1][..j] == cs[..j];
    }
    assert cs[..|cs|] == cs;
  }

  /**
   * `intersect_planes`: for each candidate `p1` in order, the inner loop over the candidates
   * appends the kept vertices of `p0`, `p1` and `p2`.
   */
  method IntersectPlanes(k: Kernel, p0: FaceId, cs: seq<FaceId>, planes: map<FaceId, Plane3d>, hull: ConvexHull)
    returns (out: seq<Vertex>)
    requires p0 in planes && forall p :: p in cs ==> p in planes
    ensures out == Grid(k, hull, planes, p0, cs, cs)
  {
    out := [];
    for i := 0 to |cs|
      invariant out == Grid(k, hull, planes, p0, cs[..i], cs)
    {
      var row := IntersectRow(k, p0, cs[i], cs, planes, hull);
      out := out + row;
      assert cs[..i + 1][..i] == cs[..i];
    }
    assert cs[..|cs|] == cs;
  }

  /**
   * `dedup_by(|(_, lhs), (_, rhs)| lhs == rhs)`: a vertex is dropped when its position compares
   * equal (f32 `==`) to the position of the last vertex kept, so each run of equal positions
   * collapses to its first vertex.
   */
  function Dedup(k: Kernel, vs: seq<Vertex>): seq<Vertex>
  {
    if vs == [] then []
    else
      var d := Dedup(k, vs[..|vs| - 1]);
      if d != [] && k.eq(vs[|vs| - 1].position, d[|d| - 1].position) then d else d + [vs[|vs| - 1]]
  }

  /**
   * De-duplication never lengthens the list and empties only the empty list; its last survivor
   * is the last input or a vertex whose position the last input compares equal to.
   */
  lemma {:induction false} DedupShape(k: Kernel, vs: seq<Vertex>)
    ensures |Dedup(k, vs)| <= |vs|
    ensures Dedup(k, vs) == [] <==> vs == []
    ensures vs != [] ==> var last := Dedup(k, vs)[|Dedup(k, vs)| - 1];
      last == vs[|vs| - 1] || k.eq(vs[|vs| - 1].position, last.position)
  {
    if vs != [] {
      DedupShape(k, vs[..|vs| - 1]);
    }
  }

  /** `dedup_by` only deletes: its result is a subsequence of its input. */
  lemma {:induction false} DedupSubsequence(k: Kernel, vs: seq<Vertex>)
    ensures IsSubsequence(Dedup(k, vs), vs)
  {
    if vs != [] {
      var s, x := vs[..|vs| - 1], vs[|vs| - 1];
      assert vs == s + [x];
      DedupSubsequence(k, s);
      SubsequenceExtend(Dedup(k, s), s, x);
    }
  }

  /** No survivor's position compares equal to the position of the survivor before it. */
  lemma {:induction false} DedupNoAdjacent(k: Kernel, vs: seq<Vertex>)
    ensures forall i :: 0 <= i < |Dedup(k, vs)| - 1 ==> !k.eq(Dedup(k, vs)[i + 1].position, Dedup(k, vs)[i].position)
  {
    if vs != [] {
      DedupNoAdjacent(k, vs[..|vs| - 1]);
    }
  }

  /**
   * Every input vertex is kept or is represented by a survivor its position compares equal to:
   * only repeats of a survivor's position are dropped.
   */
  lemma {:induction false} DedupKeepsPositions(k: Kernel, vs: seq<Vertex>)
    ensures forall x :: x in vs ==> x in Dedup(k, vs) || exists y :: y in Dedup(k, vs) && k.eq(x.position, y.position)
  {
    if vs != [] {
      var s, x := vs[..|vs| - 1], vs[|vs| - 1];
      var d := Dedup(k, s);
      assert vs == s + [x];
      DedupKeepsPositions(k, s);
      forall y | y in vs ensures y in Dedup(k, vs) || exists z :: z in Dedup(k, vs) && k.eq(y.position, z.position) {
        if y in s {
          if y !in d {
            var z :| z in d && k.eq(y.position, z.position);
            assert z in Dedup(k, vs);
          }
        } else if d != [] && k.eq(x.position, d[|d| - 1].position) {
          assert d[|d| - 1] in Dedup(k, vs);
        } else {
          assert Dedup(k, vs)[|Dedup(k, vs)| - 1] == x;
        }
      }
    }
  }

  /**
   * A vertex whose position compares equal to nothing (a NaN component) is never dropped, even
   * next to a vertex with the same value.
   */
  lemma {:induction false} DedupKeepsIncomparable(k: Kernel, vs: seq<Vertex>, x: Vertex)
    requires x in vs && forall v :: !k.eq(x.position, v)
    ensures x in Dedup(k, vs)
  {
    var s := vs[..|vs| - 1];
    assert vs == s + [vs[|vs| - 1]];
    if x in s {
      DedupKeepsIncomparable(k, s, x);
    }
  }

  /**
   * One more input: it survives exactly when its position does not compare equal to the last
   * survivor's.
   */
  lemma DedupStep(k: Kernel, s: seq<Vertex>, r: nat)
    requires 1 <= r < |s|
    ensures |Dedup(k, s[..r])| > 0
    ensures Dedup(k, s[..r + 1]) == if k.eq(s[r].position, Dedup(k, s[..r])[|Dedup(k, s[..r])| - 1].position) then Dedup(k, s[..r])
                                    else Dedup(k, s[..r]) + [s[r]]
  {
    DedupShape(k, s[..r]);
    assert s[..r + 1][..r] == s[..r];
  }

  /**
   * `dedup_by` in place on `a`: the surviving vertices are moved to the front and their count is
   * returned (`verts` is then truncated to it).
   */
  method DedupInPlace(k: Kernel, a: array<Vertex>) returns (len: nat)
    modifies a
    ensures len <= a.Length
    ensures a[..len] == Dedup(k, old(a[..]))
  {
    ghost var s := a[..];
    if a.Length <= 1 {
      assert a[..a.Length] == s;
      if a.Length == 1 {
        assert s[..0] == [];
      }
      return a.Length;
    }
    assert s[..1][..0] == [];
    var w, r := 1, 1;
    while r < a.Length
      invariant 1 <= w <= r <= a.Length
      invariant a[..w] == Dedup(k, s[..r])
      invariant forall i :: r <= i < a.Length ==> a[i] == s[i]
    {
      w := DedupOne(k, a, s, w, r);
      r := r + 1;
    }
    assert s[..r] == s;
    return w;
  }

  /** One turn of the compaction: input `r` is moved to slot `w` unless the last survivor absorbs it. */
  method DedupOne(k: Kernel, a: array<Vertex>, ghost s: seq<Vertex>, w: nat, r: nat) returns (w': nat)
    modifies a
    requires |s| == a.Length && 1 <= w <= r < a.Length
    requires a[..w] == Dedup(k, s[..r])
    requires forall i :: r <= i < a.Length ==> a[i] == s[i]
    ensures w <= w' <= r + 1
    ensures a[..w'] == Dedup(k, s[..r + 1])
    ensures forall i :: r + 1 <= i < a.Length ==> a[i] == s[i]
  {
    ghost var d := a[..w];
    DedupStep(k, s, r);
    assert a[r] == s[r] && a[w - 1] == d[|d| - 1];
    w' := w;
    if !k.eq(a[r].position, a[w - 1].position) {
      a[w] := a[r];
      assert a[..w + 1] == d + [s[r]];
      w' := w + 1;
    }
  }

  /** One face of `FaceVertices::new`: intersect its plane with the candidates, then de-duplicate in place. */
  method FaceEntryOf(k: Kernel, planes: map<FaceId, Plane3d>, hull: ConvexHull, ids: seq<FaceId>, cs: seq<FaceId>,
                     f: FaceId)
    returns (kept: seq<Vertex>)
    requires f in planes && cs == Candidates(planes, ids)
    ensures kept == FaceEntry(k, planes, hull, ids, f)
  {
    var found := IntersectPlanes(k, f, cs, planes, hull);
    var verts := new Vertex[|found|](j requires 0 <= j < |found| => found[j]);
    assert verts[..] == found;
    var len := DedupInPlace(k, verts);
    kept := verts[..len];
  }

  /** The positions of a vertex list (the second half of `unzip`). */
  function Positions(vs: seq<Vertex>): (r: seq<Vector3>)
    ensures |r| == |vs| && forall i :: 0 <= i < |vs| ==> r[i] == vs[i].position
  {
    if vs == [] then [] else [vs[0].position] + Positions(vs[1..])
  }

  /** The plane triples of a vertex list (the first half of `unzip`). */
  function Triples(vs: seq<Vertex>): (r: seq<Triple>)
    ensures |r| == |vs| && forall i :: 0 <= i < |vs| ==> r[i] == vs[i].planes
  {
    if vs == [] then [] else [vs[0].planes] + Triples(vs[1..])
  }

  /** The vertices of face `f` in a brush with face list `ids` and hull `hull`. */
  function FaceEntry(k: Kernel, planes: map<FaceId, Plane3d>, hull: ConvexHull, ids: seq<FaceId>, f: FaceId): seq<Vertex>
    requires f in planes
  {
    var cs := Candidates(planes, ids);
    Dedup(k, Grid(k, hull, planes, f, cs, cs))
  }

  /** `vs` and `ts` are the unzipped vertices of face `f` in a brush with face list `ids` and hull `hull`. */
  predicate EntryOf(k: Kernel, planes: map<FaceId, Plane3d>, hull: ConvexHull, ids: seq<FaceId>, f: FaceId,
                    vs: seq<Vector3>, ts: seq<Triple>)
  {
    f in planes && vs == Positions(FaceEntry(k, planes, hull, ids, f)) && ts == Triples(FaceEntry(k, planes, hull, ids, f))
  }

  /** Every brush has a hull and every face id of every brush has a plane; otherwise indexing panics. */
  predicate Complete(brushPlanes: map<BrushId, seq<FaceId>>, facePlanes: map<FaceId, Plane3d>, brushHulls: map<BrushId, ConvexHull>) {
    forall b :: b in brushPlanes ==> b in brushHulls && forall f :: f in brushPlanes[b] ==> f in facePlanes
  }

  /** The entries a brush with face list `ids` and hull `hull` gives each of its faces that has a plane. */
  ghost function Entries(k: Kernel, planes: map<FaceId, Plane3d>, hull: ConvexHull, ids: seq<FaceId>)
    : (m: map<FaceId, seq<Vertex>>)
    ensures forall f :: f in m <==> f in ids && f in planes
  {
    map f | f in ids && f in planes :: FaceEntry(k, planes, hull, ids, f)
  }

  /** The entries of every brush that has a hull. */
  ghost function BrushEntries(k: Kernel, brushPlanes: map<BrushId, seq<FaceId>>, facePlanes: map<FaceId, Plane3d>,
                              brushHulls: map<BrushId, ConvexHull>)
    : (t: map<BrushId, map<FaceId, seq<Vertex>>>)
    ensures forall b :: b in t <==> b in brushPlanes && b in brushHulls
  {
    map b | b in brushPlanes && b in brushHulls :: Entries(k, facePlanes, brushHulls[b], brushPlanes[b])
  }

  /** Some brush among `bs` lists face `f`. */
  predicate Listed(brushPlanes: map<BrushId, seq<FaceId>>, bs: set<BrushId>, f: FaceId) {
    exists b :: b in bs && b in brushPlanes && f in brushPlanes[b]
  }

  /**
   * Face `f` holds, unzipped, the entry that `t` gives it for the greatest brush id among `bs`
   * that lists it, as the ascending brush loop leaves it.
   */
  ghost predicate LastWriter(t: map<BrushId, map<FaceId, seq<Vertex>>>, brushPlanes: map<BrushId, seq<FaceId>>,
                             bs: set<BrushId>, fv: FaceVertices, f: FaceId)
    requires f in fv.vertices && f in fv.vertexPlanes
  {
    exists b :: b in bs && b in brushPlanes && f in brushPlanes[b] && b in t && f in t[b]
      && fv.vertices[f] == Positions(t[b][f]) && fv.vertexPlanes[f] == Triples(t[b][f])
      && forall c :: c in bs && c in brushPlanes && f in brushPlanes[c] ==> c <= b
  }

  /** Both tables have the same keys and, per face, lists of the same length. */
  predicate WellFormed(fv: FaceVertices) {
    fv.vertices.Keys == fv.vertexPlanes.Keys
    && forall f :: f in fv.vertices ==> |fv.vertices[f]| == |fv.vertexPlanes[f]|
  }

  /**
   * After the faces `done` of a brush's list have been processed, starting from the tables `v0`
   * and `p0`: each processed face holds its entry from `entries`, unzipped, both tables have
   * gained exactly the processed faces, and every other face is unchanged.
   */
  ghost predicate Extended(entries: map<FaceId, seq<Vertex>>, done: seq<FaceId>,
                           v0: map<FaceId, seq<Vector3>>, p0: map<FaceId, seq<Triple>>,
                           v: map<FaceId, seq<Vector3>>, p: map<FaceId, seq<Triple>>)
  {
    (forall f :: f in v <==> f in v0 || f in done)
    && (forall f :: f in p <==> f in p0 || f in done)
    && (forall f :: f in done ==> f in entries && f in v && f in p && v[f] == Positions(entries[f]) && p[f] == Triples(entries[f]))
    && (forall f :: f !in done && f in v0 ==> f in v && v[f] == v0[f])
    && (forall f :: f !in done && f in p0 ==> f in p && p[f] == p0[f])
  }

  /** Processing one more face of the list keeps `Extended`. */
  lemma ExtendedStep(entries: map<FaceId, seq<Vertex>>, done: seq<FaceId>,
                     v0: map<FaceId, seq<Vector3>>, p0: map<FaceId, seq<Triple>>,
                     v: map<FaceId, seq<Vector3>>, p: map<FaceId, seq<Triple>>, f: FaceId, kept: seq<Vertex>)
    requires Extended(entries, done, v0, p0, v, p)
    requires f in entries && kept == entries[f]
    ensures Extended(entries, done + [f], v0, p0, v[f := Positions(kept)], p[f := Triples(kept)])
  {
    assert forall g :: g in done + [f] <==> g in done || g == f;
  }

  /**
   * The inner loop of `FaceVertices::new` for one brush: each face id of the list, in order, gets
   * the unzipped, de-duplicated vertices of its plane. A face id without a plane is a failure.
   */
  method AddBrush(k: Kernel, planes: map<FaceId, Plane3d>, hull: ConvexHull, ids: seq<FaceId>,
                  v0: map<FaceId, seq<Vector3>>, p0: map<FaceId, seq<Triple>>)
    returns (r: Option<FaceVertices>)
    ensures r.None? <==> exists f :: f in ids && f !in planes
    ensures r.Some? ==> Extended(Entries(k, planes, hull, ids), ids, v0, p0, r.value.vertices, r.value.vertexPlanes)
  {
    var cs := Candidates(planes, ids);
    ghost var entries := Entries(k, planes, hull, ids);
    var vertices, vertexPlanes := v0, p0;
    for i := 0 to |ids|
      invariant forall f :: f in ids[..i] ==> f in planes
      invariant Extended(entries, ids[..i], v0, p0, vertices, vertexPlanes)
    {
      var f := ids[i];
      if f !in planes {
        return None;
      }
      var kept := FaceEntryOf(k, planes, hull, ids, cs, f);
      assert f in entries && kept == entries[f];
      ExtendedStep(entries, ids[..i], v0, p0, vertices, vertexPlanes, f, kept);
      PrefixSnoc(ids, i);
      vertices := vertices[f := Positions(kept)];
      vertexPlanes := vertexPlanes[f := Triples(kept)];
    }
    assert ids[..|ids|] == ids;
    return Some(FaceVertices(vertices, vertexPlanes));
  }

  /**
   * After the brushes `done` have been processed: the two tables have the same keys, which are
   * the faces those brushes list, and each face holds the entry of the last brush that lists it.
   */
  ghost predicate Built(t: map<BrushId, map<FaceId, seq<Vertex>>>, brushPlanes: map<BrushId, seq<FaceId>>,
                        done: set<BrushId>, fv: FaceVertices)
  {
    (forall f :: f in fv.vertexPlanes <==> f in fv.vertices)
    && (forall f :: f in fv.vertices <==> Listed(brushPlanes, done, f))
    && (forall f :: f in fv.vertices ==> f in fv.vertexPlanes && LastWriter(t, brushPlanes, done, fv, f))
  }

  /**
   * `FaceVertices::new`: the brushes are visited in ascending id order and each face id in a
   * brush's list gets the vertices of its plane in that brush; a face listed by several brushes
   * keeps the entry of the last (`NewEntry`). A brush without a hull or a face id without a plane
   * is a failure, since indexing panics.
   */
  method New(k: Kernel, brushPlanes: map<BrushId, seq<FaceId>>, facePlanes: map<FaceId, Plane3d>,
             brushHulls: map<BrushId, ConvexHull>)
    returns (r: Option<FaceVertices>)
    ensures r.None? <==> !Complete(brushPlanes, facePlanes, brushHulls)
    ensures r.Some? ==> WellFormed(r.value)
    ensures r.Some? ==> Built(BrushEntries(k, brushPlanes, facePlanes, brushHulls), brushPlanes, brushPlanes.Keys, r.value)
  {
    ghost var t := BrushEntries(k, brushPlanes, facePlanes, brushHulls);
    var fv := FaceVertices(map[], map[]);
    var remaining := brushPlanes.Keys;
    ghost var done: set<BrushId> := {};
    while remaining != {}
      invariant remaining !! done && remaining + done == brushPlanes.Keys
      invariant forall d, x :: d in done && x in remaining ==> d < x
      invariant forall b :: b in done ==> b in brushHulls && forall f :: f in brushPlanes[b] ==> f in facePlanes
      invariant Built(t, brushPlanes, done, fv)
      decreases remaining
    {
      LeastExists(remaining);
      var b :| IsLeast(b, remaining);
      if b !in brushHulls {
        return None;
      }
      var next := AddBrush(k, facePlanes, brushHulls[b], brushPlanes[b], fv.vertices, fv.vertexPlanes);
      if next.None? {
        return None;
      }
      assert b in t && t[b] == Entries(k, facePlanes, brushHulls[b], brushPlanes[b]);
      Advance(t, brushPlanes, done, b, fv, next.value);
      fv := next.value;
      remaining := remaining - {b};
      done := done + {b};
    }
    WellFormedFromEntries(t, brushPlanes, done, fv);
    return Some(fv);
  }

  /** One step of the brush loop: adding the next brush in ascending order keeps `Built`. */
  lemma Advance(t: map<BrushId, map<FaceId, seq<Vertex>>>, brushPlanes: map<BrushId, seq<FaceId>>,
                done: set<BrushId>, b: BrushId, fv: FaceVertices, next: FaceVertices)
    requires b in brushPlanes && b in t && b !in done
    requires forall d :: d in done ==> d < b
    requires Built(t, brushPlanes, done, fv)
    requires Extended(t[b], brushPlanes[b], fv.vertices, fv.vertexPlanes, next.vertices, next.vertexPlanes)
    ensures Built(t, brushPlanes, done + {b}, next)
  {
    forall f
      ensures f in next.vertexPlanes <==> f in next.vertices
      ensures f in next.vertices <==> Listed(brushPlanes, done + {b}, f)
      ensures f in next.vertices ==> f in next.vertexPlanes && LastWriter(t, brushPlanes, done + {b}, next, f)
    {
      AdvanceAt(t, brushPlanes, done, b, fv, next, f);
    }
  }

  /** `Advance` for one face. */
  lemma AdvanceAt(t: map<BrushId, map<FaceId, seq<Vertex>>>, brushPlanes: map<BrushId, seq<FaceId>>,
                  done: set<BrushId>, b: BrushId, fv: FaceVertices, next: FaceVertices, f: FaceId)
    requires b in brushPlanes && b in t && b !in done
    requires forall d :: d in done ==> d < b
    requires Built(t, brushPlanes, done, fv)
    requires Extended(t[b], brushPlanes[b], fv.vertices, fv.vertexPlanes, next.vertices, next.vertexPlanes)
    ensures f in next.vertexPlanes <==> f in next.vertices
    ensures f in next.vertices <==> Listed(brushPlanes, done + {b}, f)
    ensures f in next.vertices ==> f in next.vertexPlanes && LastWriter(t, brushPlanes, done + {b}, next, f)
  {
    if Listed(brushPlanes, done + {b}, f) {
      var c :| c in done + {b} && c in brushPlanes && f in brushPlanes[c];
      if c != b {
        assert Listed(brushPlanes, done, f);
      }
    }
    if Listed(brushPlanes, done, f) {
      var c :| c in done && c in brushPlanes && f in brushPlanes[c];
      assert Listed(brushPlanes, done + {b}, f);
    }
    if f in brushPlanes[b] {
      assert Listed(brushPlanes, done + {b}, f);
      assert forall c :: c in done + {b} && c in brushPlanes && f in brushPlanes[c] ==> c <= b;
    } else if f in fv.vertices {
      assert LastWriter(t, brushPlanes, done, fv, f);
      var w :| w in done && w in brushPlanes && f in brushPlanes[w] && w in t && f in t[w]
        && fv.vertices[f] == Positions(t[w][f]) && fv.vertexPlanes[f] == Triples(t[w][f])
        && forall c :: c in done && c in brushPlanes && f in brushPlanes[c] ==> c <= w;
      assert next.vertices[f] == Positions(t[w][f]) && next.vertexPlanes[f] == Triples(t[w][f]);
    }
  }

  /** The tables the brush loop builds have lists of equal length per face. */
  lemma WellFormedFromEntries(t: map<BrushId, map<FaceId, seq<Vertex>>>, brushPlanes: map<BrushId, seq<FaceId>>,
                              done: set<BrushId>, fv: FaceVertices)
    requires Built(t, brushPlanes, done, fv)
    ensures WellFormed(fv)
  {
    forall f | f in fv.vertices ensures |fv.vertices[f]| == |fv.vertexPlanes[f]| {
      assert LastWriter(t, brushPlanes, done, fv, f);
    }
  }

  /**
   * What `New` leaves in each face: the unzipped entry computed for the greatest brush id that
   * lists the face, from that brush's face list and hull.
   */
  lemma {:induction false} NewEntry(k: Kernel, brushPlanes: map<BrushId, seq<FaceId>>, facePlanes: map<FaceId, Plane3d>,
                                    brushHulls: map<BrushId, ConvexHull>, fv: FaceVertices, f: FaceId)
    requires Built(BrushEntries(k, brushPlanes, facePlanes, brushHulls), brushPlanes, brushPlanes.Keys, fv)
    requires f in fv.vertices
    ensures exists b :: (b in brushPlanes && b in brushHulls && f in brushPlanes[b]
      && EntryOf(k, facePlanes, brushHulls[b], brushPlanes[b], f, fv.vertices[f], fv.vertexPlanes[f])
      && forall c :: c in brushPlanes && f in brushPlanes[c] ==> c <= b)
  {
    var t := BrushEntries(k, brushPlanes, facePlanes, brushHulls);
    assert LastWriter(t, brushPlanes, brushPlanes.Keys, fv, f);
    var b :| b in brushPlanes && f in brushPlanes[b] && b in t && f in t[b]
      && fv.vertices[f] == Positions(t[b][f]) && fv.vertexPlanes[f] == Triples(t[b][f])
      && forall c :: c in brushPlanes.Keys && c in brushPlanes && f in brushPlanes[c] ==> c <= b;
    assert t[b] == Entries(k, facePlanes, brushHulls[b], brushPlanes[b]);
    assert EntryOf(k, facePlanes, brushHulls[b], brushPlanes[b], f, fv.vertices[f], fv.vertexPlanes[f]);
  }

  /**
   * What a face's entry promises: its plane triples start with the face's own id and name two
   * candidate planes of the brush, each position is where those planes meet and lies inside the
   * hull, and no position compares equal (f32 `==`) to the one before it.
   */
  lemma {:induction false} EntryFacts(k: Kernel, planes: map<FaceId, Plane3d>, hull: ConvexHull, ids: seq<FaceId>,
                                      f: FaceId, vs: seq<Vector3>, ts: seq<Triple>)
    requires EntryOf(k, planes, hull, ids, f, vs, ts)
    ensures |vs| == |ts|
    ensures forall i :: 0 <= i < |ts| ==>
      ts[i].0 == f && ts[i].1 in ids && ts[i].2 in ids && ts[i].1 in planes && ts[i].2 in planes
      && TriplanarIntersection(k, planes[f], planes[ts[i].1], planes[ts[i].2]) == Some(vs[i])
      && k.contains(hull, vs[i])
    ensures forall i :: 0 <= i < |vs| - 1 ==> !k.eq(vs[i + 1], vs[i])
  {
    var cs := Candidates(planes, ids);
    var g := Grid(k, hull, planes, f, cs, cs);
    var e := FaceEntry(k, planes, hull, ids, f);
    GridSound(k, hull, planes, f, cs, cs);
    DedupSubsequence(k, g);
    DedupNoAdjacent(k, g);
    forall i | 0 <= i < |ts|
      ensures ts[i].0 == f && ts[i].1 in ids && ts[i].2 in ids && ts[i].1 in planes && ts[i].2 in planes
      && TriplanarIntersection(k, planes[f], planes[ts[i].1], planes[ts[i].2]) == Some(vs[i])
      && k.contains(hull, vs[i])
    {
      assert e[i] in e;
      SubsequenceMembers(e, g, e[i]);
      assert Kept(k, hull, planes, f, e[i]);
    }
  }

  /**
   * Every pair of candidate planes that meets inside the hull is represented in the face's entry,
   * by a vertex at the same position or at a position the meeting point compares equal to.
   */
  lemma {:induction false} EntryComplete(k: Kernel, planes: map<FaceId, Plane3d>, hull: ConvexHull, ids: seq<FaceId>,
                                         f: FaceId, p1: FaceId, p2: FaceId)
    requires f in planes && p1 in planes && p2 in planes && p1 in ids && p2 in ids
    requires Hit(k, hull, planes, f, p1, p2)
    ensures var v := TriplanarIntersection(k, planes[f], planes[p1], planes[p2]).value;
      var ps := Positions(FaceEntry(k, planes, hull, ids, f));
      v in ps || exists p :: p in ps && k.eq(v, p)
  {
    var cs := Candidates(planes, ids);
    var g := Grid(k, hull, planes, f, cs, cs);
    var e := Dedup(k, g);
    var x := Vertex((f, p1, p2), TriplanarIntersection(k, planes[f], planes[p1], planes[p2]).value);
    GridComplete(k, hull, planes, f, cs, cs);
    assert x in g;
    DedupKeepsPositions(k, g);
    if x in e {
      var i :| 0 <= i < |e| && e[i] == x;
      assert Positions(e)[i] == x.position;
    } else {
      var y :| y in e && k.eq(x.position, y.position);
      var i :| 0 <= i < |e| && e[i] == y;
      assert Positions(e)[i] == y.position;
    }
  }

  /** `len`: the number of faces; the source asserts that both tables have as many keys. */
  function Len(fv: FaceVertices): (r: Option<nat>)
    ensures r.Some? <==> |fv.vertices| == |fv.vertexPlanes|
    ensures r.Some? ==> r.value == |fv.vertices.Keys|
  {
    if |fv.vertices| == |fv.vertexPlanes| then Some(|fv.vertices|) else None
  }

  /** `vertices`: the face's positions, if it has an entry. */
  function Vertices(fv: FaceVertices, f: FaceId): (r: Option<seq<Vector3>>)
    ensures r.Some? <==> f in fv.vertices
    ensures r.Some? ==> r.value == fv.vertices[f]
  {
    Get(fv.vertices, f)
  }

  /** `vertex_planes`: the face's plane triples, if it has an entry. */
  function VertexPlanes(fv: FaceVertices, f: FaceId): (r: Option<seq<Triple>>)
    ensures r.Some? <==> f in fv.vertexPlanes
    ensures r.Some? ==> r.value == fv.vertexPlanes[f]
  {
    Get(fv.vertexPlanes, f)
  }

  /** On the tables `New` builds, `len` never fails and the two accessors agree face by face. */
  lemma {:induction false} AccessorsAgree(fv: FaceVertices, f: FaceId)
    requires WellFormed(fv)
    ensures Len(fv) == Some(|fv.vertices|)
    ensures Vertices(fv, f).Some? <==> VertexPlanes(fv, f).Some?
    ensures Vertices(fv, f).Some? ==> |Vertices(fv, f).value| == |VertexPlanes(fv, f).value|
  {
    assert |fv.vertices| == |fv.vertices.Keys| == |fv.vertexPlanes.Keys| == |fv.vertexPlanes|;
  }

  /** When no face id is listed by two brushes, each face holds exactly the entry of its own brush. */
  lemma {:induction false} UniqueOwner(k: Kernel, brushPlanes: map<BrushId, seq<FaceId>>, facePlanes: map<FaceId, Plane3d>,
                                       brushHulls: map<BrushId, ConvexHull>, fv: FaceVertices, b: BrushId, f: FaceId)
    requires forall c, d :: c in brushPlanes && d in brushPlanes && f in brushPlanes[c] && f in brushPlanes[d] ==> c == d
    requires Built(BrushEntries(k, brushPlanes, facePlanes, brushHulls), brushPlanes, brushPlanes.Keys, fv)
    requires b in brushPlanes && f in brushPlanes[b] && f in fv.vertices
    ensures b in brushHulls && EntryOf(k, facePlanes, brushHulls[b], brushPlanes[b], f, fv.vertices[f], fv.vertexPlanes[f])
  {
    NewEntry(k, brushPlanes, facePlanes, brushHulls, fv, f);
  }
}
