/**
 * Fan triangulation of the wound faces (src/face/face_triangle_indices.rs): each face with
 * three or more vertex indices becomes the triangles (i0, i1, i2), (i0, i2, i3), ..., all
 * sharing its first index, flattened into one index list.
 */
module FaceTriangleIndices {
  import opened Ids
  import opened Seqs
  import opened Wrappers

  /** `FaceTriangleIndices`: the flattened triangle indices of each face. */
  datatype TriangleIndices = TriangleIndices(table: map<FaceId, seq<nat>>)

  /** The first `m` triangles of the fan of `ix`, flattened. */
  function FanUpTo(ix: seq<nat>, m: nat): (r: seq<nat>)
    requires m <= |ix| - 2
    ensures |r| == 3 * m
    ensures forall j :: 0 <= j < m ==> r[3 * j] == ix[0] && r[3 * j + 1] == ix[j + 1] && r[3 * j + 2] == ix[j + 2]
  {
    if m == 0 then [] else FanUpTo(ix, m - 1) + [ix[0], ix[m], ix[m + 1]]
  }

  /** The whole fan of a face with n >= 3 indices: n - 2 triangles. */
  function Fan(ix: seq<nat>): seq<nat>
    requires |ix| >= 3
  {
    FanUpTo(ix, |ix| - 2)
  }

  /** The fan has 3 (n - 2) entries, and triangle j is (ix[0], ix[j + 1], ix[j + 2]). */
  lemma {:induction false} FanShape(ix: seq<nat>)
    requires |ix| >= 3
    ensures |Fan(ix)| == 3 * (|ix| - 2)
    ensures forall j :: 0 <= j < |ix| - 2 ==>
      Fan(ix)[3 * j] == ix[0] && Fan(ix)[3 * j + 1] == ix[j + 1] && Fan(ix)[3 * j + 2] == ix[j + 2]
  {
  }

  /** Every entry of the fan is one of the face's own indices. */
  lemma {:induction false} FanUsesFaceIndices(ix: seq<nat>)
    requires |ix| >= 3
    ensures forall x :: x in Fan(ix) ==> x in ix
  {
    var r := Fan(ix);
    forall x | x in r ensures x in ix {
      var p :| 0 <= p < |r| && r[p] == x;
      var j := p / 3;
      assert p == 3 * j || p == 3 * j + 1 || p == 3 * j + 2;
      assert j < |ix| - 2;
    }
  }

  /** The table `FaceTriangleIndices::new` builds from the faces `visited`. */
  function FansOf(fi: map<FaceId, seq<nat>>, visited: set<FaceId>): map<FaceId, seq<nat>>
    requires visited <= fi.Keys
  {
    map f | f in visited && |fi[f]| >= 3 :: Fan(fi[f])
  }

  /** The fan table of all faces: exactly the faces with three or more indices have one. */
  function TriangleTable(fi: map<FaceId, seq<nat>>): (r: map<FaceId, seq<nat>>)
    ensures forall f :: f in r <==> f in fi && |fi[f]| >= 3
  {
    FansOf(fi, fi.Keys)
  }

  /**
   * One triangle of the inner loop: the triangle's three indices extend the face's list, which
   * the first triangle creates.
   */
  method ExtendTriangle(cur: map<FaceId, seq<nat>>, faceId: FaceId, triangle: seq<nat>,
                        ghost table: map<FaceId, seq<nat>>, ghost indices: seq<nat>, ghost i: nat)
    returns (next: map<FaceId, seq<nat>>)
    requires faceId !in table && i < |indices| - 2
    requires cur == if i == 0 then table else table[faceId := FanUpTo(indices, i)]
    requires triangle == [indices[0], indices[i + 1], indices[i + 2]]
    ensures next == table[faceId := FanUpTo(indices, i + 1)]
  {
    next := ExtendAt(cur, faceId, triangle);
    if i == 0 {
      assert [] + triangle == FanUpTo(indices, 1);
    }
  }

  /**
   * The body of the face loop for one face: a face with fewer than three indices is skipped;
   * any other face gets its fan, one triangle per iteration.
   */
  method NewFace(table: map<FaceId, seq<nat>>, faceId: FaceId, indices: seq<nat>)
    returns (table': map<FaceId, seq<nat>>)
    requires |indices| >= 3 ==> faceId !in table
    ensures table' == if |indices| >= 3 then table[faceId := Fan(indices)] else table
  {
    if |indices| < 3 {
      return table;
    }
    table' := table;
    var i := 0;
    while i < |indices| - 2
      invariant 0 <= i <= |indices| - 2
      invariant table' == if i == 0 then table else table[faceId := FanUpTo(indices, i)]
    {
      table' := ExtendTriangle(table', faceId, [indices[0], indices[i + 1], indices[i + 2]], table, indices, i);
      i := i + 1;
    }
  }

  /** Adding one more visited face to the fan table. */
  lemma {:induction false} FansOfStep(fi: map<FaceId, seq<nat>>, visited: set<FaceId>, f: FaceId)
    requires visited <= fi.Keys && f in fi && f !in visited
    ensures f !in FansOf(fi, visited)
    ensures FansOf(fi, visited + {f}) == if |fi[f]| >= 3 then FansOf(fi, visited)[f := Fan(fi[f])] else FansOf(fi, visited)
  {
  }

  /**
   * `FaceTriangleIndices::new`: the faces are visited in ascending id order, and every face
   * with three or more indices gets its fan.
   */
  method New(faceIndices: map<FaceId, seq<nat>>) returns (r: TriangleIndices)
    ensures r.table == TriangleTable(faceIndices)
  {
    var table: map<FaceId, seq<nat>> := map[];
    var remaining := faceIndices.Keys;
    ghost var visited: set<FaceId> := {};
    while remaining != {}
      invariant visited !! remaining && visited + remaining == faceIndices.Keys
      invariant table == FansOf(faceIndices, visited)
      decreases remaining
    {
      LeastExists(remaining);
      var faceId :| IsLeast(faceId, remaining);
      FansOfStep(faceIndices, visited, faceId);
      table := NewFace(table, faceId, faceIndices[faceId]);
      remaining := remaining - {faceId};
      visited := visited + {faceId};
    }
    r := TriangleIndices(table);
  }

  /** `get`: the triangle indices of a face, or None for a face that was skipped. */
  function Get(m: TriangleIndices, faceId: FaceId): (r: Option<seq<nat>>)
    ensures r.Some? <==> faceId in m.table
    ensures r.Some? ==> r.value == m.table[faceId]
  {
    Wrappers.Get(m.table, faceId)
  }

  /** `Index`: the triangle indices of a face that has them; any other face is a failure. */
  function Index(m: TriangleIndices, faceId: FaceId): (r: seq<nat>)
    requires faceId in m.table
    ensures Get(m, faceId) == Some(r)
  {
    m.table[faceId]
  }

  /** Exactly the faces with fewer than three indices are missing from the built table. */
  lemma {:induction false} GetSkipped(fi: map<FaceId, seq<nat>>, f: FaceId)
    ensures Get(TriangleIndices(TriangleTable(fi)), f).None? <==> f !in fi || |fi[f]| < 3
  {
  }
}
