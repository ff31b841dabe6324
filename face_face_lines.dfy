/**
 * The nested edge extractor of src/face/face_lines.rs (`FaceLines`): the same face loop as
 * `lines`, storing each face's lines in a map of their own, keyed by the global line id.
 */
module FaceFaceLines {
  import opened Ids
  import opened Seqs
  import opened Wrappers
  import Lines

  /** `FaceLines`: for each face, its lines keyed by id. */
  datatype FaceLineMap = FaceLineMap(table: map<FaceId, map<LineId, Lines.Line>>)

  /** The lines `edges` keyed by consecutive ids from `base`. */
  function Keyed(base: nat, edges: seq<Lines.Line>): map<LineId, Lines.Line> {
    map id | id in Run(base, |edges|) :: edges[id - base]
  }

  /** The nested view of a face -> line ids table: each face's lines keyed from its first id. */
  function Nest(fi: map<FaceId, seq<nat>>, runs: map<FaceId, seq<LineId>>): map<FaceId, map<LineId, Lines.Line>> {
    map f | f in runs && |runs[f]| > 0 :: Keyed(runs[f][0], Lines.FaceEdges(Lines.IndicesOf(fi, f)))
  }

  /** The table `FaceLines::new` builds: the face -> line ids table of `lines`, nested. */
  function NestedTable(fi: map<FaceId, seq<nat>>): map<FaceId, map<LineId, Lines.Line>> {
    Nest(fi, Lines.FaceLineTable(fi))
  }

  lemma {:induction false} KeyedSnoc(base: nat, e: seq<Lines.Line>, x: Lines.Line)
    ensures Keyed(base, e + [x]) == Keyed(base, e)[base + |e| := x]
  {
    forall id ensures id in Keyed(base, e + [x]) <==> id in Run(base, |e|) || id == base + |e| {
      RunMembership(base, |e| + 1, id);
      RunMembership(base, |e|, id);
    }
  }

  lemma {:induction false} InsertFresh(m: map<FaceId, map<LineId, Lines.Line>>, f: FaceId, base: nat, x: Lines.Line)
    requires f !in m
    ensures InsertAt(m, f, base, x) == m[f := Keyed(base, [x])]
  {
    assert Keyed(base, [x]) == map[base := x] by {
      forall id ensures id in Keyed(base, [x]) <==> id == base {
        RunMembership(base, 1, id);
      }
    }
  }

  lemma {:induction false} InsertNext(m: map<FaceId, map<LineId, Lines.Line>>, f: FaceId, base: nat,
                                      e: seq<Lines.Line>, x: Lines.Line)
    ensures InsertAt(m[f := Keyed(base, e)], f, base + |e|, x) == m[f := Keyed(base, e + [x])]
  {
    assert Keyed(base, e + [x]) == Keyed(base, e)[base + |e| := x] by { KeyedSnoc(base, e, x); }
  }

  lemma {:induction false} NestUpdate(fi: map<FaceId, seq<nat>>, runs: map<FaceId, seq<LineId>>, f: FaceId, base: nat, count: nat)
    requires count > 0
    ensures Nest(fi, runs[f := Run(base, count)]) == Nest(fi, runs)[f := Keyed(base, Lines.FaceEdges(Lines.IndicesOf(fi, f)))]
  {
    assert Run(base, count)[0] == base;
  }

  /**
   * The body of the face loop for one face: a face with fewer than two indices is skipped; any
   * other face gets its loop of lines, keyed from the counter.
   */
  method NewFace(table: map<FaceId, map<LineId, Lines.Line>>, lineHead: nat, faceId: FaceId, indices: seq<nat>)
    returns (table': map<FaceId, map<LineId, Lines.Line>>, lineHead': nat)
    requires |indices| >= 2 ==> faceId !in table
    ensures lineHead' == lineHead + |Lines.FaceEdges(indices)|
    ensures table' == if |indices| >= 2 then table[faceId := Keyed(lineHead, Lines.FaceEdges(indices))] else table
  {
    if |indices| < 2 {
      return table, lineHead;
    }
    Lines.FaceEdgesCount(indices);
    table', lineHead' := NewLoop(table, lineHead, faceId, indices);
  }

  /** A face's map after its first lines `e` are inserted: the face is absent until the first. */
  function Partial(table: map<FaceId, map<LineId, Lines.Line>>, f: FaceId, base: nat, e: seq<Lines.Line>): map<FaceId, map<LineId, Lines.Line>> {
    if e == [] then table else table[f := Keyed(base, e)]
  }

  lemma {:induction false} InsertStep(table: map<FaceId, map<LineId, Lines.Line>>, f: FaceId, base: nat,
                                      e: seq<Lines.Line>, x: Lines.Line)
    requires f !in table
    ensures InsertAt(Partial(table, f, base, e), f, base + |e|, x) == Partial(table, f, base, e + [x])
  {
    if e == [] {
      InsertFresh(table, f, base, x);
      assert e + [x] == [x];
    } else {
      InsertNext(table, f, base, e, x);
    }
  }

  /**
   * The lines of one face with two or more indices: one per consecutive index pair, then the
   * closing pair, each inserted into the face's map under the next id of the counter.
   */
  method NewLoop(table: map<FaceId, map<LineId, Lines.Line>>, lineHead: nat, faceId: FaceId, indices: seq<nat>)
    returns (table': map<FaceId, map<LineId, Lines.Line>>, lineHead': nat)
    requires |indices| >= 2 && faceId !in table
    ensures lineHead' == lineHead + |indices|
    ensures table' == table[faceId := Keyed(lineHead, Lines.FaceEdges(indices))]
  {
    ghost var edges := Lines.FaceEdges(indices);
    Lines.FaceEdgesParts(indices);
    table', lineHead' := table, lineHead;
    var i := 0;
    while i < |indices| - 1
      invariant 0 <= i <= |indices| - 1 && lineHead' == lineHead + i
      invariant table' == Partial(table, faceId, lineHead, edges[..i])
    {
      table' := InsertLine(table', faceId, lineHead', Lines.Line(indices[i], indices[i + 1]), table, lineHead, edges[..i]);
      assert edges[..i] + [edges[i]] == edges[..i + 1];
      lineHead' := lineHead' + 1;
      i := i + 1;
    }
    table' := InsertLine(table', faceId, lineHead', Lines.Line(indices[|indices| - 1], indices[0]), table, lineHead, edges[..i]);
    assert edges[..i] + [edges[i]] == edges;
    lineHead' := lineHead' + 1;
  }

  /** One insertion of the loop: the next line of the face under the next id. */
  method InsertLine(cur: map<FaceId, map<LineId, Lines.Line>>, faceId: FaceId, lineHead: nat, x: Lines.Line,
                    ghost table: map<FaceId, map<LineId, Lines.Line>>, ghost base: nat, ghost e: seq<Lines.Line>)
    returns (next: map<FaceId, map<LineId, Lines.Line>>)
    requires faceId !in table && cur == Partial(table, faceId, base, e) && lineHead == base + |e|
    ensures next == Partial(table, faceId, base, e + [x])
  {
    InsertStep(table, faceId, base, e, x);
    next := InsertAt(cur, faceId, lineHead, x);
  }

  /** The face loop over the visit order `ks`. */
  method NewIn(fi: map<FaceId, seq<nat>>, ks: seq<FaceId>) returns (table: map<FaceId, map<LineId, Lines.Line>>)
    requires forall k :: k in ks ==> k in fi
    requires StrictlyIncreasing(ks)
    ensures table == Nest(fi, Lines.Runs(fi, ks, |ks|))
  {
    var lineHead := 0;
    table := map[];
    var n := 0;
    while n < |ks|
      invariant 0 <= n <= |ks|
      invariant lineHead == |Lines.EmittedUpTo(fi, ks, n)|
      invariant table == Nest(fi, Lines.Runs(fi, ks, n))
    {
      table, lineHead := NewAt(fi, ks, n, table, lineHead);
      n := n + 1;
    }
  }

  /** One turn of the face loop: the face at position `n` of the visit order. */
  method NewAt(fi: map<FaceId, seq<nat>>, ks: seq<FaceId>, n: nat, table: map<FaceId, map<LineId, Lines.Line>>,
               lineHead: nat)
    returns (table': map<FaceId, map<LineId, Lines.Line>>, lineHead': nat)
    requires forall k :: k in ks ==> k in fi
    requires StrictlyIncreasing(ks) && n < |ks|
    requires lineHead == |Lines.EmittedUpTo(fi, ks, n)| && table == Nest(fi, Lines.Runs(fi, ks, n))
    ensures lineHead' == |Lines.EmittedUpTo(fi, ks, n + 1)| && table' == Nest(fi, Lines.Runs(fi, ks, n + 1))
  {
    var faceId := ks[n];
    var indices := fi[faceId];
    assert Lines.IndicesOf(fi, faceId) == indices;
    assert |Lines.EmittedUpTo(fi, ks, n + 1)| == lineHead + |Lines.FaceEdges(indices)| by {
      Lines.EmittedLength(fi, ks, n);
    }
    if |indices| >= 2 {
      assert faceId !in table by {
        Lines.RunsOwners(fi, ks, n);
        Lines.PositionInOrder(ks, n);
      }
      assert Nest(fi, Lines.Runs(fi, ks, n + 1)) == table[faceId := Keyed(lineHead, Lines.FaceEdges(indices))] by {
        NestUpdate(fi, Lines.Runs(fi, ks, n), faceId, lineHead, |indices|);
      }
    }
    table', lineHead' := NewFace(table, lineHead, faceId, indices);
  }

  /** `FaceLines::new`: the face -> line ids table of `lines`, each face's lines keyed by id. */
  method New(faceIndices: map<FaceId, seq<nat>>) returns (r: FaceLineMap)
    ensures r.table == NestedTable(faceIndices)
  {
    SortedKeysIncreasing(faceIndices.Keys);
    var table := NewIn(faceIndices, Lines.Order(faceIndices));
    Lines.RunsComplete(faceIndices, Lines.Order(faceIndices));
    r := FaceLineMap(table);
  }

  /** `get`: the lines of a face, or None for a face that was skipped. */
  function Get(m: FaceLineMap, faceId: FaceId): (r: Option<map<LineId, Lines.Line>>)
    ensures r.Some? <==> faceId in m.table
    ensures r.Some? ==> r.value == m.table[faceId]
  {
    Wrappers.Get(m.table, faceId)
  }

  /** `Index`: the lines of a face that has them; any other face is a failure. */
  function Index(m: FaceLineMap, faceId: FaceId): (r: map<LineId, Lines.Line>)
    requires faceId in m.table
    ensures Get(m, faceId) == Some(r)
  {
    m.table[faceId]
  }

  /** Exactly the faces with two or more indices have lines; `get` misses every other face. */
  lemma {:induction false} GetSkipped(fi: map<FaceId, seq<nat>>, f: FaceId)
    ensures Get(FaceLineMap(NestedTable(fi)), f).Some? <==> f in fi && |fi[f]| >= 2
  {
    Lines.FaceLineTableKeys(fi, f);
    if f in Lines.FaceLineTable(fi) {
      assert |Lines.FaceLineTable(fi)[f]| == |fi[f]| by { FaceLineTableRun(fi, f); }
    }
  }

  /** The ids of a face in the line id table of `lines` are consecutive from its first line. */
  lemma {:induction false} FaceLineTableRun(fi: map<FaceId, seq<nat>>, f: FaceId)
    requires f in Lines.FaceLineTable(fi)
    ensures f in fi && |fi[f]| >= 2
    ensures Lines.FaceLineTable(fi)[f] == Run(Lines.FirstLine(fi, f), |fi[f]|)
  {
    Lines.FaceLineTableKeys(fi, f);
  }

  /** A face's map in the nested table holds exactly the ids `lines` lists for the face. */
  lemma {:induction false} SameIds(fi: map<FaceId, seq<nat>>, f: FaceId, id: LineId)
    requires f in NestedTable(fi)
    ensures f in Lines.FaceLineTable(fi)
    ensures id in NestedTable(fi)[f] <==> id in Lines.FaceLineTable(fi)[f]
  {
    var runs := Lines.FaceLineTable(fi);
    var base := Lines.FirstLine(fi, f);
    assert f in fi && |fi[f]| >= 2 && runs[f] == Run(base, |fi[f]|) by { FaceLineTableRun(fi, f); }
    assert Lines.IndicesOf(fi, f) == fi[f];
    NestAt(fi, runs, f, base, id);
  }

  /** An id in a face's map is the face's j-th id, keyed to the face's j-th line. */
  lemma {:induction false} NestedPosition(fi: map<FaceId, seq<nat>>, f: FaceId, id: LineId) returns (j: nat)
    requires f in NestedTable(fi) && id in NestedTable(fi)[f]
    ensures f in fi && j < |fi[f]| && |fi[f]| >= 2
    ensures NestedTable(fi)[f][id] == Lines.FaceEdges(fi[f])[j]
    ensures f in Lines.FaceLineTable(fi) && j < |Lines.FaceLineTable(fi)[f]| && Lines.FaceLineTable(fi)[f][j] == id
  {
    FaceLineTableRun(fi, f);
    j := NestPosition(fi, Lines.FaceLineTable(fi), f, Lines.FirstLine(fi, f), id);
  }

  /** `NestedPosition` for any face -> line ids table whose run for `f` starts at `base`. */
  lemma {:induction false} NestPosition(fi: map<FaceId, seq<nat>>, runs: map<FaceId, seq<LineId>>, f: FaceId, base: nat, id: LineId)
    returns (j: nat)
    requires f in fi && |fi[f]| >= 2
    requires f in runs && runs[f] == Run(base, |fi[f]|) && id in Nest(fi, runs)[f]
    ensures j < |fi[f]| && j < |runs[f]| && runs[f][j] == id
    ensures Nest(fi, runs)[f][id] == Lines.FaceEdges(fi[f])[j]
  {
    assert Lines.IndicesOf(fi, f) == fi[f];
    NestAt(fi, runs, f, base, id);
    j := id - base;
  }

  /**
   * This extractor agrees with `lines`: each id in a face's map maps to the line the line table
   * of `lines` stores under it.
   */
  lemma {:induction false} AgreesWithLines(fi: map<FaceId, seq<nat>>, f: FaceId, id: LineId)
    requires f in NestedTable(fi) && id in NestedTable(fi)[f]
    ensures id in Lines.LineTable(fi) && NestedTable(fi)[f][id] == Lines.LineTable(fi)[id]
  {
    var j := NestedPosition(fi, f, id);
    Lines.FaceLinesAreEdges(fi, f, j);
  }

  /** A face whose run starts at `base` has its j-th line keyed by `base + j` in the nested view. */
  lemma {:induction false} NestAt(fi: map<FaceId, seq<nat>>, runs: map<FaceId, seq<LineId>>, f: FaceId, base: nat, id: LineId)
    requires f in runs && runs[f] == Run(base, |Lines.IndicesOf(fi, f)|) && |Lines.IndicesOf(fi, f)| >= 2
    ensures f in Nest(fi, runs)
    ensures id in Nest(fi, runs)[f] <==> id in runs[f]
    ensures id in runs[f] ==> id >= base && Nest(fi, runs)[f][id] == Lines.FaceEdges(Lines.IndicesOf(fi, f))[id - base]
  {
    var n := |Lines.IndicesOf(fi, f)|;
    assert |Lines.FaceEdges(Lines.IndicesOf(fi, f))| == n by { Lines.FaceEdgesCount(Lines.IndicesOf(fi, f)); }
    assert runs[f][0] == base;
    RunMembership(base, n, id);
  }

  /** The id ranges of two different faces are disjoint. */
  lemma {:induction false} RangesDisjoint(fi: map<FaceId, seq<nat>>, f: FaceId, g: FaceId, id: LineId)
    requires f in NestedTable(fi) && g in NestedTable(fi) && f != g
    ensures !(id in NestedTable(fi)[f] && id in NestedTable(fi)[g])
  {
    if id in NestedTable(fi)[f] && id in NestedTable(fi)[g] {
      assert id < Lines.LineCount(fi) by {
        AgreesWithLines(fi, f, id);
        Lines.LineTableKeys(fi);
      }
      SameIds(fi, f, id);
      SameIds(fi, g, id);
      Lines.LineOwnedOnce(fi, id);
    }
  }
}
