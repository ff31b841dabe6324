/**
 * Edge extraction (src/line/mod.rs): every wound face with at least two indices yields one
 * line per consecutive index pair plus the closing pair, and line ids are handed out by one
 * counter over all faces in ascending face id order. Also the two endpoint comparisons of
 * that file, `line_eq` and the early exits of `point_in_line`.
 */
module Lines {
  import opened Ids
  import opened Seqs
  import opened Geometry

  /** A line as two indices into its face's vertex list. */
  datatype Line = Line(i0: nat, i1: nat)

  /** The lines of one wound face, in emission order. */
  function FaceEdges(indices: seq<nat>): seq<Line> {
    if |indices| < 2 then []
    else
      seq(|indices| - 1, j requires 0 <= j < |indices| - 1 => Line(indices[j], indices[j + 1]))
      + [Line(indices[|indices| - 1], indices[0])]
  }

  /** A face with n >= 2 indices has n lines; line j runs from index j to index j + 1 (mod n). */
  lemma {:induction false} FaceEdgesShape(indices: seq<nat>)
    ensures |indices| < 2 ==> FaceEdges(indices) == []
    ensures |indices| >= 2 ==> |FaceEdges(indices)| == |indices|
    ensures |indices| >= 2 ==> forall j :: 0 <= j < |indices| ==>
      FaceEdges(indices)[j] == Line(indices[j], indices[(j + 1) % |indices|])
  {
  }

  /** The open part of a face's loop and its closing line, without the modular index. */
  lemma {:induction false} FaceEdgesParts(indices: seq<nat>)
    requires |indices| >= 2
    ensures |FaceEdges(indices)| == |indices|
    ensures forall j :: 0 <= j < |indices| - 1 ==> FaceEdges(indices)[j] == Line(indices[j], indices[j + 1])
    ensures FaceEdges(indices)[|indices| - 1] == Line(indices[|indices| - 1], indices[0])
  {
  }

  /** The lines of a face form one closed loop: each line starts where the previous one ends. */
  lemma {:induction false} FaceEdgesCloseTheLoop(indices: seq<nat>)
    requires |indices| >= 2
    ensures forall j :: 0 <= j < |indices| ==>
      FaceEdges(indices)[j].i1 == FaceEdges(indices)[(j + 1) % |indices|].i0
    ensures FaceEdges(indices)[|indices| - 1].i1 == FaceEdges(indices)[0].i0
  {
    FaceEdgesShape(indices);
  }

  /** Every index a face's lines mention is one of the face's indices. */
  lemma {:induction false} FaceEdgesUseFaceIndices(indices: seq<nat>)
    ensures forall e :: e in FaceEdges(indices) ==> e.i0 in indices && e.i1 in indices
  {
    FaceEdgesShape(indices);
  }

  /** The lines emitted for the first `n` faces of the visit order `ks`, in that order. */
  function EmittedUpTo(fi: map<FaceId, seq<nat>>, ks: seq<FaceId>, n: nat): seq<Line>
    requires n <= |ks|
  {
    if n == 0 then [] else EmittedUpTo(fi, ks, n - 1) + FaceEdges(IndicesOf(fi, ks[n - 1]))
  }

  /** The indices of face `k`; a face that is not in the table has none. */
  function IndicesOf(fi: map<FaceId, seq<nat>>, k: FaceId): seq<nat> {
    if k in fi then fi[k] else []
  }

  /** The order in which the faces are visited: ascending face id. */
  function Order(fi: map<FaceId, seq<nat>>): seq<FaceId> {
    SortedKeys(fi.Keys)
  }

  /** A list of lines numbered by position: line id i is the i-th line. */
  function Table(e: seq<Line>): map<LineId, Line> {
    map i | 0 <= i < |e| :: e[i]
  }

  /** Every line emitted for the faces, in emission order. */
  function AllLines(fi: map<FaceId, seq<nat>>): seq<Line> {
    EmittedUpTo(fi, Order(fi), |Order(fi)|)
  }

  /** The number of lines emitted for all faces. */
  function LineCount(fi: map<FaceId, seq<nat>>): nat {
    |AllLines(fi)|
  }

  /** The line table: line id i is the i-th line emitted. */
  function LineTable(fi: map<FaceId, seq<nat>>): map<LineId, Line> {
    Table(AllLines(fi))
  }

  /** The id of the first line of face `f` in the visit order `ks`: the lines of the faces before it. */
  function FirstLineIn(fi: map<FaceId, seq<nat>>, ks: seq<FaceId>, f: FaceId): nat
    requires f in ks
  {
    |EmittedUpTo(fi, ks, Position(ks, f))|
  }

  /** The ids of the lines of face `f`: one per index, counted on from its first line. */
  function FaceRunIn(fi: map<FaceId, seq<nat>>, ks: seq<FaceId>, f: FaceId): seq<LineId>
    requires f in ks
  {
    Run(FirstLineIn(fi, ks, f), |IndicesOf(fi, f)|)
  }

  /** The face -> line ids table for the visit order `ks`. */
  function FaceLineTableIn(fi: map<FaceId, seq<nat>>, ks: seq<FaceId>): map<FaceId, seq<LineId>> {
    map f | f in ks && |IndicesOf(fi, f)| >= 2 :: FaceRunIn(fi, ks, f)
  }

  /** The id of the first line of face `f`. */
  function FirstLine(fi: map<FaceId, seq<nat>>, f: FaceId): nat
    requires f in fi
  {
    FirstLineIn(fi, Order(fi), f)
  }

  /** The face -> line ids table: each face with two or more indices owns a run of ids. */
  function FaceLineTable(fi: map<FaceId, seq<nat>>): map<FaceId, seq<LineId>> {
    FaceLineTableIn(fi, Order(fi))
  }

  /** The face -> line ids table after the first `n` faces of `ks` are visited. */
  function Runs(fi: map<FaceId, seq<nat>>, ks: seq<FaceId>, n: nat): map<FaceId, seq<LineId>>
    requires n <= |ks|
  {
    if n == 0 then map[]
    else
      var f := ks[n - 1];
      var base := |EmittedUpTo(fi, ks, n - 1)|;
      var count := |IndicesOf(fi, f)|;
      if count >= 2 then Runs(fi, ks, n - 1)[f := Run(base, count)] else Runs(fi, ks, n - 1)
  }

  lemma {:induction false} EmittedStep(fi: map<FaceId, seq<nat>>, ks: seq<FaceId>, n: nat)
    requires n < |ks|
    ensures EmittedUpTo(fi, ks, n + 1) == EmittedUpTo(fi, ks, n) + FaceEdges(IndicesOf(fi, ks[n]))
  {
  }

  lemma {:induction false} EmittedLength(fi: map<FaceId, seq<nat>>, ks: seq<FaceId>, n: nat)
    requires n < |ks|
    ensures |EmittedUpTo(fi, ks, n + 1)| == |EmittedUpTo(fi, ks, n)| + |FaceEdges(IndicesOf(fi, ks[n]))|
  {
  }

  lemma {:induction false} RunsStep(fi: map<FaceId, seq<nat>>, ks: seq<FaceId>, n: nat)
    requires n < |ks|
    ensures EmittedUpTo(fi, ks, n + 1) == EmittedUpTo(fi, ks, n) + FaceEdges(IndicesOf(fi, ks[n]))
    ensures Runs(fi, ks, n + 1) == if |IndicesOf(fi, ks[n])| >= 2
      then Runs(fi, ks, n)[ks[n] := Run(|EmittedUpTo(fi, ks, n)|, |IndicesOf(fi, ks[n])|)]
      else Runs(fi, ks, n)
  {
  }

  lemma {:induction false} TableSnoc(e: seq<Line>, x: Line)
    ensures Table(e + [x]) == Table(e)[|e| := x]
  {
  }

  lemma {:induction false} PushAtUpdate(m: map<FaceId, seq<LineId>>, k: FaceId, s: seq<LineId>, v: LineId)
    ensures PushAt(m[k := s], k, v) == m[k := s + [v]]
  {
  }

  lemma {:induction false} PushAtFresh(m: map<FaceId, seq<LineId>>, k: FaceId, v: LineId)
    requires k !in m
    ensures PushAt(m, k, v) == m[k := [v]]
  {
    assert [] + [v] == [v];
  }

  lemma {:induction false} PositionInOrder(ks: seq<nat>, n: nat)
    requires StrictlyIncreasing(ks) && n < |ks|
    ensures Position(ks, ks[n]) == n
  {
  }

  /** After `n` faces, only visited faces with two or more indices own a run. */
  lemma {:induction false} RunsOwners(fi: map<FaceId, seq<nat>>, ks: seq<FaceId>, n: nat)
    requires StrictlyIncreasing(ks) && n <= |ks|
    ensures forall f :: f in Runs(fi, ks, n) ==> f in ks && |IndicesOf(fi, f)| >= 2 && Position(ks, f) < n
  {
    if n > 0 {
      var f := ks[n - 1];
      var prev := Runs(fi, ks, n - 1);
      var r := Runs(fi, ks, n);
      RunsOwners(fi, ks, n - 1);
      RunsStep(fi, ks, n - 1);
      PositionInOrder(ks, n - 1);
      forall g | g in r ensures g in ks && |IndicesOf(fi, g)| >= 2 && Position(ks, g) < n {
        if g != f {
          assert g in prev;
        }
      }
    }
  }

  /** The face at position `a` owns the ids after the lines of the faces before it. */
  lemma {:induction false} RunsAt(fi: map<FaceId, seq<nat>>, ks: seq<FaceId>, n: nat, a: nat)
    requires StrictlyIncreasing(ks) && a < n <= |ks| && |IndicesOf(fi, ks[a])| >= 2
    ensures ks[a] in Runs(fi, ks, n)
    ensures Runs(fi, ks, n)[ks[a]] == Run(|EmittedUpTo(fi, ks, a)|, |IndicesOf(fi, ks[a])|)
  {
    var f, prev := ks[n - 1], Runs(fi, ks, n - 1);
    var count := |IndicesOf(fi, f)|;
    var r := Runs(fi, ks, n);
    if a < n - 1 {
      RunsAt(fi, ks, n - 1, a);
      assert ks[a] != f by { assert ks[a] < f; }
      if count >= 2 {
        assert r == prev[f := Run(|EmittedUpTo(fi, ks, n - 1)|, count)];
      } else {
        assert r == prev;
      }
    } else {
      assert r == prev[f := Run(|EmittedUpTo(fi, ks, n - 1)|, count)];
    }
  }

  /** The face at position `a` of the visit order starts after the lines of the faces before it. */
  lemma {:induction false} FaceRunAt(fi: map<FaceId, seq<nat>>, ks: seq<FaceId>, a: nat)
    requires StrictlyIncreasing(ks) && a < |ks|
    ensures FaceRunIn(fi, ks, ks[a]) == Run(|EmittedUpTo(fi, ks, a)|, |IndicesOf(fi, ks[a])|)
  {
    PositionInOrder(ks, a);
  }

  /** Visiting every face of a strictly increasing order builds the face -> line ids table. */
  lemma {:induction false} RunsComplete(fi: map<FaceId, seq<nat>>, ks: seq<FaceId>)
    requires StrictlyIncreasing(ks)
    ensures Runs(fi, ks, |ks|) == FaceLineTableIn(fi, ks)
  {
    var r := Runs(fi, ks, |ks|);
    var t := FaceLineTableIn(fi, ks);
    forall f | f in t ensures f in r && r[f] == t[f] {
      var a := Position(ks, f);
      var run := Run(|EmittedUpTo(fi, ks, a)|, |IndicesOf(fi, f)|);
      assert t[f] == run by { FaceRunAt(fi, ks, a); }
      assert f in r && r[f] == run by { RunsAt(fi, ks, |ks|, a); }
    }
    assert r.Keys <= t.Keys by {
      RunsOwners(fi, ks, |ks|);
    }
    assert r.Keys == t.Keys;
  }

  /**
   * The body of the face loop of `lines` for one face: a face with fewer than two indices is
   * skipped; any other face gets its loop of lines.
   */
  method EmitFace(lines: map<LineId, Line>, faceLines: map<FaceId, seq<LineId>>, lineHead: nat,
                  faceId: FaceId, indices: seq<nat>, ghost emitted: seq<Line>)
    returns (lines': map<LineId, Line>, faceLines': map<FaceId, seq<LineId>>, lineHead': nat)
    requires |indices| >= 2 ==> faceId !in faceLines
    requires lines == Table(emitted) && lineHead == |emitted|
    ensures lines' == Table(emitted + FaceEdges(indices))
    ensures lineHead' == lineHead + |FaceEdges(indices)|
    ensures faceLines' == if |indices| >= 2 then faceLines[faceId := Run(lineHead, |indices|)] else faceLines
  {
    if |indices| < 2 {
      assert emitted + FaceEdges(indices) == emitted;
      return lines, faceLines, lineHead;
    }
    FaceEdgesCount(indices);
    lines', faceLines', lineHead' := EmitLoop(lines, faceLines, lineHead, faceId, indices, emitted);
  }

  /**
   * The lines of one face with two or more indices: one line per consecutive index pair, then
   * the closing line, each with the next id of the counter.
   */
  method EmitLoop(lines: map<LineId, Line>, faceLines: map<FaceId, seq<LineId>>, lineHead: nat,
                  faceId: FaceId, indices: seq<nat>, ghost emitted: seq<Line>)
    returns (lines': map<LineId, Line>, faceLines': map<FaceId, seq<LineId>>, lineHead': nat)
    requires |indices| >= 2 && faceId !in faceLines
    requires lines == Table(emitted) && lineHead == |emitted|
    ensures lines' == Table(emitted + FaceEdges(indices))
    ensures lineHead' == lineHead + |indices|
    ensures faceLines' == faceLines[faceId := Run(lineHead, |indices|)]
  {
    ghost var edges := FaceEdges(indices);
    FaceEdgesParts(indices);
    lines', faceLines', lineHead' := lines, faceLines, lineHead;
    var i := 0;
    while i < |indices| - 1
      invariant 0 <= i <= |indices| - 1 && lineHead' == lineHead + i
      invariant lines' == Table(emitted + edges[..i])
      invariant faceLines' == if i == 0 then faceLines else faceLines[faceId := Run(lineHead, i)]
    {
      lines', faceLines', lineHead' :=
        EmitLine(lines', faceLines', lineHead', faceId, Line(indices[i], indices[i + 1]),
                 faceLines, lineHead, emitted + edges[..i], i);
      assert emitted + edges[..i] + [edges[i]] == emitted + edges[..i + 1];
      i := i + 1;
    }
    lines', faceLines', lineHead' :=
      EmitLine(lines', faceLines', lineHead', faceId, Line(indices[|indices| - 1], indices[0]),
               faceLines, lineHead, emitted + edges[..i], i);
    assert emitted + edges[..i] + [edges[i]] == emitted + edges;
  }

  /** One line of the loop: its id is the counter, stored in the table and pushed to the face's list. */
  method EmitLine(lines: map<LineId, Line>, faceLines: map<FaceId, seq<LineId>>, lineHead: nat, faceId: FaceId,
                  x: Line, ghost before: map<FaceId, seq<LineId>>, ghost base: nat, ghost e: seq<Line>, ghost k: nat)
    returns (lines': map<LineId, Line>, faceLines': map<FaceId, seq<LineId>>, lineHead': nat)
    requires faceId !in before && lineHead == base + k
    requires lines == Table(e) && lineHead == |e|
    requires faceLines == if k == 0 then before else before[faceId := Run(base, k)]
    ensures lineHead' == lineHead + 1 && lines' == Table(e + [x])
    ensures faceLines' == before[faceId := Run(base, k + 1)]
  {
    TableSnoc(e, x);
    lines' := lines[lineHead := x];
    if k == 0 {
      PushAtFresh(faceLines, faceId, lineHead);
    } else {
      PushAtUpdate(before, faceId, Run(base, k), lineHead);
    }
    RunAppend(base, k);
    faceLines' := PushAt(faceLines, faceId, lineHead);
    lineHead' := lineHead + 1;
  }


  /**
   * The face loop of `lines` over the visit order `ks`: skips faces with fewer than two
   * indices and gives each emitted line the next id of one global counter.
   */
  method EmitFaces(fi: map<FaceId, seq<nat>>, ks: seq<FaceId>)
    returns (lines: map<LineId, Line>, faceLines: map<FaceId, seq<LineId>>)
    requires forall k :: k in ks ==> k in fi
    requires StrictlyIncreasing(ks)
    ensures lines == Table(EmittedUpTo(fi, ks, |ks|))
    ensures faceLines == Runs(fi, ks, |ks|)
  {
    var lineHead := 0;
    faceLines := map[];
    lines := map[];
    ghost var emitted: seq<Line> := [];
    var n := 0;
    while n < |ks|
      invariant 0 <= n <= |ks|
      invariant emitted == EmittedUpTo(fi, ks, n) && lineHead == |emitted|
      invariant lines == Table(emitted)
      invariant faceLines == Runs(fi, ks, n)
    {
      lines, faceLines, lineHead := EmitAt(fi, ks, n, lines, faceLines, lineHead, emitted);
      emitted := emitted + FaceEdges(fi[ks[n]]);
      n := n + 1;
    }
  }

  /** One turn of the face loop: the face at position `n` of the visit order. */
  method EmitAt(fi: map<FaceId, seq<nat>>, ks: seq<FaceId>, n: nat, lines: map<LineId, Line>,
                faceLines: map<FaceId, seq<LineId>>, lineHead: nat, ghost emitted: seq<Line>)
    returns (lines': map<LineId, Line>, faceLines': map<FaceId, seq<LineId>>, lineHead': nat)
    requires forall k :: k in ks ==> k in fi
    requires StrictlyIncreasing(ks) && n < |ks|
    requires emitted == EmittedUpTo(fi, ks, n) && lineHead == |emitted|
    requires lines == Table(emitted) && faceLines == Runs(fi, ks, n)
    ensures emitted + FaceEdges(fi[ks[n]]) == EmittedUpTo(fi, ks, n + 1)
    ensures lineHead' == |EmittedUpTo(fi, ks, n + 1)|
    ensures lines' == Table(EmittedUpTo(fi, ks, n + 1)) && faceLines' == Runs(fi, ks, n + 1)
  {
    var faceId := ks[n];
    var indices := fi[faceId];
    assert |indices| >= 2 ==> faceId !in faceLines by {
      RunsOwners(fi, ks, n);
      PositionInOrder(ks, n);
    }
    RunsStep(fi, ks, n);
    lines', faceLines', lineHead' := EmitFace(lines, faceLines, lineHead, faceId, indices, emitted);
  }

  /**
   * `lines`: the face loop run over the faces in ascending id order. Line ids are dense,
   * and each face with two or more indices owns the run of ids after those of the faces before it.
   */
  method Lines(faceIndices: map<FaceId, seq<nat>>)
    returns (lines: map<LineId, Line>, faceLines: map<FaceId, seq<LineId>>)
    ensures lines == LineTable(faceIndices)
    ensures faceLines == FaceLineTable(faceIndices)
  {
    SortedKeysIncreasing(faceIndices.Keys);
    lines, faceLines := EmitFaces(faceIndices, Order(faceIndices));
    RunsComplete(faceIndices, Order(faceIndices));
  }

  /** Emitting more faces never shortens the emission. */
  lemma {:induction false} EmittedGrows(fi: map<FaceId, seq<nat>>, ks: seq<FaceId>, a: nat, m: nat)
    requires a <= m <= |ks|
    ensures |EmittedUpTo(fi, ks, a)| <= |EmittedUpTo(fi, ks, m)|
  {
    if a < m {
      EmittedGrows(fi, ks, a, m - 1);
      assert |EmittedUpTo(fi, ks, m)| >= |EmittedUpTo(fi, ks, m - 1)| by { EmittedStep(fi, ks, m - 1); }
    }
  }

  /** The prefix of the emission for the first `a` faces is kept when more faces follow. */
  lemma {:induction false} EmittedPrefix(fi: map<FaceId, seq<nat>>, ks: seq<FaceId>, a: nat, m: nat)
    requires a <= m <= |ks|
    ensures |EmittedUpTo(fi, ks, a)| <= |EmittedUpTo(fi, ks, m)|
    ensures EmittedUpTo(fi, ks, m)[..|EmittedUpTo(fi, ks, a)|] == EmittedUpTo(fi, ks, a)
  {
    if a < m {
      EmittedPrefix(fi, ks, a, m - 1);
      EmittedStep(fi, ks, m - 1);
      var e, p := EmittedUpTo(fi, ks, m - 1), EmittedUpTo(fi, ks, a);
      assert (e + FaceEdges(IndicesOf(fi, ks[m - 1])))[..|p|] == e[..|p|];
    }
  }

  /** The number of lines a face contributes: one per index once it has two or more. */
  lemma {:induction false} FaceEdgesCount(indices: seq<nat>)
    ensures |FaceEdges(indices)| == if |indices| >= 2 then |indices| else 0
  {
  }

  /** Line `j` of the face at position `a` has id |EmittedUpTo(a)| + j in the whole emission. */
  lemma EmittedAt(fi: map<FaceId, seq<nat>>, ks: seq<FaceId>, a: nat, j: nat, i: nat)
    requires a < |ks| && j < |FaceEdges(IndicesOf(fi, ks[a]))| && i == |EmittedUpTo(fi, ks, a)| + j
    ensures i < |EmittedUpTo(fi, ks, |ks|)|
    ensures EmittedUpTo(fi, ks, |ks|)[i] == FaceEdges(IndicesOf(fi, ks[a]))[j]
  {
    EmittedLast(fi, ks, a, j);
    EmittedKept(fi, ks, a + 1, |ks|, i);
  }

  /** The lines of face `a` close the emission of the first `a + 1` faces. */
  lemma EmittedLast(fi: map<FaceId, seq<nat>>, ks: seq<FaceId>, a: nat, j: nat)
    requires a < |ks| && j < |FaceEdges(IndicesOf(fi, ks[a]))|
    ensures |EmittedUpTo(fi, ks, a)| + j < |EmittedUpTo(fi, ks, a + 1)|
    ensures EmittedUpTo(fi, ks, a + 1)[|EmittedUpTo(fi, ks, a)| + j] == FaceEdges(IndicesOf(fi, ks[a]))[j]
  {
    EmittedStep(fi, ks, a);
  }

  /** Emitting more faces keeps every line already emitted in place. */
  lemma {:induction false} EmittedKept(fi: map<FaceId, seq<nat>>, ks: seq<FaceId>, n: nat, m: nat, i: nat)
    requires n <= m <= |ks| && i < |EmittedUpTo(fi, ks, n)|
    ensures i < |EmittedUpTo(fi, ks, m)| && EmittedUpTo(fi, ks, m)[i] == EmittedUpTo(fi, ks, n)[i]
    decreases m
  {
    if n < m {
      EmittedKept(fi, ks, n, m - 1, i);
      assert EmittedUpTo(fi, ks, m) == EmittedUpTo(fi, ks, m - 1) + FaceEdges(IndicesOf(fi, ks[m - 1]));
    }
  }

  /** A face at an earlier position ends before a face at a later position starts. */
  lemma {:induction false} RunsOrdered(fi: map<FaceId, seq<nat>>, ks: seq<FaceId>, a: nat, b: nat)
    requires a < b <= |ks|
    ensures |EmittedUpTo(fi, ks, a)| + |FaceEdges(IndicesOf(fi, ks[a]))| <= |EmittedUpTo(fi, ks, b)|
  {
    EmittedLength(fi, ks, a);
    EmittedGrows(fi, ks, a + 1, b);
  }

  /** Every emitted position belongs to the run of some face with two or more indices. */
  lemma {:induction false} EmittedOwner(fi: map<FaceId, seq<nat>>, ks: seq<FaceId>, n: nat, i: nat)
    requires n <= |ks| && i < |EmittedUpTo(fi, ks, n)|
    ensures exists a ::
      0 <= a < n && |IndicesOf(fi, ks[a])| >= 2 &&
      |EmittedUpTo(fi, ks, a)| <= i < |EmittedUpTo(fi, ks, a)| + |IndicesOf(fi, ks[a])|
  {
    var prev, fe := EmittedUpTo(fi, ks, n - 1), FaceEdges(IndicesOf(fi, ks[n - 1]));
    assert |EmittedUpTo(fi, ks, n)| == |prev| + |fe| by { EmittedStep(fi, ks, n - 1); }
    FaceEdgesCount(IndicesOf(fi, ks[n - 1]));
    if i >= |prev| {
      assert |IndicesOf(fi, ks[n - 1])| >= 2;
    } else {
      EmittedOwner(fi, ks, n - 1, i);
      var a :| 0 <= a < n - 1 && |IndicesOf(fi, ks[a])| >= 2 &&
        |EmittedUpTo(fi, ks, a)| <= i < |EmittedUpTo(fi, ks, a)| + |IndicesOf(fi, ks[a])|;
    }
  }

  /** Faces with fewer than two indices get no entry; every other face gets one. */
  lemma {:induction false} FaceLineTableKeys(fi: map<FaceId, seq<nat>>, f: FaceId)
    ensures f in FaceLineTable(fi) <==> f in fi && |fi[f]| >= 2
  {
  }

  /** In the visit order `ks`, the j-th id of the face at position `a` names the j-th line of its loop. */
  lemma {:induction false} FaceLinesAreEdgesIn(fi: map<FaceId, seq<nat>>, ks: seq<FaceId>, a: nat, j: nat)
    requires StrictlyIncreasing(ks) && a < |ks| && 2 <= |IndicesOf(fi, ks[a])| && j < |IndicesOf(fi, ks[a])|
    ensures |FaceRunIn(fi, ks, ks[a])| == |IndicesOf(fi, ks[a])|
    ensures FaceRunIn(fi, ks, ks[a])[j] < |EmittedUpTo(fi, ks, |ks|)|
    ensures EmittedUpTo(fi, ks, |ks|)[FaceRunIn(fi, ks, ks[a])[j]] == FaceEdges(IndicesOf(fi, ks[a]))[j]
  {
    FaceRunAt(fi, ks, a);
    FaceEdgesCount(IndicesOf(fi, ks[a]));
    EmittedAt(fi, ks, a, j, FaceRunIn(fi, ks, ks[a])[j]);
  }

  /**
   * A face with n >= 2 indices owns n line ids, listed in emission order; the j-th is a key of
   * the line table and names the j-th line of the face's loop.
   */
  lemma {:induction false} FaceLinesAreEdges(fi: map<FaceId, seq<nat>>, f: FaceId, j: nat)
    requires f in fi && |fi[f]| >= 2 && j < |fi[f]|
    ensures f in FaceLineTable(fi) && |FaceLineTable(fi)[f]| == |fi[f]|
    ensures FaceLineTable(fi)[f][j] in LineTable(fi)
    ensures LineTable(fi)[FaceLineTable(fi)[f][j]] == FaceEdges(fi[f])[j]
  {
    var ks := Order(fi);
    assert StrictlyIncreasing(ks) by { SortedKeysIncreasing(fi.Keys); }
    var a := Position(ks, f);
    FaceLinesAreEdgesIn(fi, ks, a, j);
    assert f in FaceLineTable(fi) && FaceLineTable(fi)[f] == FaceRunIn(fi, ks, f);
    LineTableAt(fi, FaceRunIn(fi, ks, f)[j]);
  }

  /** The line table holds the emitted lines under their positions. */
  lemma LineTableAt(fi: map<FaceId, seq<nat>>, i: nat)
    ensures i in LineTable(fi) <==> i < |AllLines(fi)|
    ensures i < |AllLines(fi)| ==> LineTable(fi)[i] == AllLines(fi)[i]
  {
  }

  /** Every id listed under a face is below the line count. */
  lemma {:induction false} FaceLineBelowCount(fi: map<FaceId, seq<nat>>, f: FaceId, i: LineId)
    requires f in FaceLineTable(fi) && i in FaceLineTable(fi)[f]
    ensures i < LineCount(fi)
  {
    var j :| 0 <= j < |FaceLineTable(fi)[f]| && FaceLineTable(fi)[f][j] == i;
    assert f in fi && |fi[f]| >= 2 by { FaceLineTableKeys(fi, f); }
    FaceLinesAreEdges(fi, f, j);
    LineTableKeys(fi);
  }

  /** Line ids are 0, 1, ... up to the number of lines, with no gaps. */
  lemma {:induction false} LineTableKeys(fi: map<FaceId, seq<nat>>)
    ensures forall i :: i in LineTable(fi) <==> 0 <= i < LineCount(fi)
  {
  }

  /** The runs of two faces with two or more indices at different positions do not overlap. */
  lemma {:induction false} RunsDisjoint(fi: map<FaceId, seq<nat>>, ks: seq<FaceId>, p: nat, q: nat, i: LineId)
    requires StrictlyIncreasing(ks) && p < q < |ks| && 2 <= |IndicesOf(fi, ks[p])|
    ensures !(i in FaceRunIn(fi, ks, ks[p]) && i in FaceRunIn(fi, ks, ks[q]))
  {
    var bp, bq := |EmittedUpTo(fi, ks, p)|, |EmittedUpTo(fi, ks, q)|;
    var np, nq := |IndicesOf(fi, ks[p])|, |IndicesOf(fi, ks[q])|;
    assert FaceRunIn(fi, ks, ks[p]) == Run(bp, np) by { FaceRunAt(fi, ks, p); }
    assert FaceRunIn(fi, ks, ks[q]) == Run(bq, nq) by { FaceRunAt(fi, ks, q); }
    assert bp + np <= bq by {
      FaceEdgesCount(IndicesOf(fi, ks[p]));
      RunsOrdered(fi, ks, p, q);
    }
    RunMembership(bp, np, i);
    RunMembership(bq, nq, i);
  }

  /** Every emitted position lies in the run of some face with two or more indices. */
  lemma {:induction false} RunOwnerIn(fi: map<FaceId, seq<nat>>, ks: seq<FaceId>, i: LineId)
    requires StrictlyIncreasing(ks) && i < |EmittedUpTo(fi, ks, |ks|)|
    ensures exists a :: 0 <= a < |ks| && 2 <= |IndicesOf(fi, ks[a])| && i in FaceRunIn(fi, ks, ks[a])
  {
    EmittedOwner(fi, ks, |ks|, i);
    var a :| 0 <= a < |ks| && |IndicesOf(fi, ks[a])| >= 2 &&
      |EmittedUpTo(fi, ks, a)| <= i < |EmittedUpTo(fi, ks, a)| + |IndicesOf(fi, ks[a])|;
    assert FaceRunIn(fi, ks, ks[a]) == Run(|EmittedUpTo(fi, ks, a)|, |IndicesOf(fi, ks[a])|) by {
      FaceRunAt(fi, ks, a);
    }
    RunMembership(|EmittedUpTo(fi, ks, a)|, |IndicesOf(fi, ks[a])|, i);
  }

  /** Every line id is listed under exactly one face. */
  lemma {:induction false} LineOwnedOnce(fi: map<FaceId, seq<nat>>, i: LineId)
    requires i < LineCount(fi)
    ensures exists f :: f in FaceLineTable(fi) && i in FaceLineTable(fi)[f]
    ensures forall f, g ::
      f in FaceLineTable(fi) && g in FaceLineTable(fi) && i in FaceLineTable(fi)[f] && i in FaceLineTable(fi)[g]
      ==> f == g
  {
    var ks := Order(fi);
    assert StrictlyIncreasing(ks) by { SortedKeysIncreasing(fi.Keys); }
    var t := FaceLineTable(fi);
    RunOwnerIn(fi, ks, i);
    var a :| 0 <= a < |ks| && 2 <= |IndicesOf(fi, ks[a])| && i in FaceRunIn(fi, ks, ks[a]);
    assert ks[a] in t && t[ks[a]] == FaceRunIn(fi, ks, ks[a]);
    forall f, g | f in t && g in t && i in t[f] && i in t[g] ensures f == g {
      var p, q := Position(ks, f), Position(ks, g);
      assert t[f] == FaceRunIn(fi, ks, ks[p]) && t[g] == FaceRunIn(fi, ks, ks[q]);
      if p < q {
        RunsDisjoint(fi, ks, p, q, i);
      } else if q < p {
        RunsDisjoint(fi, ks, q, p, i);
      }
    }
  }

  /**
   * `line_eq`: two lines match when their endpoints are pairwise near, in the same order or in
   * the reversed order.
   */
  predicate LineEq(k: Kernel, a0: Vector3, a1: Vector3, b0: Vector3, b1: Vector3): (r: bool)
    ensures r <==> exists c :: c in [(b0, b1), (b1, b0)] && k.near(a0, c.0) && k.near(a1, c.1)
  {
    var orientations := [(b0, b1), (b1, b0)];
    assert orientations[0] == (b0, b1) && orientations[1] == (b1, b0);
    if k.near(a0, b0) && k.near(a1, b1) then true
    else if k.near(a0, b1) && k.near(a1, b0) then true
    else false
  }

  /** Reversing either line does not change whether the two lines match. */
  lemma {:induction false} LineEqOrientation(k: Kernel, a0: Vector3, a1: Vector3, b0: Vector3, b1: Vector3)
    ensures LineEq(k, a0, a1, b0, b1) == LineEq(k, a1, a0, b0, b1)
    ensures LineEq(k, a0, a1, b0, b1) == LineEq(k, a0, a1, b1, b0)
  {
  }

  /** With a symmetric distance test, matching does not depend on which line comes first. */
  lemma {:induction false} LineEqSymmetric(k: Kernel, a0: Vector3, a1: Vector3, b0: Vector3, b1: Vector3)
    requires NearIsSymmetric(k)
    ensures LineEq(k, a0, a1, b0, b1) == LineEq(k, b0, b1, a0, a1)
  {
  }

  /**
   * `point_in_line`: a point equal (f32 `==`) to either endpoint lies on the line; otherwise a
   * degenerate line contains nothing; otherwise the kernel's collinearity and projection test
   * decides.
   */
  function PointInLine(k: Kernel, point: Vector3, v0: Vector3, v1: Vector3): (r: bool)
    ensures k.eq(point, v0) || k.eq(point, v1) ==> r
    ensures !k.eq(point, v0) && !k.eq(point, v1) && k.eq(v0, v1) ==> !r
    ensures !k.eq(point, v0) && !k.eq(point, v1) && !k.eq(v0, v1) ==> r == k.onSegment(point, v0, v1)
  {
    if k.eq(point, v0) then true
    else if k.eq(point, v1) then true
    else if k.eq(v0, v1) then false
    else k.onSegment(point, v0, v1)
  }
}
