/**
 * The alternate edge extractor of src/line/face_lines.rs (`Lines::new`): the same face loop as
 * `lines`, recording each line id three times: in a flat id list, under its face, and with the
 * index pair of its endpoints.
 */
module LineFaceLines {
  import opened Ids
  import opened Seqs
  import Lines

  /** The two vertex indices of a line (`LineIndices`). */
  datatype LineIndices = LineIndices(v0: nat, v1: nat)

  /** The `Lines` record: the ids in emission order, the ids of each face, the pair of each id. */
  datatype LineSet = LineSet(
    lines: seq<LineId>,
    faceLines: map<FaceId, seq<LineId>>,
    lineIndices: map<LineId, LineIndices>
  )

  function PairOf(l: Lines.Line): LineIndices {
    LineIndices(l.i0, l.i1)
  }

  /** An emission numbered by position, recording each line's index pair. */
  function IndexTable(e: seq<Lines.Line>): map<LineId, LineIndices> {
    map i | 0 <= i < |e| :: PairOf(e[i])
  }

  lemma IndexTableSnoc(e: seq<Lines.Line>, x: Lines.Line)
    ensures IndexTable(e + [x]) == IndexTable(e)[|e| := PairOf(x)]
  {
  }

  /**
   * The body of the face loop for one face: a face with fewer than two indices is skipped; any
   * other face gets its loop of lines.
   */
  method NewFace(lines: seq<LineId>, faceLines: map<FaceId, seq<LineId>>,
                 lineIndices: map<LineId, LineIndices>, lineHead: nat,
                 faceId: FaceId, indices: seq<nat>, ghost emitted: seq<Lines.Line>)
    returns (lines': seq<LineId>, faceLines': map<FaceId, seq<LineId>>,
             lineIndices': map<LineId, LineIndices>, lineHead': nat)
    requires |indices| >= 2 ==> faceId !in faceLines
    requires lines == Run(0, lineHead) && lineIndices == IndexTable(emitted) && lineHead == |emitted|
    ensures lines' == Run(0, lineHead')
    ensures lineIndices' == IndexTable(emitted + Lines.FaceEdges(indices))
    ensures lineHead' == lineHead + |Lines.FaceEdges(indices)|
    ensures faceLines' == if |indices| >= 2 then faceLines[faceId := Run(lineHead, |indices|)] else faceLines
  {
    if |indices| < 2 {
      assert emitted + Lines.FaceEdges(indices) == emitted;
      return lines, faceLines, lineIndices, lineHead;
    }
    Lines.FaceEdgesCount(indices);
    lines', faceLines', lineIndices', lineHead' := NewLoop(lines, faceLines, lineIndices, lineHead, faceId, indices, emitted);
  }

  /**
   * The lines of one face with two or more indices: one per consecutive index pair, then the
   * closing pair, each id pushed to the flat list and to the face's list.
   */
  method NewLoop(lines: seq<LineId>, faceLines: map<FaceId, seq<LineId>>,
                 lineIndices: map<LineId, LineIndices>, lineHead: nat,
                 faceId: FaceId, indices: seq<nat>, ghost emitted: seq<Lines.Line>)
    returns (lines': seq<LineId>, faceLines': map<FaceId, seq<LineId>>,
             lineIndices': map<LineId, LineIndices>, lineHead': nat)
    requires |indices| >= 2 && faceId !in faceLines
    requires lines == Run(0, lineHead) && lineIndices == IndexTable(emitted) && lineHead == |emitted|
    ensures lines' == Run(0, lineHead')
    ensures lineIndices' == IndexTable(emitted + Lines.FaceEdges(indices))
    ensures lineHead' == lineHead + |indices|
    ensures faceLines' == faceLines[faceId := Run(lineHead, |indices|)]
  {
    ghost var edges := Lines.FaceEdges(indices);
    Lines.FaceEdgesParts(indices);
    lines', faceLines', lineIndices', lineHead' := lines, faceLines, lineIndices, lineHead;
    var i := 0;
    while i < |indices| - 1
      invariant 0 <= i <= |indices| - 1 && lineHead' == lineHead + i
      invariant lines' == Run(0, lineHead') && lineIndices' == IndexTable(emitted + edges[..i])
      invariant faceLines' == if i == 0 then faceLines else faceLines[faceId := Run(lineHead, i)]
    {
      lines', faceLines', lineIndices', lineHead' :=
        PushLine(lines', faceLines', lineIndices', lineHead', faceId, Lines.Line(indices[i], indices[i + 1]),
                 faceLines, lineHead, emitted + edges[..i], i);
      assert emitted + edges[..i] + [edges[i]] == emitted + edges[..i + 1];
      i := i + 1;
    }
    lines', faceLines', lineIndices', lineHead' :=
      PushLine(lines', faceLines', lineIndices', lineHead', faceId, Lines.Line(indices[|indices| - 1], indices[0]),
               faceLines, lineHead, emitted + edges[..i], i);
    assert emitted + edges[..i] + [edges[i]] == emitted + edges;
  }

  /**
   * One line of the loop: its id is the counter, pushed to the flat list and to the face's list,
   * and recorded with its index pair.
   */
  method PushLine(lines: seq<LineId>, faceLines: map<FaceId, seq<LineId>>,
                  lineIndices: map<LineId, LineIndices>, lineHead: nat, faceId: FaceId, x: Lines.Line,
                  ghost before: map<FaceId, seq<LineId>>, ghost base: nat, ghost e: seq<Lines.Line>, ghost k: nat)
    returns (lines': seq<LineId>, faceLines': map<FaceId, seq<LineId>>,
             lineIndices': map<LineId, LineIndices>, lineHead': nat)
    requires faceId !in before && lineHead == base + k
    requires lines == Run(0, lineHead) && lineIndices == IndexTable(e) && lineHead == |e|
    requires faceLines == if k == 0 then before else before[faceId := Run(base, k)]
    ensures lineHead' == lineHead + 1
    ensures lines' == Run(0, lineHead') && lineIndices' == IndexTable(e + [x])
    ensures faceLines' == before[faceId := Run(base, k + 1)]
  {
    RunAppend(0, lineHead);
    lines' := lines + [lineHead];
    if k == 0 {
      Lines.PushAtFresh(faceLines, faceId, lineHead);
    } else {
      Lines.PushAtUpdate(before, faceId, Run(base, k), lineHead);
    }
    RunAppend(base, k);
    faceLines' := PushAt(faceLines, faceId, lineHead);
    IndexTableSnoc(e, x);
    lineIndices' := lineIndices[lineHead := PairOf(x)];
    lineHead' := lineHead + 1;
  }

  /** The face loop over the visit order `ks`. */
  method NewIn(fi: map<FaceId, seq<nat>>, ks: seq<FaceId>) returns (r: LineSet)
    requires forall k :: k in ks ==> k in fi
    requires StrictlyIncreasing(ks)
    ensures r.lines == Run(0, |Lines.EmittedUpTo(fi, ks, |ks|)|)
    ensures r.faceLines == Lines.Runs(fi, ks, |ks|)
    ensures r.lineIndices == IndexTable(Lines.EmittedUpTo(fi, ks, |ks|))
  {
    var lineHead := 0;
    var lines: seq<LineId> := [];
    var faceLines: map<FaceId, seq<LineId>> := map[];
    var lineIndices: map<LineId, LineIndices> := map[];
    ghost var emitted: seq<Lines.Line> := [];
    var n := 0;
    while n < |ks|
      invariant 0 <= n <= |ks|
      invariant emitted == Lines.EmittedUpTo(fi, ks, n) && lineHead == |emitted|
      invariant lines == Run(0, lineHead) && lineIndices == IndexTable(emitted)
      invariant faceLines == Lines.Runs(fi, ks, n)
    {
      lines, faceLines, lineIndices, lineHead := NewAt(fi, ks, n, lines, faceLines, lineIndices, lineHead, emitted);
      emitted := emitted + Lines.FaceEdges(fi[ks[n]]);
      n := n + 1;
    }
    r := LineSet(lines, faceLines, lineIndices);
  }

  /** One turn of the face loop: the face at position `n` of the visit order. */
  method NewAt(fi: map<FaceId, seq<nat>>, ks: seq<FaceId>, n: nat, lines: seq<LineId>,
               faceLines: map<FaceId, seq<LineId>>, lineIndices: map<LineId, LineIndices>, lineHead: nat,
               ghost emitted: seq<Lines.Line>)
    returns (lines': seq<LineId>, faceLines': map<FaceId, seq<LineId>>,
             lineIndices': map<LineId, LineIndices>, lineHead': nat)
    requires forall k :: k in ks ==> k in fi
    requires StrictlyIncreasing(ks) && n < |ks|
    requires emitted == Lines.EmittedUpTo(fi, ks, n) && lineHead == |emitted|
    requires lines == Run(0, lineHead) && lineIndices == IndexTable(emitted)
    requires faceLines == Lines.Runs(fi, ks, n)
    ensures emitted + Lines.FaceEdges(fi[ks[n]]) == Lines.EmittedUpTo(fi, ks, n + 1)
    ensures lineHead' == |Lines.EmittedUpTo(fi, ks, n + 1)|
    ensures lines' == Run(0, lineHead') && lineIndices' == IndexTable(Lines.EmittedUpTo(fi, ks, n + 1))
    ensures faceLines' == Lines.Runs(fi, ks, n + 1)
  {
    var faceId := ks[n];
    var indices := fi[faceId];
    assert |indices| >= 2 ==> faceId !in faceLines by {
      Lines.RunsOwners(fi, ks, n);
      Lines.PositionInOrder(ks, n);
    }
    Lines.RunsStep(fi, ks, n);
    lines', faceLines', lineIndices', lineHead' := NewFace(lines, faceLines, lineIndices, lineHead, faceId, indices, emitted);
  }

  /**
   * `Lines::new`: the flat list holds the ids 0 .. total - 1 in emission order, the face lists
   * are those of `lines`, and each id carries the index pair of the line `lines` gives it.
   */
  method New(faceIndices: map<FaceId, seq<nat>>) returns (r: LineSet)
    ensures r.lines == Run(0, Lines.LineCount(faceIndices))
    ensures r.faceLines == Lines.FaceLineTable(faceIndices)
    ensures r.lineIndices == IndexTable(Lines.AllLines(faceIndices))
  {
    SortedKeysIncreasing(faceIndices.Keys);
    r := NewIn(faceIndices, Lines.Order(faceIndices));
    Lines.RunsComplete(faceIndices, Lines.Order(faceIndices));
  }

  /**
   * This extractor agrees with `lines`: the same ids, and each id's index pair is the pair of
   * the line `lines` stores under it.
   */
  lemma {:induction false} AgreesWithLines(fi: map<FaceId, seq<nat>>, i: LineId)
    ensures i in IndexTable(Lines.AllLines(fi)) <==> i in Lines.LineTable(fi)
    ensures i in Lines.LineTable(fi) ==> IndexTable(Lines.AllLines(fi))[i] == PairOf(Lines.LineTable(fi)[i])
  {
  }

  /** The keys of the pair table are exactly the ids of the flat list, each listed once. */
  lemma {:induction false} ListedOnce(fi: map<FaceId, seq<nat>>, i: LineId)
    ensures i in Run(0, Lines.LineCount(fi)) <==> i in IndexTable(Lines.AllLines(fi))
    ensures NoDuplicates(Run(0, Lines.LineCount(fi)))
  {
    RunMembership(0, Lines.LineCount(fi), i);
  }
}
