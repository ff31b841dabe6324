/**
 * The duplicate-line relation (src/line/line_duplicates.rs): two lines of faces of different
 * brushes whose endpoints are pairwise near, in the same or in reversed order. Faces that occur
 * as the first face of a duplicate-face pair take no part on either side.
 */
module LineDuplicates {
  import opened Ids
  import opened Wrappers
  import opened Geometry
  import Lines

  /** The tables the pass reads. */
  datatype Input = Input(
    k: Kernel,
    brushes: seq<BrushId>,
    lines: map<LineId, Lines.Line>,
    brushFaces: map<BrushId, seq<FaceId>>,
    faceDuplicates: set<(FaceId, FaceId)>,
    faceVertices: map<FaceId, seq<Vector3>>,
    faceLines: map<FaceId, seq<LineId>>
  )

  /** The face is the first face of some duplicate-face pair. */
  predicate DuplicatedFirst(s: Input, f: FaceId) {
    exists p :: p in s.faceDuplicates && p.0 == f
  }

  /** A line as the pass meets it: the brush and the face it was reached through. */
  datatype Slot = Slot(brush: BrushId, face: FaceId, line: LineId)

  /**
   * Every lookup the pass makes succeeds: each brush has a face list; each face that is not a
   * duplicated first face has vertices and lines; each of its lines exists and its two vertex
   * indices are in range.
   */
  predicate Complete(s: Input) {
    forall b :: b in s.brushes ==> b in s.brushFaces && FacesComplete(s, s.brushFaces[b])
  }

  /** The lookups for the faces of one brush succeed. */
  predicate FacesComplete(s: Input, faces: seq<FaceId>) {
    forall f :: f in faces && !DuplicatedFirst(s, f) ==>
      f in s.faceVertices && f in s.faceLines && LinesComplete(s, s.faceLines[f], |s.faceVertices[f]|)
  }

  /** The lookups for the lines of one face with `n` vertices succeed. */
  predicate LinesComplete(s: Input, ls: seq<LineId>, n: nat) {
    forall l :: l in ls ==> l in s.lines && s.lines[l].i0 < n && s.lines[l].i1 < n
  }

  /** The lines the pass compares, each with its brush and face. */
  function Slots(s: Input): (r: set<Slot>)
    requires Complete(s)
    ensures forall x :: x in r <==>
      (x.brush in s.brushes && x.face in s.brushFaces[x.brush] && !DuplicatedFirst(s, x.face)
       && x.line in s.faceLines[x.face])
  {
    set b, f, l | b in s.brushes && f in s.brushFaces[b] && !DuplicatedFirst(s, f) && l in s.faceLines[f]
      :: Slot(b, f, l)
  }

  function V0(s: Input, x: Slot): Vector3
    requires Complete(s) && x in Slots(s)
  {
    s.faceVertices[x.face][s.lines[x.line].i0]
  }

  function V1(s: Input, x: Slot): Vector3
    requires Complete(s) && x in Slots(s)
  {
    s.faceVertices[x.face][s.lines[x.line].i1]
  }

  /** The test applied to a left-hand slot `x` and a right-hand slot `y`. */
  predicate Pairs(s: Input, x: Slot, y: Slot)
    requires Complete(s) && x in Slots(s) && y in Slots(s)
  {
    x.brush != y.brush && Lines.LineEq(s.k, V0(s, x), V1(s, x), V0(s, y), V1(s, y))
  }

  /** Line `a` meets line `b` with `a` on the left: some slots of them pass the test. */
  predicate Paired(s: Input, a: LineId, b: LineId)
    requires Complete(s)
  {
    exists x, y :: x in Slots(s) && y in Slots(s) && x.line == a && y.line == b && Pairs(s, x, y)
  }

  /**
   * `line_duplicates`: every passing comparison records (a, b) and (b, a). A missing lookup is a
   * failure (`None`).
   */
  function LineDuplicates(s: Input): (r: Option<set<(LineId, LineId)>>)
    ensures r.Some? <==> Complete(s)
    ensures r.Some? ==> forall a: LineId, b: LineId :: (a, b) in r.value <==> Paired(s, a, b) || Paired(s, b, a)
  {
    if !Complete(s) then None
    else
      var slots := Slots(s);
      var forward := set x, y | x in slots && y in slots && Pairs(s, x, y) :: (x.line, y.line);
      var backward := set x, y | x in slots && y in slots && Pairs(s, x, y) :: (y.line, x.line);
      Some(forward + backward)
  }

  /** The relation is symmetric. */
  lemma {:induction false} Symmetric(s: Input, a: LineId, b: LineId)
    requires Complete(s)
    ensures (a, b) in LineDuplicates(s).value <==> (b, a) in LineDuplicates(s).value
  {
  }

  /**
   * A recorded pair comes from two faces of different brushes, neither a duplicated first face,
   * whose lines match.
   */
  lemma {:induction false} RecordedFrom(s: Input, a: LineId, b: LineId)
    requires Complete(s) && (a, b) in LineDuplicates(s).value
    ensures exists x, y :: SlotsApart(s, x, y) && x.line == a && y.line == b
  {
    if Paired(s, a, b) {
      var x, y :| x in Slots(s) && y in Slots(s) && x.line == a && y.line == b && Pairs(s, x, y);
      assert SlotsApart(s, x, y);
    } else {
      var x, y :| x in Slots(s) && y in Slots(s) && x.line == b && y.line == a && Pairs(s, x, y);
      assert SlotsApart(s, y, x);
    }
  }

  /** Two compared slots: of different brushes, neither reached through a duplicated first face. */
  predicate SlotsApart(s: Input, x: Slot, y: Slot)
    requires Complete(s)
  {
    x in Slots(s) && y in Slots(s) && x.brush != y.brush && !DuplicatedFirst(s, x.face) && !DuplicatedFirst(s, y.face)
  }

  /**
   * With a symmetric `near`, matching does not depend on which line is on the left, so a pair is
   * recorded exactly when the lines of two slots of different brushes match in the order (a, b).
   */
  lemma {:induction false} RecordedIff(s: Input, a: LineId, b: LineId)
    requires Complete(s) && NearIsSymmetric(s.k)
    ensures (a, b) in LineDuplicates(s).value <==> Paired(s, a, b)
  {
    if Paired(s, b, a) {
      var x, y :| x in Slots(s) && y in Slots(s) && x.line == b && y.line == a && Pairs(s, x, y);
      Lines.LineEqSymmetric(s.k, V0(s, x), V1(s, x), V0(s, y), V1(s, y));
      assert Pairs(s, y, x);
    }
  }
}
