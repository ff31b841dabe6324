/**
 * Interior-face selection (src/face/interior_faces.rs): a face, other than a duplicated first
 * face, is interior when every one of its lines is the first line of a duplicate-line pair.
 */
module InteriorFaces {
  import opened Ids
  import opened Wrappers

  /** The tables the pass reads. */
  datatype Input = Input(
    brushes: seq<BrushId>,
    brushFaces: map<BrushId, seq<FaceId>>,
    faceDuplicates: set<(FaceId, FaceId)>,
    faceLines: map<FaceId, seq<LineId>>,
    lineDuplicates: set<(LineId, LineId)>
  )

  /** The face is the first face of some duplicate-face pair. */
  predicate FaceDuplicatedFirst(s: Input, f: FaceId) {
    exists p :: p in s.faceDuplicates && p.0 == f
  }

  /** The line is the first line of some duplicate-line pair. */
  predicate LineDuplicatedFirst(s: Input, l: LineId) {
    exists p :: p in s.lineDuplicates && p.0 == l
  }

  /** How many entries of the line list `ls` are duplicated first lines (`connected_lines`). */
  function Connected(s: Input, ls: seq<LineId>): (r: nat)
    ensures r <= |ls|
    ensures r == |ls| <==> forall l :: l in ls ==> LineDuplicatedFirst(s, l)
  {
    if ls == [] then 0
    else
      var rest := Connected(s, ls[1..]);
      assert forall l :: l in ls <==> l == ls[0] || l in ls[1..];
      (if LineDuplicatedFirst(s, ls[0]) then 1 else 0) + rest
  }

  /** Each brush has a face list, and each face that is not a duplicated first face has lines. */
  predicate Complete(s: Input) {
    forall b :: b in s.brushes ==>
      b in s.brushFaces && forall f :: f in s.brushFaces[b] && !FaceDuplicatedFirst(s, f) ==> f in s.faceLines
  }

  /** The candidates: the faces of the listed brushes that are not duplicated first faces. */
  predicate Candidate(s: Input, f: FaceId) {
    exists b :: b in s.brushes && b in s.brushFaces && f in s.brushFaces[b] && !FaceDuplicatedFirst(s, f)
  }

  /**
   * `interior_faces`: the candidates whose count of connected lines reaches their line count.
   * A missing face list or line list is a failure (`None`).
   */
  function InteriorFaces(s: Input): (r: Option<set<FaceId>>)
    ensures r.Some? <==> Complete(s)
    ensures r.Some? ==> forall f :: f in r.value ==> Candidate(s, f)
    ensures r.Some? ==> forall f :: f in r.value <==>
      Candidate(s, f) && f in s.faceLines && forall l :: l in s.faceLines[f] ==> LineDuplicatedFirst(s, l)
  {
    if !Complete(s) then None
    else
      Some(set b, f | b in s.brushes && f in s.brushFaces[b] && !FaceDuplicatedFirst(s, f)
                      && Connected(s, s.faceLines[f]) >= |s.faceLines[f]| :: f)
  }

  /** A duplicated first face is never reported, and a candidate without lines always is. */
  lemma {:induction false} EdgeCases(s: Input, f: FaceId)
    requires Complete(s)
    ensures FaceDuplicatedFirst(s, f) ==> f !in InteriorFaces(s).value
    ensures Candidate(s, f) && s.faceLines[f] == [] ==> f in InteriorFaces(s).value
  {
    if Candidate(s, f) {
      var b :| b in s.brushes && b in s.brushFaces && f in s.brushFaces[b] && !FaceDuplicatedFirst(s, f);
      assert f in s.faceLines;
    }
  }
}
