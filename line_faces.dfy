/** The lookup table from each line id to its parent face (src/line/line_faces.rs). */
module LineFaces {
  import opened Ids
  import Inversion
  import Lines

  /**
   * `line_faces`: every listed line maps to a face that lists it. The pairs are collected in
   * ascending face order, so a line listed under several faces keeps the greatest of them.
   */
  function LineFaces(faceLines: map<FaceId, seq<LineId>>): (r: map<LineId, FaceId>)
    ensures r.Keys == Inversion.Listed(faceLines)
    ensures forall l :: l in r ==> r[l] in faceLines && l in faceLines[r[l]]
    ensures forall l, f :: l in r && f in faceLines && l in faceLines[f] ==> f <= r[l]
  {
    Inversion.Invert(faceLines)
  }

  /** When no line is listed under two faces, every listed line maps back to its face. */
  lemma {:induction false} ExactInverse(faceLines: map<FaceId, seq<LineId>>)
    requires Inversion.ListsDisjoint(faceLines)
    ensures forall f, l :: f in faceLines && l in faceLines[f] ==> l in LineFaces(faceLines) && LineFaces(faceLines)[l] == f
  {
    Inversion.ExactInverse(faceLines);
  }

  /** In the face -> line ids table of `lines`, no line id is listed under two faces. */
  lemma FaceLinesDisjoint(fi: map<FaceId, seq<nat>>)
    ensures Inversion.ListsDisjoint(Lines.FaceLineTable(fi))
  {
    var t := Lines.FaceLineTable(fi);
    forall f, g, v | f in t && g in t && v in t[f] && v in t[g] ensures f == g {
      Lines.FaceLineBelowCount(fi, f, v);
      Lines.LineOwnedOnce(fi, v);
    }
  }

  /** The face -> line ids table of `lines` lists exactly the line ids 0 .. LineCount - 1. */
  lemma FaceLinesRange(fi: map<FaceId, seq<nat>>)
    ensures var t := Lines.FaceLineTable(fi);
            (forall f, v :: f in t && v in t[f] ==> v < Lines.LineCount(fi))
            && forall v :: v in Inversion.Below(Lines.LineCount(fi)) ==> exists f :: f in t && v in t[f]
  {
    var t := Lines.FaceLineTable(fi);
    var n := Lines.LineCount(fi);
    forall f, v | f in t && v in t[f] ensures v < n {
      Lines.FaceLineBelowCount(fi, f, v);
    }
    forall v | v in Inversion.Below(n) ensures exists f :: f in t && v in t[f] {
      Lines.LineOwnedOnce(fi, v);
    }
  }

  /**
   * On the face -> line ids table of `lines`, the lookup is the exact inverse, and its keys are
   * the line ids 0 .. LineCount - 1, one entry per line.
   */
  lemma {:induction false} InvertsLines(fi: map<FaceId, seq<nat>>)
    ensures forall f, l :: f in Lines.FaceLineTable(fi) && l in Lines.FaceLineTable(fi)[f] ==>
      l in LineFaces(Lines.FaceLineTable(fi)) && LineFaces(Lines.FaceLineTable(fi))[l] == f
    ensures LineFaces(Lines.FaceLineTable(fi)).Keys == Inversion.Below(Lines.LineCount(fi))
    ensures |LineFaces(Lines.FaceLineTable(fi))| == Lines.LineCount(fi)
  {
    var t := Lines.FaceLineTable(fi);
    FaceLinesRange(fi);
    FaceLinesDisjoint(fi);
    Inversion.ExactInverse(t);
    Inversion.InverseOfRange(t, Lines.LineCount(fi));
  }
}
