/** The lookup table from each face id to its brush (src/face/face_brushes.rs). */
module FaceBrushes {
  import opened Ids
  import Inversion
  import Seqs

  /** `FaceBrushes`: the brush of each face. */
  datatype FaceBrushMap = FaceBrushMap(table: map<FaceId, BrushId>)

  /**
   * `FaceBrushes::new`: every listed face maps to a brush that lists it. The pairs are collected
   * in ascending brush order, so a face listed under several brushes keeps the greatest.
   */
  function New(brushFaces: map<BrushId, seq<FaceId>>): (r: FaceBrushMap)
    ensures r.table.Keys == Inversion.Listed(brushFaces)
    ensures forall f :: f in r.table ==> r.table[f] in brushFaces && f in brushFaces[r.table[f]]
    ensures forall f, b :: f in r.table && b in brushFaces && f in brushFaces[b] ==> b <= r.table[f]
  {
    FaceBrushMap(Inversion.Invert(brushFaces))
  }

  /** When no face is listed under two brushes, every listed face maps back to its brush. */
  lemma {:induction false} ExactInverse(brushFaces: map<BrushId, seq<FaceId>>)
    requires Inversion.ListsDisjoint(brushFaces)
    ensures forall b, f :: b in brushFaces && f in brushFaces[b] ==> f in New(brushFaces).table && New(brushFaces).table[f] == b
  {
    Inversion.ExactInverse(brushFaces);
  }

  /** With disjoint, duplicate-free face lists, the table has one entry per listed face. */
  lemma {:induction false} Size(brushFaces: map<BrushId, seq<FaceId>>)
    requires Inversion.ListsDisjoint(brushFaces)
    requires forall b :: b in brushFaces ==> Seqs.NoDuplicates(brushFaces[b])
    ensures |New(brushFaces).table| == Inversion.TotalLength(brushFaces, SortedKeys(brushFaces.Keys))
  {
    Inversion.InvertSize(brushFaces);
  }
}
