/** The lookup table from each brush id to its entity (src/brush/brush_entities.rs). */
module BrushEntities {
  import opened Ids
  import Inversion
  import Seqs

  /** `BrushEntities`: the entity of each brush. */
  datatype BrushEntityMap = BrushEntityMap(table: map<BrushId, EntityId>)

  /**
   * `BrushEntities::new`: every listed brush maps to an entity that lists it. The pairs are collected
   * in ascending entity order, so a brush listed under several entities keeps the greatest.
   */
  function New(entityBrushes: map<EntityId, seq<BrushId>>): (r: BrushEntityMap)
    ensures r.table.Keys == Inversion.Listed(entityBrushes)
    ensures forall b :: b in r.table ==> r.table[b] in entityBrushes && b in entityBrushes[r.table[b]]
    ensures forall b, e :: b in r.table && e in entityBrushes && b in entityBrushes[e] ==> e <= r.table[b]
  {
    BrushEntityMap(Inversion.Invert(entityBrushes))
  }

  /** When no brush is listed under two entities, every listed brush maps back to its entity. */
  lemma {:induction false} ExactInverse(entityBrushes: map<EntityId, seq<BrushId>>)
    requires Inversion.ListsDisjoint(entityBrushes)
    ensures forall e, b :: e in entityBrushes && b in entityBrushes[e] ==> b in New(entityBrushes).table && New(entityBrushes).table[b] == e
  {
    Inversion.ExactInverse(entityBrushes);
  }

  /** With disjoint, duplicate-free brush lists, the table has one entry per listed brush. */
  lemma {:induction false} Size(entityBrushes: map<EntityId, seq<BrushId>>)
    requires Inversion.ListsDisjoint(entityBrushes)
    requires forall e :: e in entityBrushes ==> Seqs.NoDuplicates(entityBrushes[e])
    ensures |New(entityBrushes).table| == Inversion.TotalLength(entityBrushes, SortedKeys(entityBrushes.Keys))
  {
    Inversion.InvertSize(entityBrushes);
  }
}
