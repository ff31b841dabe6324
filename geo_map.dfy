/**
 * The struct-of-arrays form of a parsed map file (src/geo_map.rs).
 *
 * `GeoMap::new` walks the entities of the map, the brushes of each entity and the planes of each
 * brush, handing out entity, brush and face ids from three running counters, so all three id
 * spaces are consecutive across the whole map. Every face gets an entry in each per-face table,
 * texture names are interned into ids in order of first appearance, and the entities without
 * brushes are listed as point entities. The parser's own records are opaque: the loader only
 * copies them.
 */
module GeoMap {
  import opened Ids
  import opened Seqs
  import opened Flatten
  import opened Geometry
  import Inversion
  import FaceBrushes
  import BrushEntities

  /** The key/value properties of an entity (`shalrath::repr::Properties`). */
  type Properties

  /** A plane's texture offset record (`shalrath::repr::TextureOffset`). */
  type TextureOffset

  /** A plane's format-specific extension record (`shalrath::repr::Extension`). */
  type Extension

  /**
   * A texture name (`String`). The loader only compares names for equality, when it interns
   * them, so nothing else about them is visible here.
   */
  type TextureName(==, !new)

  /** `Vector2`: a face's texture scale. */
  datatype Vector2 = Vector2(x: real, y: real)

  /** One plane of a brush as the map file states it (`shalrath::repr::BrushPlane`). */
  datatype BrushPlane = BrushPlane(plane: TrianglePlane, texture: TextureName, textureOffset: TextureOffset,
                                   angle: real, scaleX: real, scaleY: real, extension: Extension)

  /** A brush: its planes (`shalrath::repr::Brush`). */
  type Brush = seq<BrushPlane>

  /** An entity: its properties and its brushes (`shalrath::repr::Entity`). */
  datatype Entity = Entity(properties: Properties, brushes: seq<Brush>)

  /** `GeoMap`: the id lists and the tables keyed by entity, brush, face and texture id. */
  datatype GeoMap = GeoMap(
    entities: seq<EntityId>,
    brushes: seq<BrushId>,
    faces: seq<FaceId>,
    textures: map<TextureId, TextureName>,
    entityProperties: map<EntityId, Properties>,
    entityBrushes: map<EntityId, seq<BrushId>>,
    pointEntities: seq<EntityId>,
    brushFaces: map<BrushId, seq<FaceId>>,
    facePlanes: map<FaceId, TrianglePlane>,
    faceTextures: map<FaceId, TextureId>,
    faceOffsets: map<FaceId, TextureOffset>,
    faceAngles: map<FaceId, real>,
    faceScales: map<FaceId, Vector2>,
    faceExtensions: map<FaceId, Extension>)

  /** The entity counter of `GeoMap::new` and what it fills per entity. */
  datatype EntityTables = EntityTables(head: nat, ids: seq<EntityId>, properties: map<EntityId, Properties>)

  /** The brush counter of `GeoMap::new` and what it fills per brush. */
  datatype BrushTables = BrushTables(head: nat, ids: seq<BrushId>, entityBrushes: map<EntityId, seq<BrushId>>)

  /** The plane counter of `GeoMap::new` and what it fills per face. */
  datatype FaceTables = FaceTables(
    head: nat,
    ids: seq<FaceId>,
    brushFaces: map<BrushId, seq<FaceId>>,
    planes: map<FaceId, TrianglePlane>,
    offsets: map<FaceId, TextureOffset>,
    angles: map<FaceId, real>,
    scales: map<FaceId, Vector2>,
    extensions: map<FaceId, Extension>)

  /** The texture counter of `GeoMap::new`, its interning table and the face-to-texture table. */
  datatype TextureTables = TextureTables(head: nat, names: map<TextureName, TextureId>, faceTextures: map<FaceId, TextureId>)

  // ---------------------------------------------------------------------------------------------
  // The walk, flattened

  /** The brush list of each entity, in entity order. */
  function BrushLists(m: seq<Entity>): (r: seq<seq<Brush>>)
    ensures |r| == |m| && forall e :: 0 <= e < |m| ==> r[e] == m[e].brushes
  {
    if m == [] then [] else BrushLists(m[..|m| - 1]) + [m[|m| - 1].brushes]
  }

  /** Every brush of the map in walk order: brush id `b` is the brush at position `b`. */
  function AllBrushes(m: seq<Entity>): seq<Brush> {
    Concat(BrushLists(m))
  }

  /** Every plane of the map in walk order: face id `f` is the plane at position `f`. */
  function AllPlanes(m: seq<Entity>): seq<BrushPlane> {
    Concat(AllBrushes(m))
  }

  /** The fields of the parser's records that the per-entity and per-face tables copy. */
  function PropertiesOf(e: Entity): Properties { e.properties }
  function PlaneOf(p: BrushPlane): TrianglePlane { p.plane }
  function TextureOf(p: BrushPlane): TextureName { p.texture }
  function OffsetOf(p: BrushPlane): TextureOffset { p.textureOffset }
  function AngleOf(p: BrushPlane): real { p.angle }
  function ScaleOf(p: BrushPlane): Vector2 { Vector2(p.scaleX, p.scaleY) }
  function ExtensionOf(p: BrushPlane): Extension { p.extension }

  // ---------------------------------------------------------------------------------------------
  // Texture interning

  /**
   * The interning table from names to ids and the id handed out for each name in turn; `order`
   * lists the names met in order of first appearance, so that name `order[k]` has id `k`.
   */
  datatype Interned = Interned(table: map<TextureName, TextureId>, ids: seq<TextureId>, order: seq<TextureName>)

  /** A table and a first-appearance list that are inverse to each other. */
  ghost predicate Inverse(table: map<TextureName, TextureId>, order: seq<TextureName>) {
    (forall x :: x in table ==> table[x] < |order| && order[table[x]] == x)
    && forall k :: 0 <= k < |order| ==> order[k] in table && table[order[k]] == k
  }

  ghost predicate Valid(it: Interned) {
    Inverse(it.table, it.order)
  }

  /**
   * Interning one name: a name seen before reuses its id; a new name gets the next id
   * (`texture_head`, the number of names interned so far).
   */
  function Add(it: Interned, x: TextureName): (r: Interned)
    requires Valid(it)
    ensures Valid(r) && x in r.table
    ensures r.ids == it.ids + [r.table[x]]
  {
    if x in it.table then Interned(it.table, it.ids + [it.table[x]], it.order)
    else Interned(it.table[x := |it.order|], it.ids + [|it.order|], it.order + [x])
  }

  /** Interning `names` in order: each position gets the id of its name. */
  function Intern(names: seq<TextureName>): (r: Interned)
    ensures Valid(r) && |r.ids| == |names|
  {
    if names == [] then Interned(map[], [], [])
    else Add(Intern(names[..|names| - 1]), names[|names| - 1])
  }

  /** Interning one more name takes one `Add` step. */
  lemma InternAppend(names: seq<TextureName>, x: TextureName)
    ensures Intern(names + [x]) == Add(Intern(names), x)
  {
    assert (names + [x])[..|names|] == names;
  }

  /** Each position gets the id its name has in the table. */
  lemma {:induction false} InternAt(names: seq<TextureName>, i: nat)
    requires i < |names|
    ensures names[i] in Intern(names).table && Intern(names).ids[i] == Intern(names).table[names[i]]
  {
    var n := |names| - 1;
    var init := names[..n];
    if i < n {
      InternAt(init, i);
      assert init[i] == names[i];
    }
  }

  /** The table holds exactly the names met. */
  lemma {:induction false} InternKeys(names: seq<TextureName>, x: TextureName)
    ensures x in Intern(names).table <==> x in names
  {
    if names != [] {
      var n := |names| - 1;
      InternKeys(names[..n], x);
      if x in names && x != names[n] {
        var i :| 0 <= i < |names| && names[i] == x;
        assert names[..n][i] == x;
      }
    }
  }

  /** Ids follow first appearance: a name new at position `j` gets an id above every earlier id. */
  lemma {:induction false} InternOrder(names: seq<TextureName>, i: nat, j: nat)
    requires i < j < |names| && names[j] !in names[..j]
    ensures Intern(names).ids[i] < Intern(names).ids[j]
  {
    var n := |names| - 1;
    var init := names[..n];
    if j < n {
      PrefixOfPrefix(names, n, j);
      InternOrder(init, i, j);
    } else {
      InternKeys(init, names[n]);
      InternAt(init, i);
    }
  }

  /**
   * Turning the interning table around (`textures.into_iter().map(|(k, v)| (v, k)).collect()`):
   * the ids in use are exactly 0..k for the k names met, and id `i` names the `i`-th new name.
   */
  function Invert(table: map<TextureName, TextureId>, ghost order: seq<TextureName>): (r: map<TextureId, TextureName>)
    requires Inverse(table, order)
    ensures forall id :: id in r ==> id < |order|
    ensures forall id :: id in r ==> r[id] == order[id]
    ensures forall x :: x in table ==> table[x] in r && r[table[x]] == x
  {
    map x | x in table :: table[x] := x
  }

  /** Every id below the number of names met is in use. */
  lemma InvertKeys(table: map<TextureName, TextureId>, order: seq<TextureName>, id: nat)
    requires Inverse(table, order) && id < |order|
    ensures id in Invert(table, order)
  {
    var x := order[id];
    assert table[x] == id;
  }

  // ---------------------------------------------------------------------------------------------
  // The walk, one step at a time

  /** Entering an entity: it takes the next entity id, and its properties are recorded. */
  function EntityStep(et: EntityTables, properties: Properties): EntityTables {
    EntityTables(et.head + 1, et.ids + [et.head], et.properties[et.head := properties])
  }

  /** Entering a brush of entity `entityId`: it takes the next brush id and joins the entity's list. */
  function BrushStep(bt: BrushTables, entityId: EntityId): BrushTables {
    BrushTables(bt.head + 1, bt.ids + [bt.head], PushAt(bt.entityBrushes, entityId, bt.head))
  }

  /**
   * A plane of brush `brushId`: it takes the next face id, every per-face table gets its entry, and
   * the face joins the brush's list.
   */
  function FaceStep(ft: FaceTables, brushId: BrushId, bp: BrushPlane): FaceTables {
    var f := ft.head;
    FaceTables(f + 1, ft.ids + [f], PushAt(ft.brushFaces, brushId, f), ft.planes[f := bp.plane],
               ft.offsets[f := bp.textureOffset], ft.angles[f := bp.angle],
               ft.scales[f := Vector2(bp.scaleX, bp.scaleY)], ft.extensions[f := bp.extension])
  }

  /**
   * The texture `name` of face `faceId`: a name met before reuses its id; a new name is interned
   * under the next texture id. The face records the id.
   */
  function TextureStep(tt: TextureTables, faceId: FaceId, name: TextureName): TextureTables {
    if name in tt.names then TextureTables(tt.head, tt.names, tt.faceTextures[faceId := tt.names[name]])
    else TextureTables(tt.head + 1, tt.names[name := tt.head], tt.faceTextures[faceId := tt.head])
  }

  /** The entity tables after entering the entities `es` in turn. */
  ghost function EntitiesAfter(es: seq<Entity>): (r: EntityTables)
    ensures r.head == |es|
  {
    if es == [] then EntityTables(0, [], map[])
    else EntityStep(EntitiesAfter(es[..|es| - 1]), es[|es| - 1].properties)
  }

  /** The brush tables after entering brushes of the entities `bOwners` in turn. */
  ghost function BrushesAfter(bOwners: seq<EntityId>): (r: BrushTables)
    ensures r.head == |bOwners|
  {
    if bOwners == [] then BrushTables(0, [], map[])
    else BrushStep(BrushesAfter(bOwners[..|bOwners| - 1]), bOwners[|bOwners| - 1])
  }

  /** The face tables after adding the planes `ps`, of the brushes `pOwners`, in turn. */
  ghost function FacesAfter(ps: seq<BrushPlane>, pOwners: seq<BrushId>): (r: FaceTables)
    requires |pOwners| == |ps|
    ensures r.head == |ps|
  {
    if ps == [] then FaceTables(0, [], map[], map[], map[], map[], map[], map[])
    else FaceStep(FacesAfter(ps[..|ps| - 1], pOwners[..|ps| - 1]), pOwners[|ps| - 1], ps[|ps| - 1])
  }

  /** The texture tables after adding the planes `ps` in turn; plane `f` is face `f`. */
  ghost function TexturesAfter(ps: seq<BrushPlane>): TextureTables {
    if ps == [] then TextureTables(0, map[], map[])
    else TextureStep(TexturesAfter(ps[..|ps| - 1]), |ps| - 1, ps[|ps| - 1].texture)
  }

  /** Each walk specification takes one step per element. */
  lemma EntitiesAppend(es: seq<Entity>, e: Entity)
    ensures EntitiesAfter(es + [e]) == EntityStep(EntitiesAfter(es), e.properties)
  {
    assert (es + [e])[..|es|] == es;
  }

  lemma BrushesAppend(bOwners: seq<EntityId>, entityId: EntityId)
    ensures BrushesAfter(bOwners + [entityId]) == BrushStep(BrushesAfter(bOwners), entityId)
  {
    assert (bOwners + [entityId])[..|bOwners|] == bOwners;
  }

  lemma FacesAppend(ps: seq<BrushPlane>, pOwners: seq<BrushId>, bp: BrushPlane, brushId: BrushId)
    requires |pOwners| == |ps|
    ensures FacesAfter(ps + [bp], pOwners + [brushId]) == FaceStep(FacesAfter(ps, pOwners), brushId, bp)
  {
    assert (ps + [bp])[..|ps|] == ps;
    assert (pOwners + [brushId])[..|ps|] == pOwners;
  }

  lemma TexturesAppend(ps: seq<BrushPlane>, bp: BrushPlane)
    ensures TexturesAfter(ps + [bp]) == TextureStep(TexturesAfter(ps), |ps|, bp.texture)
  {
    assert (ps + [bp])[..|ps|] == ps;
  }

  /**
   * The entity tables in closed form: entity ids 0, 1, ... in order, and entity `e` holds the
   * properties of the `e`-th entity.
   */
  lemma {:induction false} EntitiesClosed(es: seq<Entity>)
    ensures EntitiesAfter(es) == EntityTables(|es|, Run(0, |es|), Table(Project(es, PropertiesOf)))
  {
    if es != [] {
      var n := |es| - 1;
      EntitiesClosed(es[..n]);
      RunAppend(0, n);
      assert es == es[..n] + [es[n]];
      ProjectAppend(es[..n], es[n], PropertiesOf);
      TableAppend(Project(es[..n], PropertiesOf), es[n].properties);
    }
  }

  /**
   * The brush tables in closed form: brush ids 0, 1, ... in order, and each entity lists the ids
   * of its brushes, in order.
   */
  lemma {:induction false} BrushesClosed(bOwners: seq<EntityId>)
    ensures BrushesAfter(bOwners) == BrushTables(|bOwners|, Run(0, |bOwners|), Group(bOwners))
  {
    if bOwners != [] {
      var n := |bOwners| - 1;
      BrushesClosed(bOwners[..n]);
      RunAppend(0, n);
      assert bOwners == bOwners[..n] + [bOwners[n]];
      GroupAppend(bOwners[..n], bOwners[n]);
    }
  }

  /** The face ids in closed form: 0, 1, ... in order, and each brush lists the ids of its faces. */
  lemma {:induction false} FaceIdsClosed(ps: seq<BrushPlane>, pOwners: seq<BrushId>)
    requires |pOwners| == |ps|
    ensures FacesAfter(ps, pOwners).ids == Run(0, |ps|)
    ensures FacesAfter(ps, pOwners).brushFaces == Group(pOwners)
  {
    if ps != [] {
      var n := |ps| - 1;
      FaceIdsClosed(ps[..n], pOwners[..n]);
      RunAppend(0, n);
      assert pOwners == pOwners[..n] + [pOwners[n]];
      GroupAppend(pOwners[..n], pOwners[n]);
    }
  }

  /** The per-face tables in closed form: face `f` holds what the `f`-th plane states. */
  lemma {:induction false} FaceColumnsClosed(ps: seq<BrushPlane>, pOwners: seq<BrushId>)
    requires |pOwners| == |ps|
    ensures var ft := FacesAfter(ps, pOwners);
            && ft.planes == Table(Project(ps, PlaneOf)) && ft.offsets == Table(Project(ps, OffsetOf))
            && ft.angles == Table(Project(ps, AngleOf)) && ft.scales == Table(Project(ps, ScaleOf))
            && ft.extensions == Table(Project(ps, ExtensionOf))
  {
    if ps != [] {
      var n := |ps| - 1;
      FaceColumnsClosed(ps[..n], pOwners[..n]);
      assert ps == ps[..n] + [ps[n]];
      FaceColumns(ps[..n], ps[n]);
    }
  }

  /**
   * The texture tables in closed form: the interning table of the planes' texture names, the
   * number of names met as the next id, and face `f` holds the id of the `f`-th plane's name.
   */
  lemma {:induction false} TexturesClosed(ps: seq<BrushPlane>)
    ensures var it := Intern(Project(ps, TextureOf));
            TexturesAfter(ps) == TextureTables(|it.order|, it.table, Table(it.ids))
  {
    if ps != [] {
      var n := |ps| - 1;
      var it := Intern(Project(ps[..n], TextureOf));
      TexturesClosed(ps[..n]);
      assert ps == ps[..n] + [ps[n]];
      ProjectAppend(ps[..n], ps[n], TextureOf);
      InternAppend(Project(ps[..n], TextureOf), ps[n].texture);
      TableAppend(it.ids, Add(it, ps[n].texture).ids[n]);
    }
  }

  /** Each per-face table of one more plane gains that plane's entry under the next face id. */
  lemma FaceColumns(ps: seq<BrushPlane>, bp: BrushPlane)
    ensures Table(Project(ps + [bp], PlaneOf)) == Table(Project(ps, PlaneOf))[|ps| := bp.plane]
    ensures Table(Project(ps + [bp], OffsetOf)) == Table(Project(ps, OffsetOf))[|ps| := bp.textureOffset]
    ensures Table(Project(ps + [bp], AngleOf)) == Table(Project(ps, AngleOf))[|ps| := bp.angle]
    ensures Table(Project(ps + [bp], ScaleOf)) == Table(Project(ps, ScaleOf))[|ps| := Vector2(bp.scaleX, bp.scaleY)]
    ensures Table(Project(ps + [bp], ExtensionOf)) == Table(Project(ps, ExtensionOf))[|ps| := bp.extension]
  {
    ProjectAppend(ps, bp, PlaneOf);
    TableAppend(Project(ps, PlaneOf), bp.plane);
    ProjectAppend(ps, bp, OffsetOf);
    TableAppend(Project(ps, OffsetOf), bp.textureOffset);
    ProjectAppend(ps, bp, AngleOf);
    TableAppend(Project(ps, AngleOf), bp.angle);
    ProjectAppend(ps, bp, ScaleOf);
    TableAppend(Project(ps, ScaleOf), Vector2(bp.scaleX, bp.scaleY));
    ProjectAppend(ps, bp, ExtensionOf);
    TableAppend(Project(ps, ExtensionOf), bp.extension);
  }

  /** The entities without brushes, in entity order (`point_entities`). */
  function PointEntities(entities: seq<EntityId>, entityBrushes: map<EntityId, seq<BrushId>>): (r: seq<EntityId>)
    ensures forall e :: e in r <==> e in entities && e !in entityBrushes
  {
    Filter(entities, Brushless(entityBrushes))
  }

  /** The test `point_entities` filters by: the entity has no brush list. */
  function Brushless(entityBrushes: map<EntityId, seq<BrushId>>): EntityId -> bool {
    e => e !in entityBrushes
  }

  /** Listing the point entities keeps the entities' order. */
  lemma PointEntitiesIncreasing(entities: seq<EntityId>, entityBrushes: map<EntityId, seq<BrushId>>)
    requires StrictlyIncreasing(entities)
    ensures StrictlyIncreasing(PointEntities(entities, entityBrushes))
  {
    FilterIncreasing(entities, Brushless(entityBrushes));
  }

  /** What `GeoMap::new` produces from the map `m`. */
  ghost function Output(m: seq<Entity>): GeoMap {
    var ps := AllPlanes(m);
    var it := Intern(Project(ps, TextureOf));
    var entityBrushes := Group(Owners(BrushLists(m)));
    GeoMap(Run(0, |m|), Run(0, |AllBrushes(m)|), Run(0, |ps|), Invert(it.table, it.order),
           Table(Project(m, PropertiesOf)), entityBrushes, PointEntities(Run(0, |m|), entityBrushes),
           Group(Owners(AllBrushes(m))), Table(Project(ps, PlaneOf)), Table(it.ids), Table(Project(ps, OffsetOf)),
           Table(Project(ps, AngleOf)), Table(Project(ps, ScaleOf)), Table(Project(ps, ExtensionOf)))
  }

  /**
   * `GeoMap::new`: walks entities, brushes and planes with running id counters and fills every
   * table; then lists the entities without brushes and turns the texture table around.
   */
  method New(m: seq<Entity>) returns (g: GeoMap)
    ensures g == Output(m)
  {
    var et := EntityTables(0, [], map[]);
    var bt := BrushTables(0, [], map[]);
    var ft := FaceTables(0, [], map[], map[], map[], map[], map[], map[]);
    var tt := TextureTables(0, map[], map[]);
    ghost var lists := BrushLists(m);
    ghost var done: seq<Brush> := [];
    ghost var bOwners: seq<EntityId> := [];
    for i := 0 to |m|
      invariant done == Concat(lists[..i]) && bOwners == Owners(lists[..i])
      invariant et == EntitiesAfter(m[..i]) && bt == BrushesAfter(bOwners)
      invariant ft == FacesAfter(Concat(done), Owners(done)) && tt == TexturesAfter(Concat(done))
    {
      var entityId := et.head;
      EntitiesAppend(m[..i], m[i]);
      PrefixSnoc(m, i);
      et := EntityStep(et, m[i].properties);
      bt, ft, tt := EnterBrushes(bt, ft, tt, entityId, m[i].brushes, bOwners, done);
      ConcatSnoc(lists, i);
      bOwners := bOwners + Repeat(i, |m[i].brushes|);
      done := done + m[i].brushes;
    }
    assert lists[..|m|] == lists && m[..|m|] == m;
    EntitiesClosed(m);
    BrushesClosed(bOwners);
    FaceIdsClosed(Concat(done), Owners(done));
    FaceColumnsClosed(Concat(done), Owners(done));
    TexturesClosed(Concat(done));
    g := GeoMap(et.ids, bt.ids, ft.ids, Invert(tt.names, Intern(Project(Concat(done), TextureOf)).order),
                et.properties, bt.entityBrushes, PointEntities(et.ids, bt.entityBrushes), ft.brushFaces, ft.planes,
                tt.faceTextures, ft.offsets, ft.angles, ft.scales, ft.extensions);
  }

  /**
   * The brushes `bs` of entity `entityId`, after the brushes `done`: each takes the next brush id and
   * joins the entity's list, and its planes are added in turn.
   */
  method EnterBrushes(bt: BrushTables, ft: FaceTables, tt: TextureTables, entityId: EntityId, bs: seq<Brush>,
                      ghost bOwners: seq<EntityId>, ghost done: seq<Brush>)
    returns (bt': BrushTables, ft': FaceTables, tt': TextureTables)
    requires |bOwners| == |done| && bt == BrushesAfter(bOwners)
    requires ft == FacesAfter(Concat(done), Owners(done)) && tt == TexturesAfter(Concat(done))
    ensures bt' == BrushesAfter(bOwners + Repeat(entityId, |bs|))
    ensures ft' == FacesAfter(Concat(done + bs), Owners(done + bs)) && tt' == TexturesAfter(Concat(done + bs))
  {
    bt', ft', tt' := bt, ft, tt;
    ghost var owners := bOwners;
    ghost var before := done;
    for j := 0 to |bs|
      invariant owners == bOwners + Repeat(entityId, j) && before == done + bs[..j] && |owners| == |before|
      invariant bt' == BrushesAfter(owners)
      invariant ft' == FacesAfter(Concat(before), Owners(before)) && tt' == TexturesAfter(Concat(before))
    {
      var brushId := bt'.head;
      BrushesAppend(owners, entityId);
      bt' := BrushStep(bt', entityId);
      ft', tt' := AddPlanes(ft', tt', brushId, bs[j], Concat(before), Owners(before));
      ConcatAppend(before, bs[j]);
      PrefixSnoc(bs, j);
      SnocAssoc(bOwners, Repeat(entityId, j), entityId);
      SnocAssoc(done, bs[..j], bs[j]);
      owners := owners + [entityId];
      before := before + [bs[j]];
    }
    assert bs[..|bs|] == bs;
  }

  /** The planes of brush `brushId`, after the planes `ps`: each becomes the next face. */
  method AddPlanes(ft: FaceTables, tt: TextureTables, brushId: BrushId, planes: seq<BrushPlane>,
                   ghost ps: seq<BrushPlane>, ghost pOwners: seq<BrushId>)
    returns (ft': FaceTables, tt': TextureTables)
    requires |pOwners| == |ps| && ft == FacesAfter(ps, pOwners) && tt == TexturesAfter(ps)
    ensures ft' == FacesAfter(ps + planes, pOwners + Repeat(brushId, |planes|)) && tt' == TexturesAfter(ps + planes)
  {
    ft', tt' := ft, tt;
    ghost var qs := ps;
    ghost var qOwners := pOwners;
    for p := 0 to |planes|
      invariant qs == ps + planes[..p] && qOwners == pOwners + Repeat(brushId, p) && |qOwners| == |qs|
      invariant ft' == FacesAfter(qs, qOwners) && tt' == TexturesAfter(qs)
    {
      var faceId := ft'.head;
      FacesAppend(qs, qOwners, planes[p], brushId);
      TexturesAppend(qs, planes[p]);
      ft' := FaceStep(ft', brushId, planes[p]);
      tt' := TextureStep(tt', faceId, planes[p].texture);
      PrefixSnoc(planes, p);
      SnocAssoc(ps, planes[..p], planes[p]);
      SnocAssoc(pOwners, Repeat(brushId, p), brushId);
      qs := qs + [planes[p]];
      qOwners := qOwners + [brushId];
    }
    assert planes[..|planes|] == planes;
  }

  // ---------------------------------------------------------------------------------------------
  // What `GeoMap::new` promises

  /** The brush lists of a prefix of the map are the prefix of the brush lists. */
  lemma BrushListsPrefix(m: seq<Entity>, e: nat)
    requires e <= |m|
    ensures BrushLists(m[..e]) == BrushLists(m)[..e]
  {
  }

  /** Entity ids are 0, 1, ... in map order, and entity `e` holds the properties of the `e`-th entity. */
  lemma EntityIds(m: seq<Entity>, e: nat)
    ensures |Output(m).entities| == |m| && (e < |m| ==> Output(m).entities[e] == e)
    ensures e in Output(m).entityProperties <==> e < |m|
    ensures e < |m| ==> Output(m).entityProperties[e] == m[e].properties
  {
    TableAt(Project(m, PropertiesOf), e);
  }

  /**
   * Brush ids run on across entities: entity `e` lists its brushes under the ids that follow those
   * of all earlier entities, in order, and an entity without brushes has no list.
   */
  lemma EntityBrushes(m: seq<Entity>, e: nat)
    ensures e in Output(m).entityBrushes <==> e < |m| && m[e].brushes != []
    ensures e in Output(m).entityBrushes ==> Output(m).entityBrushes[e] == Run(|AllBrushes(m[..e])|, |m[e].brushes|)
  {
    GroupOwners(BrushLists(m), e);
    if e < |m| {
      BrushListsPrefix(m, e);
    }
  }

  /** The brush with id `|AllBrushes(m[..e])| + j` is the `j`-th brush of entity `e`. */
  lemma BrushAt(m: seq<Entity>, e: nat, j: nat)
    requires e < |m| && j < |m[e].brushes|
    ensures |AllBrushes(m[..e])| + j < |Output(m).brushes|
    ensures AllBrushes(m)[|AllBrushes(m[..e])| + j] == m[e].brushes[j]
  {
    BrushInWalk(m, e, j);
    assert |Output(m).brushes| == |AllBrushes(m)|;
  }

  /** The walk lists entity `e`'s `j`-th brush after the brushes of all earlier entities. */
  lemma BrushInWalk(m: seq<Entity>, e: nat, j: nat)
    requires e < |m| && j < |m[e].brushes|
    ensures |AllBrushes(m[..e])| + j < |AllBrushes(m)|
    ensures AllBrushes(m)[|AllBrushes(m[..e])| + j] == m[e].brushes[j]
  {
    BrushListsPrefix(m, e);
    ConcatAt(BrushLists(m), e, j);
  }

  /**
   * Face ids run on across brushes: brush `b` lists its faces under the ids that follow those of
   * all earlier brushes, in order, and a brush without planes has an id but no list.
   */
  lemma BrushFaces(m: seq<Entity>, b: nat)
    ensures b in Output(m).brushFaces <==> b < |Output(m).brushes| && AllBrushes(m)[b] != []
    ensures b in Output(m).brushFaces ==> Output(m).brushFaces[b] == Run(|Concat(AllBrushes(m)[..b])|, |AllBrushes(m)[b]|)
  {
    GroupOwners(AllBrushes(m), b);
  }

  /** The face with id `|Concat(AllBrushes(m)[..b])| + j` is the `j`-th plane of brush `b`. */
  lemma FaceAt(m: seq<Entity>, b: nat, j: nat)
    requires b < |AllBrushes(m)| && j < |AllBrushes(m)[b]|
    ensures |Concat(AllBrushes(m)[..b])| + j < |Output(m).faces|
    ensures AllPlanes(m)[|Concat(AllBrushes(m)[..b])| + j] == AllBrushes(m)[b][j]
  {
    ConcatAt(AllBrushes(m), b, j);
  }

  /** Every face, and only a face, has an entry in each per-face table, holding what its plane states. */
  lemma FaceColumnsAt(m: seq<Entity>, f: nat)
    ensures var g := Output(m);
            && (f in g.facePlanes <==> f < |g.faces|) && (f in g.faceOffsets <==> f < |g.faces|)
            && (f in g.faceAngles <==> f < |g.faces|) && (f in g.faceScales <==> f < |g.faces|)
            && (f in g.faceExtensions <==> f < |g.faces|)
    ensures var g := Output(m);
            f < |g.faces| ==>
              && g.facePlanes[f] == AllPlanes(m)[f].plane && g.faceOffsets[f] == AllPlanes(m)[f].textureOffset
              && g.faceAngles[f] == AllPlanes(m)[f].angle
              && g.faceScales[f] == Vector2(AllPlanes(m)[f].scaleX, AllPlanes(m)[f].scaleY)
              && g.faceExtensions[f] == AllPlanes(m)[f].extension
  {
    var ps := AllPlanes(m);
    TableAt(Project(ps, PlaneOf), f);
    TableAt(Project(ps, OffsetOf), f);
    TableAt(Project(ps, AngleOf), f);
    TableAt(Project(ps, ScaleOf), f);
    TableAt(Project(ps, ExtensionOf), f);
  }

  /** Every face, and only a face, has a texture id, and that id names the texture of its plane. */
  lemma FaceTextureAt(m: seq<Entity>, f: nat)
    ensures f in Output(m).faceTextures <==> f < |Output(m).faces|
    ensures f < |Output(m).faces| ==>
              Output(m).faceTextures[f] in Output(m).textures
              && Output(m).textures[Output(m).faceTextures[f]] == AllPlanes(m)[f].texture
  {
    var names := Project(AllPlanes(m), TextureOf);
    TableAt(Intern(names).ids, f);
    if f < |names| {
      InternAt(names, f);
    }
  }

  /** Two faces share a texture id exactly when their planes name the same texture. */
  lemma SameTexture(m: seq<Entity>, f1: nat, f2: nat)
    requires f1 < |AllPlanes(m)| && f2 < |AllPlanes(m)|
    ensures f1 in Output(m).faceTextures && f2 in Output(m).faceTextures
    ensures Output(m).faceTextures[f1] == Output(m).faceTextures[f2] <==> AllPlanes(m)[f1].texture == AllPlanes(m)[f2].texture
  {
    FaceTextureAt(m, f1);
    FaceTextureAt(m, f2);
  }

  /** Texture ids follow first appearance: a face whose name is new gets an id above every earlier face's. */
  lemma TextureFirstAppearance(m: seq<Entity>, f1: nat, f2: nat)
    requires f1 < f2 < |AllPlanes(m)|
    requires forall f :: 0 <= f < f2 ==> AllPlanes(m)[f].texture != AllPlanes(m)[f2].texture
    ensures f1 in Output(m).faceTextures && f2 in Output(m).faceTextures
    ensures Output(m).faceTextures[f1] < Output(m).faceTextures[f2]
  {
    var names := Project(AllPlanes(m), TextureOf);
    FaceTextureAt(m, f1);
    FaceTextureAt(m, f2);
    TableAt(Intern(names).ids, f1);
    TableAt(Intern(names).ids, f2);
    assert names[f2] !in names[..f2] by {
      forall i | 0 <= i < f2 ensures names[..f2][i] != names[f2] {
        assert names[..f2][i] == AllPlanes(m)[i].texture;
      }
    }
    InternOrder(names, f1, f2);
  }

  /**
   * The texture table is a bijection from the ids 0 .. k - 1 onto the k distinct names of the
   * map's planes. First: its ids are exactly those below its size.
   */
  lemma TextureIdsDense(m: seq<Entity>, id: nat)
    ensures id in Output(m).textures <==> id < |Output(m).textures|
  {
    var it := Intern(Project(AllPlanes(m), TextureOf));
    var r := Invert(it.table, it.order);
    forall k: nat ensures k in r <==> k in Inversion.Below(|it.order|) {
      if k < |it.order| {
        InvertKeys(it.table, it.order, k);
      }
    }
    assert r.Keys == Inversion.Below(|it.order|);
  }

  /** No two texture ids name the same texture. */
  lemma TextureIdsDistinct(m: seq<Entity>, id1: nat, id2: nat)
    requires id1 in Output(m).textures && id2 in Output(m).textures
    ensures Output(m).textures[id1] == Output(m).textures[id2] <==> id1 == id2
  {
  }

  /** Every texture in the table is the texture of some face. */
  lemma TextureNamesUsed(m: seq<Entity>, id: nat)
    requires id in Output(m).textures
    ensures exists f :: 0 <= f < |AllPlanes(m)| && AllPlanes(m)[f].texture == Output(m).textures[id]
  {
    var names := Project(AllPlanes(m), TextureOf);
    var x := Output(m).textures[id];
    InternKeys(names, x);
    var f :| 0 <= f < |names| && names[f] == x;
  }

  /** The point entities are exactly the entities without brushes, in increasing id order. */
  lemma PointEntityList(m: seq<Entity>, e: nat)
    ensures e in Output(m).pointEntities <==> e < |m| && m[e].brushes == []
    ensures StrictlyIncreasing(Output(m).pointEntities)
  {
    EntityBrushes(m, e);
    RunMembership(0, |m|, e);
    RunIncreasing(0, |m|);
    PointEntitiesIncreasing(Run(0, |m|), Output(m).entityBrushes);
  }

  /** No brush is listed under two entities. */
  lemma BrushListsDisjoint(m: seq<Entity>)
    ensures Inversion.ListsDisjoint(Output(m).entityBrushes)
  {
    GroupDisjoint(Owners(BrushLists(m)));
  }

  /** No face is listed under two brushes. */
  lemma FaceListsDisjoint(m: seq<Entity>)
    ensures Inversion.ListsDisjoint(Output(m).brushFaces)
  {
    GroupDisjoint(Owners(AllBrushes(m)));
  }

  /** The face -> brush lookup of disjoint face lists, at one listed face. */
  lemma FaceLookupAt(brushFaces: map<BrushId, seq<FaceId>>, b: BrushId, f: FaceId)
    requires Inversion.ListsDisjoint(brushFaces) && b in brushFaces && f in brushFaces[b]
    ensures f in FaceBrushes.New(brushFaces).table && FaceBrushes.New(brushFaces).table[f] == b
  {
    FaceBrushes.ExactInverse(brushFaces);
  }

  /** The face -> brush lookup built on the loaded map finds, for each face, the brush that lists it. */
  lemma FaceLookupInverts(m: seq<Entity>)
    ensures forall b, f :: b in Output(m).brushFaces && f in Output(m).brushFaces[b] ==>
              f in FaceBrushes.New(Output(m).brushFaces).table && FaceBrushes.New(Output(m).brushFaces).table[f] == b
  {
    FaceListsDisjoint(m);
    forall b, f | b in Output(m).brushFaces && f in Output(m).brushFaces[b]
      ensures f in FaceBrushes.New(Output(m).brushFaces).table && FaceBrushes.New(Output(m).brushFaces).table[f] == b
    {
      FaceLookupAt(Output(m).brushFaces, b, f);
    }
  }

  /** The brush -> entity lookup built on the loaded map finds, for each brush, the entity that lists it. */
  lemma BrushLookupInverts(m: seq<Entity>)
    ensures forall e, b :: e in Output(m).entityBrushes && b in Output(m).entityBrushes[e] ==>
              b in BrushEntities.New(Output(m).entityBrushes).table && BrushEntities.New(Output(m).entityBrushes).table[b] == e
  {
    BrushListsDisjoint(m);
    BrushEntities.ExactInverse(Output(m).entityBrushes);
  }
}
