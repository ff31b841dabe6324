# shambler: the id-keyed bookkeeping core, in Dafny

shambler turns a parsed Quake-style map (entities, their brushes, each brush a list of planes)
into the tables a mesh builder needs:
- consecutive entity, brush, face, line and texture ids;
- per-face vertices, winding orders, lines and triangle fans;
- lookups from lines to faces, faces to brushes and brushes to entities;
- line adjacency and the manifold split;
- the duplicate-face and duplicate-line relations;
- interior faces and brush-face containment;
- texture sizes.

This project models that combinatorial layer. The floating-point geometry underneath is a
parameter, the `Kernel` of module `Geometry`. Its fields (`near`, `eq`, `contains`, `opposes`,
`denominator`, `solve`, `onSegment`, `angle`) stand for the distance test, f32 `==` on positions,
`ConvexHull::contains`, `Plane3d::opposes`, the two halves of `triplanar_intersection`, the
collinearity test of `point_in_line` and the `atan2` angle key. Vectors and planes are opaque
types. Positions are compared only through `eq`, which is not assumed reflexive: a NaN position
(a map plane given by three collinear points has a NaN normal, and its intersections pass the
denominator and hull tests) compares equal to nothing, itself included.

Each source file is modelled in its own form:
- **Loops that mutate state are methods with loop invariants.** These are `GeoMap::new`,
  `FaceVertices::new`, `intersect_planes`, `dedup_by`, the in-place sort of `face_indices`, the
  three edge extractors, `FaceTriangleIndices::new`, `line_face_connections` and
  `manifold_lines`.
- **Each method is proved against a specification function,** and that function's properties
  are proved as lemmas.
- **Iterator pipelines are functions whose contracts state their result.** These are
  `brush_hulls`, the inversions, `face_duplicates`, `line_duplicates`, `interior_faces`,
  `brush_face_containment` and `texture_sizes`.
- **Ordered maps iterate in ascending key order** (`Ids.SortedKeys`), and rayon pipelines are
  read as ordered sequential iteration.
- **A lookup that panics in the source** (`map[&id]`, `.unwrap()`, a vector index) is either a
  `None` result or a precondition:
  - `None` where the failure is part of what the operation promises. This covers `brush_hulls`,
    `FaceVertices::new`, `face_indices`, `line_face_connections`, `face_duplicates`,
    `line_duplicates`, `interior_faces` and `brush_face_containment`.
  - A precondition on the pure accessors, `Index`.

Shared pieces:
- `Flatten` is the nested walk with running counters that the loader and the edge extractors
  use. `Concat` walks the lists, `Owners` records which list each id came from, and `Group` is
  the map built by `entry().or_default().push`.
- `Inversion` is the `flat_map`/`collect` inversion shared by `line_faces`, `FaceBrushes::new` and
  `BrushEntities::new`. When a key is listed twice, the later pair in the collect wins.
- `Seqs` holds the `entry().or_default()` updates on maps of lists and of maps.
- `FaceFaceLines` and `FaceTriangleIndices` each declare their own `Get` and `Index`. The two
  source types expose the same map lookups, so the two pairs are intentionally identical.

## Model

| member | source | states |
|---|---|---|
| GeoMap.New | src/geo_map.rs:69-174 | The loader's loops produce exactly `Output(m)`: the entity, brush, face and texture tables of the walk, then the point-entity filter and the inverted texture table (characterised by the lemmas below) |
| GeoMap.EnterBrushes | src/geo_map.rs:104-144 | Entering an entity's brushes gives each the next brush id, appends it to the entity's list, and adds every plane of those brushes to the face and texture tables, in order |
| GeoMap.AddPlanes | src/geo_map.rs:111-143 | Each plane of a brush becomes the next face, owned by that brush, in order |
| GeoMap.Add | src/geo_map.rs:127-134 | Interning one name keeps the name table and the first-appearance list inverse to each other; the name is then in the table, and its position records the id the table gives it (a known name keeps its id, a new name takes the next one) |
| GeoMap.Intern | src/geo_map.rs:127-134 | Interning a list of names yields a consistent table, with one id per position |
| GeoMap.InternAt | src/geo_map.rs:127-136 | Each face's texture id is the id its name has in the interning table |
| GeoMap.InternKeys | src/geo_map.rs:127-134 | The interning table holds exactly the names met |
| GeoMap.InternOrder | src/geo_map.rs:127-134 | A name new at position j gets an id above the id of every earlier position |
| GeoMap.Invert | src/geo_map.rs:153-156 | Turning the interning table around: every id is below the number of names met, id i names the i-th new name, and every interned name maps back to itself |
| GeoMap.InvertKeys | src/geo_map.rs:153-156 | Every id below the number of names met is in the inverted table |
| GeoMap.EntitiesClosed | src/geo_map.rs:93-102 | Entity ids are 0, 1, ... in map order, and entity e holds the properties of the e-th entity |
| GeoMap.BrushesClosed | src/geo_map.rs:104-109 | Brush ids are 0, 1, ... across all entities, and each entity lists the ids of its brushes in order |
| GeoMap.FaceIdsClosed | src/geo_map.rs:121-142 | Face ids are 0, 1, ... across all brushes, and each brush lists the ids of its faces in order |
| GeoMap.FaceColumnsClosed | src/geo_map.rs:125-141 | Each per-face table has face f hold what the f-th plane states |
| GeoMap.TexturesClosed | src/geo_map.rs:127-136 | The texture counter equals the number of distinct names met; face f records the interned id of the f-th plane's name |
| GeoMap.PointEntities | src/geo_map.rs:147-151 | An entity is listed exactly when it is in the entity list and has no brush list |
| GeoMap.PointEntitiesIncreasing | src/geo_map.rs:147-151 | The filter keeps the entities' ascending order |
| GeoMap.EntityIds | src/geo_map.rs:93-102 | The entity list has one id per entity, entity e has id e, and exactly the ids below the entity count have properties, those of the e-th entity |
| GeoMap.EntityBrushes | src/geo_map.rs:104-109 | An entity has a brush list exactly when it has brushes; the list is the run of consecutive brush ids after those of all earlier entities |
| GeoMap.BrushAt | src/geo_map.rs:104-108 | Brush id (brushes of earlier entities + j) is the j-th brush of entity e |
| GeoMap.BrushFaces | src/geo_map.rs:104-143 | A brush has a face list exactly when it has planes, so a brush without planes has an id but no list; the list is the run of face ids after those of all earlier brushes |
| GeoMap.FaceAt | src/geo_map.rs:111-124 | Face id (faces of earlier brushes + j) is the j-th plane of brush b |
| GeoMap.FaceColumnsAt | src/geo_map.rs:121-141 | Exactly the face ids have entries in the plane, offset, angle, scale and extension tables, holding the face's plane's fields (the scale as the vector of its two factors) |
| GeoMap.FaceTextureAt | src/geo_map.rs:127-136 | Exactly the face ids have a texture id, and the output texture table names the face's own texture under it |
| GeoMap.SameTexture | src/geo_map.rs:127-136 | Two faces get the same texture id if and only if their planes name the same texture |
| GeoMap.TextureFirstAppearance | src/geo_map.rs:127-134 | A face whose texture name is new gets an id above every earlier face's id |
| GeoMap.TextureIdsDense | src/geo_map.rs:153-156 | The output texture ids are exactly 0 .. k-1 for k textures |
| GeoMap.TextureIdsDistinct | src/geo_map.rs:153-156 | Two texture ids name the same texture only if they are the same id |
| GeoMap.TextureNamesUsed | src/geo_map.rs:153-156 | Every name in the output texture table is the texture of some face |
| GeoMap.PointEntityList | src/geo_map.rs:147-151 | Entity e is a point entity if and only if it exists and has no brushes; the list is strictly increasing |
| GeoMap.BrushListsDisjoint | src/geo_map.rs:104-109 | No brush id is listed under two entities |
| GeoMap.FaceListsDisjoint | src/geo_map.rs:121-142 | No face id is listed under two brushes |
| GeoMap.FaceLookupInverts | src/face/face_brushes.rs:11-18 | The face-to-brush lookup built on a loaded map maps every face back to the brush that lists it |
| GeoMap.BrushLookupInverts | src/brush/brush_entities.rs:9-16 | The brush-to-entity lookup built on a loaded map maps every brush back to the entity that lists it |
| Seqs.Filter | src/geo_map.rs:147-151 | Keeps exactly the elements that pass the test, in their order; the result is a subsequence |
| Seqs.FilterCounts | src/brush/brush_face_containment.rs:29-49 | A filter keeps every occurrence of an element that passes the test and no occurrence of any other |
| Seqs.PushAt | src/line/mod.rs:52 | `entry(k).or_default().push(v)`: only key k changes, gaining v at the end of its (possibly new) list |
| Seqs.ExtendAt | src/face/face_triangle_indices.rs:20-23 | `entry(k).or_default().extend(s)`: only key k changes, its (possibly new) list gaining s at the end |
| Seqs.InsertAt | src/face/face_lines.rs:22-25 | `entry(k).or_default().insert(id, v)`: only key k changes, its (possibly new) map gaining id |
| Ids.SortedKeys | src/line/mod.rs:36 | The iteration order of an ordered map holds exactly its keys, each once |
| Ids.SortedKeysIncreasing | src/line/mod.rs:36 | The iteration order of an ordered map is strictly ascending |
| BrushHulls.Hull | src/brush/brush_hulls.rs:17-20 | A hull has one plane per face id of the brush, the plane of that id, in the brush's order |
| BrushHulls.BrushHulls | src/brush/brush_hulls.rs:13-24 | Fails exactly when some face id has no plane; otherwise one hull per brush and no other keys, each with as many planes as the brush has ids, in id order |
| FaceVertices.TriplanarIntersection | src/face/face_vertices.rs:98-115 | No point exactly when the signed denominator is below EPSILON; otherwise the solved point |
| FaceVertices.NegativeDenominatorRejected | src/face/face_vertices.rs:103-107 | A non-positive denominator never yields a point, so negative denominators are rejected as well as near-zero ones |
| FaceVertices.Candidates | src/face/face_vertices.rs:28-34 | The candidates are exactly the plane ids in the brush's list, in ascending id order rather than list order |
| FaceVertices.IntersectRow | src/face/face_vertices.rs:87-93 | The inner loop keeps, in order, the vertex of each inner plane that meets p0 and p1 inside the hull |
| FaceVertices.IntersectPlanes | src/face/face_vertices.rs:78-96 | The double loop builds the grid of every ordered candidate pair, the outer plane varying slowest |
| FaceVertices.RowFacts | src/face/face_vertices.rs:87-92 | Every vertex of a row is kept for p0 and p1, and every inner plane that meets them inside the hull contributes |
| FaceVertices.GridBound | src/face/face_vertices.rs:86-94 | At most one vertex per ordered pair |
| FaceVertices.GridSound | src/face/face_vertices.rs:86-95 | Every kept entry has triple (p0, p1, p2), the intersection point as position, and a position inside the hull |
| FaceVertices.GridComplete | src/face/face_vertices.rs:86-95 | Every ordered candidate pair, p1 == p2 and p0 itself included, that meets inside the hull contributes its vertex |
| FaceVertices.DedupShape | src/face/face_vertices.rs:39 | De-duplication never lengthens and empties only the empty list; the last survivor is the last input or one whose position the last input compares equal to |
| FaceVertices.DedupSubsequence | src/face/face_vertices.rs:39 | The survivors are a subsequence of the input |
| FaceVertices.DedupNoAdjacent | src/face/face_vertices.rs:39 | No survivor's position compares equal (f32 `==`) to the previous survivor's |
| FaceVertices.DedupKeepsPositions | src/face/face_vertices.rs:39 | Every input vertex is kept, or a survivor has a position it compares equal to |
| FaceVertices.DedupKeepsIncomparable | src/face/face_vertices.rs:39 | A vertex whose position compares equal to nothing (NaN) always survives, since `lhs == rhs` is false for it |
| FaceVertices.DedupStep | src/face/face_vertices.rs:39 | One more input survives exactly when its position does not compare equal (f32 `==`, false on NaN) to the last survivor's, as `dedup_by`'s closure tests |
| FaceVertices.DedupInPlace | src/face/face_vertices.rs:39 | The in-place compaction, comparing positions with f32 `==`, leaves the de-duplicated list at the front of the array and returns its length |
| FaceVertices.DedupOne | src/face/face_vertices.rs:39 | One turn of the compaction moves the next input behind the survivors exactly when `dedup_by` keeps it, extending the de-duplicated prefix by one input |
| FaceVertices.Positions | src/face/face_vertices.rs:40 | The second half of `unzip`: the positions, in order |
| FaceVertices.Triples | src/face/face_vertices.rs:40 | The first half of `unzip`: the plane triples, in order |
| FaceVertices.FaceEntryOf | src/face/face_vertices.rs:37-39 | One face's vertices: intersect, then de-duplicate |
| FaceVertices.ExtendedStep | src/face/face_vertices.rs:36-43 | Processing one more face records its unzipped entry and leaves every other face unchanged |
| FaceVertices.AddBrush | src/face/face_vertices.rs:36-43 | Fails exactly when some face id of the brush has no plane; otherwise each face id of the list holds its unzipped entry, both tables gain exactly those faces, and every other face is unchanged |
| FaceVertices.New | src/face/face_vertices.rs:18-49 | Fails exactly when a brush lacks a hull or a face id lacks a plane; otherwise both tables have the same keys and equal-length lists per face, and each face listed by some brush holds the entry of the greatest brush that lists it |
| FaceVertices.Advance | src/face/face_vertices.rs:25-44 | Adding the next brush in ascending order keeps the "last writer wins" table invariant |
| FaceVertices.AdvanceAt | src/face/face_vertices.rs:25-44 | The same invariant, for one face |
| FaceVertices.WellFormedFromEntries | src/face/face_vertices.rs:36-42 | The built tables have the same keys and equal-length lists per face |
| FaceVertices.NewEntry | src/face/face_vertices.rs:25-44 | A face's entry comes from the greatest brush id that lists it, computed from that brush's list and hull |
| FaceVertices.UniqueOwner | src/face/face_vertices.rs:25-44 | When no face id is listed by two brushes, each face holds its own brush's entry |
| FaceVertices.EntryFacts | src/face/face_vertices.rs:36-42 | A face's entry: triples start with the face's id and name candidate planes, positions are where those planes meet inside the hull, and no position compares equal to the one before it |
| FaceVertices.EntryComplete | src/face/face_vertices.rs:38-40 | Every candidate pair meeting inside the hull is represented by a vertex at the same position or at one the meeting point compares equal to |
| FaceVertices.Len | src/face/face_vertices.rs:51-55 | The assertion fails exactly when the two tables differ in size; otherwise the number of faces |
| FaceVertices.Vertices | src/face/face_vertices.rs:58-60 | None for an absent face, else its positions |
| FaceVertices.VertexPlanes | src/face/face_vertices.rs:62-64 | None for an absent face, else its plane triples |
| FaceVertices.AccessorsAgree | src/face/face_vertices.rs:51-64 | On built tables, `len` never fails and both accessors agree face by face |
| FaceIndices.Compare | src/face/face_indices.rs:53-58 | Ascending angles for clockwise, descending for counter-clockwise; undefined angles compare Equal |
| FaceIndices.InOrderTransitive | src/face/face_indices.rs:53-58 | With defined angles the comparator is transitive |
| FaceIndices.Swap | src/face/face_indices.rs:40 | Exchanging two entries permutes the array |
| FaceIndices.Sink | src/face/face_indices.rs:40-59 | One insertion pass permutes the array and, with defined angles, extends the sorted prefix by one |
| FaceIndices.SortByAngle | src/face/face_indices.rs:40-59 | The sort permutes the indices and, when every angle is defined, leaves them in comparator order |
| FaceIndices.WindingOrder | src/face/face_indices.rs:39-59 | The result is a permutation of 0..n, sorted when every angle is defined |
| FaceIndices.Range | src/face/face_indices.rs:39 | `(0..n).collect()` |
| FaceIndices.RangeMembers | src/face/face_indices.rs:39 | 0..n holds exactly the indices below n |
| FaceIndices.PermutationFacts | src/face/face_indices.rs:39-40 | A permutation of 0..n has n entries and holds each index exactly once |
| FaceIndices.SortedMeaning | src/face/face_indices.rs:53-57 | Sorted means non-decreasing angle for clockwise, non-increasing for counter-clockwise |
| FaceIndices.SmallFaces | src/face/face_indices.rs:39 | Faces with 0 or 1 vertices get [] and [0] |
| FaceIndices.Angles | src/face/face_indices.rs:41-51 | One angle key per vertex, from the face's triangle, plane and centre |
| FaceIndices.WoundStep | src/face/face_indices.rs:27-62 | Adding one validly wound face keeps the table validly wound |
| FaceIndices.WindFace | src/face/face_indices.rs:29-60 | One face's winding is valid: a permutation of its indices, in angle order when defined |
| FaceIndices.FaceIndices | src/face/face_indices.rs:20-63 | Fails exactly when a face lacks its triangle, plane or centre; otherwise one entry per face of the vertex table, each validly wound |
| Lines.FaceEdgesShape | src/line/mod.rs:41-65 | Fewer than 2 indices give no lines; n >= 2 give n lines, line j from index j to index j+1 mod n |
| Lines.FaceEdgesParts | src/line/mod.rs:41-65 | Consecutive pairs, then the closing pair (last, first) |
| Lines.FaceEdgesCloseTheLoop | src/line/mod.rs:45-64 | Each line starts where the previous ends, and the last ends where the first starts |
| Lines.FaceEdgesUseFaceIndices | src/line/mod.rs:45-64 | Every endpoint index is one of the face's indices |
| Lines.FaceEdgesCount | src/line/mod.rs:36-65 | A face contributes n lines if n >= 2, else none |
| Lines.EmitLine | src/line/mod.rs:42-52 | One line takes the counter as its id, enters the table and is pushed to its face's list |
| Lines.EmitLoop | src/line/mod.rs:41-65 | A face's loop stores its lines under consecutive ids from the counter, and its list is exactly that run |
| Lines.EmitFace | src/line/mod.rs:36-66 | A face with fewer than 2 indices changes nothing; any other gets its loop |
| Lines.EmitAt | src/line/mod.rs:36-66 | One turn of the face loop extends the emission by the face's lines |
| Lines.EmitFaces | src/line/mod.rs:36-66 | The face loop stores the emission under positions and builds the run table |
| Lines.Lines | src/line/mod.rs:30-69 | `lines` returns the line table and the face-to-line-ids table |
| Lines.RunsComplete | src/line/mod.rs:36-66 | Visiting every face builds the face-to-line-ids table |
| Lines.FaceRunAt | src/line/mod.rs:42-65 | A face's ids start after the lines of all earlier faces |
| Lines.EmittedPrefix | src/line/mod.rs:31-66 | Emitting more faces keeps every earlier line in place |
| Lines.EmittedAt | src/line/mod.rs:42-65 | Line j of the face at position a has id (lines before a) + j |
| Lines.FaceLineTableKeys | src/line/mod.rs:36-39 | A face has a line list if and only if it has 2 or more indices |
| Lines.FaceLinesAreEdges | src/line/mod.rs:41-65 | A face with n >= 2 indices lists n ids in emission order; the j-th is a key of the line table holding line j of the face's loop |
| Lines.LineTableAt | src/line/mod.rs:45-64 | The line table holds the i-th emitted line under id i |
| Lines.LineTableKeys | src/line/mod.rs:31-56 | Line ids are exactly 0 .. total-1 |
| Lines.FaceLineBelowCount | src/line/mod.rs:45-65 | Every listed id is a key of the line table |
| Lines.RunsDisjoint | src/line/mod.rs:42-65 | The id runs of two faces do not overlap |
| Lines.LineOwnedOnce | src/line/mod.rs:45-65 | Every line id is listed under exactly one face |
| Lines.LineEq | src/line/mod.rs:71-79 | `line_eq`: true exactly when line b, taken in one of its two orientations, has each endpoint near the corresponding endpoint of line a |
| Lines.LineEqOrientation | src/line/mod.rs:71-79 | Reversing either line does not change `line_eq` |
| Lines.LineEqSymmetric | src/line/mod.rs:71-79 | With a symmetric distance test, `line_eq` does not depend on which line comes first |
| Lines.PointInLine | src/line/mod.rs:81-107 | True when the point compares equal (f32 `==`) to either endpoint; otherwise false when the endpoints compare equal; otherwise the kernel's segment test |
| LineFaceLines.PushLine | src/line/face_lines.rs:27-38 | One line takes the counter as its id, which is pushed to the flat list and the face's list and recorded with its index pair |
| LineFaceLines.NewLoop | src/line/face_lines.rs:26-52 | A face's loop appends a run of n consecutive ids and records each line's index pair |
| LineFaceLines.NewFace | src/line/face_lines.rs:21-53 | A face with fewer than 2 indices is skipped; any other gets its loop |
| LineFaceLines.NewAt | src/line/face_lines.rs:21-53 | One turn of the face loop extends the emission by the face's lines |
| LineFaceLines.NewIn | src/line/face_lines.rs:21-53 | The face loop builds the flat list, the run table and the index-pair table of the emission |
| LineFaceLines.New | src/line/face_lines.rs:15-60 | The flat list is 0 .. total-1, the face lists are those of `lines`, and the index pairs are those of its lines |
| LineFaceLines.AgreesWithLines | src/line/face_lines.rs:32-52 | Same ids as the line table of `lines`, each with the pair of that line |
| LineFaceLines.ListedOnce | src/line/face_lines.rs:16-46 | The flat list lists each id once, and its ids are exactly the keys of the index-pair table |
| FaceFaceLines.InsertLine | src/face/face_lines.rs:22-27 | One insertion adds the face's next line under the next id |
| FaceFaceLines.NewLoop | src/face/face_lines.rs:21-34 | A face's map holds its loop's lines keyed by consecutive ids from the counter |
| FaceFaceLines.NewFace | src/face/face_lines.rs:16-35 | A face with fewer than 2 indices is skipped; any other gets its loop |
| FaceFaceLines.NewAt | src/face/face_lines.rs:16-35 | One turn of the face loop adds the face's nested map |
| FaceFaceLines.NewIn | src/face/face_lines.rs:16-35 | The face loop builds the nested view of the run table |
| FaceFaceLines.New | src/face/face_lines.rs:12-37 | `FaceLines::new` builds the nested view of the face-to-line-ids table of `lines` |
| FaceFaceLines.Get | src/face/face_lines.rs:39-41 | None exactly for a face without lines |
| FaceFaceLines.Index | src/face/face_lines.rs:47-49 | Defined only for a face with lines, agreeing with `get` |
| FaceFaceLines.GetSkipped | src/face/face_lines.rs:17-41 | `get` finds a face if and only if it has 2 or more indices |
| FaceFaceLines.FaceLineTableRun | src/face/face_lines.rs:13-34 | Each face's ids are a contiguous run of n ids |
| FaceFaceLines.SameIds | src/face/face_lines.rs:21-34 | A face's map has exactly the ids `lines` lists for it |
| FaceFaceLines.NestedPosition | src/face/face_lines.rs:21-34 | An id in a face's map is the face's j-th id, keyed to line j of its loop |
| FaceFaceLines.AgreesWithLines | src/face/face_lines.rs:21-34 | Each id maps to the line the line table of `lines` stores under it |
| FaceFaceLines.RangesDisjoint | src/face/face_lines.rs:25-34 | Two faces' id ranges are disjoint |
| FaceTriangleIndices.FanUpTo | src/face/face_triangle_indices.rs:19-24 | m triangles give 3m entries, triangle j being (ix[0], ix[j+1], ix[j+2]) |
| FaceTriangleIndices.FanShape | src/face/face_triangle_indices.rs:19-24 | A face with n >= 3 indices yields 3(n-2) entries forming the fan from its first index |
| FaceTriangleIndices.FanUsesFaceIndices | src/face/face_triangle_indices.rs:23 | Every entry is one of the face's indices |
| FaceTriangleIndices.TriangleTable | src/face/face_triangle_indices.rs:14-25 | Exactly the faces with 3 or more indices have a fan |
| FaceTriangleIndices.ExtendTriangle | src/face/face_triangle_indices.rs:20-23 | One triangle extends the face's list, which the first creates |
| FaceTriangleIndices.NewFace | src/face/face_triangle_indices.rs:15-24 | A face with fewer than 3 indices is skipped; any other gets its fan |
| FaceTriangleIndices.FansOfStep | src/face/face_triangle_indices.rs:14-25 | Visiting one more face adds its fan, or nothing when it is skipped |
| FaceTriangleIndices.New | src/face/face_triangle_indices.rs:12-27 | The table built is the fan table |
| FaceTriangleIndices.Get | src/face/face_triangle_indices.rs:29-31 | None exactly for a face without a fan |
| FaceTriangleIndices.Index | src/face/face_triangle_indices.rs:37-39 | Defined only for a face with a fan, agreeing with `get` |
| FaceTriangleIndices.GetSkipped | src/face/face_triangle_indices.rs:15-17 | `get` misses exactly the faces with fewer than 3 indices |
| Inversion.Invert | src/line/line_faces.rs:15-18 | Keys are exactly the listed ids; each maps to an owner that lists it, the greatest such |
| Inversion.InvertFromOwners | src/line/line_faces.rs:15-18 | The collect over owners in ascending order: listed ids are keys, and the last writer wins |
| Inversion.ExactInverse | src/line/line_faces.rs:15-18 | With disjoint lists, every listed id maps back to its owner |
| Inversion.InvertSize | src/line/line_faces.rs:15-18 | With disjoint, duplicate-free lists, one entry per listed id |
| Inversion.InverseOfRange | src/line/line_faces.rs:15-18 | When the lists cover exactly 0..n-1, the keys are exactly 0..n-1 |
| LineFaces.LineFaces | src/line/line_faces.rs:14-19 | Keys are exactly the union of the faces' lists; each line maps to a face that lists it (the greatest) |
| LineFaces.ExactInverse | src/line/line_faces.rs:14-19 | With unique line ids, every line maps to its face |
| LineFaces.FaceLinesDisjoint | src/line/mod.rs:42-65 | The lists of `lines` never share an id |
| LineFaces.FaceLinesRange | src/line/mod.rs:31-65 | The lists of `lines` list exactly the ids below the line count |
| LineFaces.InvertsLines | src/line/line_faces.rs:14-19 | On the output of `lines` the lookup is the exact inverse, with keys 0 .. total-1 and size equal to the line count |
| FaceBrushes.New | src/face/face_brushes.rs:11-18 | Keys are exactly the union of the brushes' lists; each face maps to a brush that lists it (the greatest) |
| FaceBrushes.ExactInverse | src/face/face_brushes.rs:11-18 | With unique face ids, every face maps to its brush |
| FaceBrushes.Size | src/face/face_brushes.rs:11-18 | With unique face ids, the size is the total face count |
| BrushEntities.New | src/brush/brush_entities.rs:9-16 | Keys are exactly the union of the entities' lists; each brush maps to an entity that lists it (the greatest) |
| BrushEntities.ExactInverse | src/brush/brush_entities.rs:9-16 | With unique brush ids, every brush maps to its entity |
| BrushEntities.Size | src/brush/brush_entities.rs:9-16 | With unique brush ids, the size is the total brush count |
| LineFaceConnections.Match | src/line/line_face_connections.rs:54-61 | The match test (either line contains both endpoints of the other, by `point_in_line`): two lines whose endpoints compare equal (f32 `==`), in the same or the reversed order, always match |
| LineFaceConnections.MatchSymmetric | src/line/line_face_connections.rs:54-61 | The match test is symmetric in the two lines |
| LineFaceConnections.Matches | src/line/line_face_connections.rs:34-61 | The other lines a line matches |
| LineFaceConnections.Connections | src/line/line_face_connections.rs:16-75 | Every line is a key holding its own face; a match connects both lines' faces; nothing else is ever inserted |
| LineFaceConnections.InsertAt | src/line/line_face_connections.rs:24-27 | `entry(x).or_default().insert(f)` on a table of sets |
| LineFaceConnections.EnterLhs | src/line/line_face_connections.rs:24-27 | Entering the left-hand line's own face |
| LineFaceConnections.SkipSelf | src/line/line_face_connections.rs:35-37 | Comparing a line with itself is skipped and changes nothing |
| LineFaceConnections.CompareStep | src/line/line_face_connections.rs:40-73 | One comparison enters the right-hand face and, on a match, each face for the other line |
| LineFaceConnections.CompareOne | src/line/line_face_connections.rs:40-73 | One right-hand line: fails exactly when its lookups fail, otherwise the comparison step |
| LineFaceConnections.CompareWithAll | src/line/line_face_connections.rs:34-74 | The right-hand loop compares the left-hand line with every other line |
| LineFaceConnections.CompareLhs | src/line/line_face_connections.rs:19-74 | One left-hand line: enter its face, run the right-hand loop, finish it |
| LineFaceConnections.AllDone | src/line/line_face_connections.rs:19-75 | Once every line is finished, the table is the connection table |
| LineFaceConnections.New | src/line/line_face_connections.rs:11-78 | Fails exactly when some line's face, vertices or endpoint is missing; otherwise the connection table |
| ManifoldLines.Split | src/line/manifold_lines.rs:13-29 | Every key lands in exactly one set: non-manifold if and only if more than 2 faces, manifold if and only if at most 2 (0 or 1 included); absent lines in neither |
| FaceDuplicates.NearCount | src/face/face_duplicates.rs:49-61 | The near count of one vertex is at most the other face's vertex count |
| FaceDuplicates.PairCount | src/face/face_duplicates.rs:49-61 | The count over all n x n combinations is at most n x n |
| FaceDuplicates.PairCountSymmetric | src/face/face_duplicates.rs:49-61 | With a symmetric distance test, the count does not depend on which face is first |
| FaceDuplicates.FaceDuplicates | src/face/face_duplicates.rs:14-73 | Fails exactly when a face lacks a plane or vertices; otherwise a pair is recorded exactly when one order passes the test; the relation is symmetric and irreflexive |
| FaceDuplicates.OnlyOpposing | src/face/face_duplicates.rs:31-44 | Recorded faces are distinct, opposing, and have equal vertex counts |
| FaceDuplicates.RecordedIff | src/face/face_duplicates.rs:19-68 | With symmetric `near` and `opposes`, a pair is recorded exactly when it passes the test as (a, b) |
| FaceDuplicates.EmptyFacesDuplicate | src/face/face_duplicates.rs:46-65 | Two distinct opposing faces without vertices are duplicates, since a count of 0 equals 0 |
| FaceDuplicates.CountAdmitsUnmatchedVertex | src/face/face_duplicates.rs:46-65 | The count test records two 2-vertex faces where one vertex is near both vertices of the other face and the other vertex is near neither, even with a symmetric distance test |
| LineDuplicates.Slots | src/line/line_duplicates.rs:23-73 | The compared lines: those of faces of listed brushes that are not duplicated first faces |
| LineDuplicates.LineDuplicates | src/line/line_duplicates.rs:15-99 | Fails exactly when a lookup fails; otherwise (a, b) is recorded exactly when the lines match in either order |
| LineDuplicates.Symmetric | src/line/line_duplicates.rs:80-84 | The relation is symmetric |
| LineDuplicates.RecordedFrom | src/line/line_duplicates.rs:47-62 | A recorded pair comes from faces of different brushes, neither a duplicated first face |
| LineDuplicates.RecordedIff | src/line/line_duplicates.rs:40-80 | With a symmetric distance test, a pair is recorded exactly when `line_eq` holds for it |
| InteriorFaces.Connected | src/face/interior_faces.rs:35-44 | The count never exceeds the line count, and equals it exactly when every line is a duplicated first line |
| InteriorFaces.InteriorFaces | src/face/interior_faces.rs:13-56 | Fails exactly when a lookup fails; otherwise a face is reported exactly when it belongs to a listed brush, is not a duplicated first face, and all its lines are duplicated first lines |
| InteriorFaces.EdgeCases | src/face/interior_faces.rs:29-50 | A duplicated first face is never reported; a candidate without lines always is |
| BrushFaceContainment.BrushFaceContainment | src/brush/brush_face_containment.rs:14-53 | Fails exactly when a lookup fails; otherwise one key per listed brush, listing exactly the foreign faces whose vertices are all inside its hull, in the order of the face list, each as often as it occurs in the face list |
| BrushFaceContainment.Contained | src/brush/brush_face_containment.rs:29-49 | One brush's list: exactly the listed foreign faces whose vertices are all inside the hull, a subsequence of the face list, each face as often as the face list holds it |
| BrushFaceContainment.EmptyFaceListed | src/brush/brush_face_containment.rs:39-47 | A foreign face without vertices is always listed |
| TextureSizes.TextureSizes | src/texture/texture_sizes.rs:12-26 | Keys are the texture ids whose name has a size, with that size; unknown names are dropped |
| TextureSizes.Monotone | src/texture/texture_sizes.rs:19-23 | A name without a size is absent; adding a size never removes or changes an entry |
| Wrappers.Get | src/face/face_vertices.rs:58-60 | `BTreeMap::get`: None exactly for an absent key |

## Left out

- Floating-point geometry is the `Kernel` parameter, with no arithmetic facts about it. This
  covers the plane and hull tests, the cross/dot arithmetic of `triplanar_intersection`, the
  magnitude tests of `line_eq` and `point_in_line`, f32 `==` on positions, and `atan2`. Where a
  proof needs `near` or `opposes` to be symmetric, that is stated as a hypothesis
  (`NearIsSymmetric`, `OpposesIsSymmetric`).
- `point_in_line` after its early exits is the kernel's `onSegment` test.
- rayon parallelism is read as ordered sequential iteration.
- src/face/face_face_containment.rs and the float-only derived tables (normals, UVs, tangents,
  centres, face planes) are not part of this model.
- The parser's records (properties, texture offsets, extensions, triangle planes) are opaque
  payloads. Texture names are an opaque type with equality, because the loader only interns and
  compares them. The `f32` angle and scale fields are `real`, since they are only copied.
- The id newtypes and their `Display` impls are plain `nat` synonyms. Module wiring is not
  modelled.
- The test at src/line/mod.rs:114-125 only prints and asserts nothing, so nothing models it.
- GeoMap.New: its local tables are grouped into four records, one per counter (entity, brush,
  face, texture). The method updates the records in its loops.
- src/face/face_lines.rs builds lines with a tuple-struct constructor, but the `Line` of
  src/line/mod.rs:21-25 has named fields. The model uses one line type (a pair of indices) for
  both extractors.
- src/line/face_lines.rs is not declared in src/line/mod.rs:1-5, so it is never compiled. It is
  modelled all the same, as `LineFaceLines`.
- FaceIndices.SortByAngle: `sort_unstable_by` is modelled as an insertion sort by adjacent swaps.
  The contract promises only what any sort by that comparator gives: a permutation, sorted when
  every angle is defined. It does not say which of several equal-key orders the library picks.
- FaceIndices.WindingOrder: when some angle is undefined, the comparator is not a total order.
  The contract then promises only a permutation, because the order depends on the sort
  algorithm. This assumes a toolchain before Rust 1.81: from 1.81 on, `sort_unstable_by` may
  panic on a comparator that is not a total order, and the model does not capture that panic.
- FaceVertices.New: `FaceVertices` has no `Index` impl and no iterators in the model. The
  `iter_vertices` and `iter_vertex_planes` accessors only expose the tables, which are fields of
  the result.
- A panic is either a `None` result or a precondition (`Index`, `Hull`, the `Slots` helpers).
  Which lookups must succeed is stated by each module's `Complete` or `Resolvable` predicate.
- Where the documentation and the code disagree, the model follows the code:
  - `triplanar_intersection` tests the signed denominator, `denom < EPSILON`, not its absolute
    value. Negative denominators are therefore rejected (`NegativeDenominatorRejected`).
  - `interior_faces` is not a flood fill. It reports the candidates whose lines are all
    duplicated first lines.
  - `face_duplicates` also compares two faces of the same brush.
  - `face_duplicates` is documented as finding opposing faces "that share the same set of
    vertices". The code only checks that the number of near (vertex, vertex) combinations equals
    the vertex count. That does not force every vertex of one face to be near a vertex of the
    other (`CountAdmitsUnmatchedVertex`). The model records exactly what the count test accepts.
