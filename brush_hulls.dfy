/**
 * Brush hulls (src/brush/brush_hulls.rs): each brush's convex hull as the planes of its faces,
 * in the order of the brush's face list.
 */
module BrushHulls {
  import opened Ids
  import opened Wrappers
  import opened Geometry

  /** Every face id of every brush has a plane; otherwise the indexing panics. */
  predicate Complete(brushPlanes: map<BrushId, seq<FaceId>>, geoPlanes: map<FaceId, Plane3d>) {
    forall b, f :: b in brushPlanes && f in brushPlanes[b] ==> f in geoPlanes
  }

  /** The planes of the faces `ids`, in order. */
  function Hull(ids: seq<FaceId>, geoPlanes: map<FaceId, Plane3d>): (h: ConvexHull)
    requires forall f :: f in ids ==> f in geoPlanes
    ensures |h| == |ids|
    ensures forall i :: 0 <= i < |ids| ==> h[i] == geoPlanes[ids[i]]
  {
    if ids == [] then [] else [geoPlanes[ids[0]]] + Hull(ids[1..], geoPlanes)
  }

  /** `brush_hulls`: one hull per brush. A face id without a plane is a failure (`None`). */
  function BrushHulls(brushPlanes: map<BrushId, seq<FaceId>>, geoPlanes: map<FaceId, Plane3d>)
    : (r: Option<map<BrushId, ConvexHull>>)
    ensures r.Some? <==> Complete(brushPlanes, geoPlanes)
    ensures r.Some? ==> r.value.Keys == brushPlanes.Keys
    ensures r.Some? ==> forall b :: b in r.value ==>
      |r.value[b]| == |brushPlanes[b]| && forall i :: 0 <= i < |brushPlanes[b]| ==> r.value[b][i] == geoPlanes[brushPlanes[b][i]]
  {
    if !Complete(brushPlanes, geoPlanes) then None
    else Some(map b | b in brushPlanes :: Hull(brushPlanes[b], geoPlanes))
  }
}
