/**
 * The floating-point geometry under the bookkeeping layer, kept abstract.
 *
 * Positions, planes and the parser's plane records are opaque types. Every numeric
 * test the pipeline performs on them is a field of `Kernel`, handed to the operations
 * that use it, so no property proved here depends on how the tests are computed.
 */
module Geometry {
  import opened Wrappers

  /**
   * A 3D position (`nalgebra::Vector3<f32>`). Dafny's `==` on it is identity of the value; the
   * source's own comparison of positions is the kernel's `eq`.
   */
  type Vector3(==, !new)

  /** A plane in normal form (`Plane3d`). */
  type Plane3d(==, !new)

  /** A plane as the map file states it, by three points (`shalrath::repr::TrianglePlane`). */
  type TrianglePlane(==, !new)

  /** A solid as the list of its bounding planes (`ConvexHull`). */
  type ConvexHull = seq<Plane3d>

  /** The tolerance of every approximate comparison (`EPSILON` in src/lib.rs). */
  const EPSILON: real := 0.001

  datatype Kernel = Kernel(
    /** `(a - b).magnitude() < EPSILON` */
    near: (Vector3, Vector3) -> bool,
    /**
     * `a == b` on two positions: component-wise f32 equality, which is false whenever a
     * component is NaN, so it is not reflexive
     */
    eq: (Vector3, Vector3) -> bool,
    /** `ConvexHull::contains`: the point is on the inner side of every plane, within EPSILON */
    contains: (ConvexHull, Vector3) -> bool,
    /** `Plane3d::opposes`: back-to-back coincident planes */
    opposes: (Plane3d, Plane3d) -> bool,
    /** the signed triple product `n0 x n1 . n2` of three plane normals */
    denominator: (Plane3d, Plane3d, Plane3d) -> real,
    /** the cross-product solution of the three plane equations */
    solve: (Plane3d, Plane3d, Plane3d) -> Vector3,
    /** the collinearity and projection test that ends `point_in_line` (point, v0, v1) */
    onSegment: (Vector3, Vector3, Vector3) -> bool,
    /**
     * The `atan2` winding key of a vertex: the face's defining triangle, its plane, its centre
     * and the vertex. None stands for NaN, which compares with nothing.
     */
    angle: (TrianglePlane, Plane3d, Vector3, Vector3) -> Option<real>
  )

  /** `near` is a distance test, so it does not depend on the order of its arguments. */
  ghost predicate NearIsSymmetric(k: Kernel) {
    forall a, b :: k.near(a, b) == k.near(b, a)
  }

  /**
   * `opposes` compares the planes' normals by a dot product and their distances by sign and
   * absolute difference, so it does not depend on the order of its arguments.
   */
  ghost predicate OpposesIsSymmetric(k: Kernel) {
    forall p, q :: k.opposes(p, q) == k.opposes(q, p)
  }
}
