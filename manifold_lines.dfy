/**
 * The manifold / non-manifold split of the lines (src/line/manifold_lines.rs): a line whose
 * connection set holds more than two faces is non-manifold, every other line is manifold.
 */
module ManifoldLines {
  import opened Ids

  /** A line of the connection table is non-manifold when it connects more than two faces. */
  predicate NonManifold(conn: map<LineId, set<FaceId>>, l: LineId)
    requires l in conn
  {
    |conn[l]| > 2
  }

  /**
   * `manifold_lines`: the lines are visited in ascending id order and each lands in exactly one
   * of the two sets, non-manifold when its set has more than two faces and manifold otherwise
   * (also for sets of zero or one face). Lines absent from the table land in neither.
   */
  method Split(conn: map<LineId, set<FaceId>>) returns (manifold: set<LineId>, nonManifold: set<LineId>)
    ensures manifold !! nonManifold && manifold + nonManifold == conn.Keys
    ensures forall l :: l in nonManifold <==> l in conn && NonManifold(conn, l)
    ensures forall l :: l in manifold <==> l in conn && |conn[l]| <= 2
  {
    manifold, nonManifold := {}, {};
    var remaining := conn.Keys;
    ghost var visited: set<LineId> := {};
    while remaining != {}
      invariant remaining !! visited && remaining + visited == conn.Keys
      invariant manifold !! nonManifold && manifold + nonManifold == visited
      invariant forall l :: l in nonManifold <==> l in visited && NonManifold(conn, l)
      invariant forall l :: l in manifold <==> l in visited && |conn[l]| <= 2
      decreases remaining
    {
      LeastExists(remaining);
      var line :| IsLeast(line, remaining);
      var faces := conn[line];
      if |faces| > 2 {
        nonManifold := nonManifold + {line};
      } else {
        manifold := manifold + {line};
      }
      remaining := remaining - {line};
      visited := visited + {line};
    }
  }
}
