/**
 * The line -> connected faces table (src/line/line_face_connections.rs): every line is
 * connected to its own face, and two different lines whose endpoints lie on each other connect
 * each one to the other's face.
 */
module LineFaceConnections {
  import opened Ids
  import opened Wrappers
  import opened Geometry
  import Lines

  /** The tables the connection pass reads: the lines, the face of each line, the face vertices. */
  datatype Input = Input(
    k: Kernel,
    lines: map<LineId, Lines.Line>,
    lineFaces: map<LineId, FaceId>,
    faceVertices: map<FaceId, seq<Vector3>>
  )

  /** Every lookup the pass makes for line `x` succeeds: its face, and both of its endpoints. */
  predicate Resolvable(s: Input, x: LineId) {
    x in s.lines && x in s.lineFaces && s.lineFaces[x] in s.faceVertices
    && s.lines[x].i0 < |s.faceVertices[s.lineFaces[x]]|
    && s.lines[x].i1 < |s.faceVertices[s.lineFaces[x]]|
  }

  function V0(s: Input, x: LineId): Vector3
    requires Resolvable(s, x)
  {
    s.faceVertices[s.lineFaces[x]][s.lines[x].i0]
  }

  function V1(s: Input, x: LineId): Vector3
    requires Resolvable(s, x)
  {
    s.faceVertices[s.lineFaces[x]][s.lines[x].i1]
  }

  /** Line `a` contains both endpoints of line `b`. */
  predicate Contains(s: Input, a: LineId, b: LineId)
    requires Resolvable(s, a) && Resolvable(s, b)
  {
    Lines.PointInLine(s.k, V0(s, b), V0(s, a), V1(s, a)) && Lines.PointInLine(s.k, V1(s, b), V0(s, a), V1(s, a))
  }

  /**
   * The match test of the pass: either line contains both endpoints of the other. Two lines whose
   * endpoints compare equal (f32 `==`), in either order, always match, through the equality exits
   * of `point_in_line`; endpoints with a NaN component compare equal to nothing.
   */
  predicate Match(s: Input, a: LineId, b: LineId): (r: bool)
    requires Resolvable(s, a) && Resolvable(s, b)
    ensures s.k.eq(V0(s, b), V0(s, a)) && s.k.eq(V1(s, b), V1(s, a)) ==> r
    ensures s.k.eq(V0(s, b), V1(s, a)) && s.k.eq(V1(s, b), V0(s, a)) ==> r
  {
    Contains(s, a, b) || Contains(s, b, a)
  }

  /** The match test does not depend on which line is the left-hand one. */
  lemma {:induction false} MatchSymmetric(s: Input, a: LineId, b: LineId)
    requires Resolvable(s, a) && Resolvable(s, b)
    ensures Match(s, a, b) == Match(s, b, a)
  {
  }

  /** Every line of the table can be resolved. */
  predicate AllResolvable(s: Input) {
    forall x :: x in s.lines ==> Resolvable(s, x)
  }

  /** The other lines that line `x` matches. */
  function Matches(s: Input, x: LineId): (r: set<LineId>)
    requires AllResolvable(s) && x in s.lines
    ensures forall y :: y in r <==> y in s.lines && y != x && Match(s, x, y)
  {
    set y | y in s.lines && y != x && Match(s, x, y)
  }

  /**
   * The connection table: each line's own face and the face of every other line it matches, and
   * nothing else; a match connects both lines.
   */
  function Connections(s: Input): (r: map<LineId, set<FaceId>>)
    requires AllResolvable(s)
    ensures r.Keys == s.lines.Keys
    ensures forall x :: x in r ==> s.lineFaces[x] in r[x]
    ensures forall x, y :: x in r && y in r && x != y && Match(s, x, y) ==>
      s.lineFaces[y] in r[x] && s.lineFaces[x] in r[y]
    ensures forall x, f :: x in r && f in r[x] ==>
      f == s.lineFaces[x] || exists y :: y in Matches(s, x) && s.lineFaces[y] == f
  {
    map x | x in s.lines :: Image(s.lineFaces, {x} + Matches(s, x))
  }

  /** The match test as a relation on all line ids; unresolvable lines match nothing. */
  predicate Matched(s: Input, a: LineId, b: LineId) {
    Resolvable(s, a) && Resolvable(s, b) && Match(s, a, b)
  }

  /** The matching ordered pairs of lines. */
  function MatchPairs(s: Input): (r: set<(LineId, LineId)>)
    ensures forall a: LineId, b: LineId :: (a, b) in r <==> a in s.lines && b in s.lines && Matched(s, a, b)
  {
    set a, b | a in s.lines && b in s.lines && Matched(s, a, b) :: (a, b)
  }

  /** The faces of the lines `ys`. */
  function Image(faces: map<LineId, FaceId>, ys: set<LineId>): set<FaceId>
    requires ys <= faces.Keys
  {
    set y | y in ys :: faces[y]
  }

  lemma {:induction false} ImageAdd(faces: map<LineId, FaceId>, ys: set<LineId>, y: LineId)
    requires ys <= faces.Keys && y in faces
    ensures Image(faces, ys + {y}) == Image(faces, ys) + {faces[y]}
  {
  }

  /**
   * Line `x` itself and the entered lines `y` it was compared with and matched. The pair has been
   * compared when one of the two is a finished left-hand line (in `done`), or when one is the
   * current left-hand line `lhs` and the other is among its right-hand lines `rhs` so far.
   */
  function Seen(ms: set<(LineId, LineId)>, keys: set<LineId>, done: set<LineId>, lhs: LineId, rhs: set<LineId>,
                x: LineId): set<LineId>
  {
    {x} + set y | y in keys && y != x && (x, y) in ms
                  && (x in done || y in done || (x == lhs && y in rhs) || (y == lhs && x in rhs))
  }

  /**
   * The table after the lines `keys` have been entered and the covered pairs compared, for the
   * line -> face table `faces` and the matching pairs `ms`.
   */
  function Partial(faces: map<LineId, FaceId>, ms: set<(LineId, LineId)>, keys: set<LineId>,
                   done: set<LineId>, lhs: LineId, rhs: set<LineId>): map<LineId, set<FaceId>>
    requires keys <= faces.Keys
  {
    map x | x in keys :: Image(faces, Seen(ms, keys, done, lhs, rhs, x))
  }

  /** `entry(x).or_default().insert(f)` on a table of sets. */
  function InsertAt(m: map<LineId, set<FaceId>>, x: LineId, f: FaceId): (r: map<LineId, set<FaceId>>)
    ensures r.Keys == m.Keys + {x}
    ensures r[x] == (if x in m then m[x] else {}) + {f}
    ensures forall j :: j in m && j != x ==> r[j] == m[j]
  {
    m[x := (if x in m then m[x] else {}) + {f}]
  }

  /** Entering the left-hand line: on the first one the table is created, later it is a no-op. */
  lemma {:induction false} EnterLhs(faces: map<LineId, FaceId>, ms: set<(LineId, LineId)>, keys: set<LineId>,
                                    done: set<LineId>, lhs: LineId)
    requires keys <= faces.Keys && lhs in faces
    requires keys == {} || lhs in keys
    ensures InsertAt(Partial(faces, ms, keys, done, lhs, {}), lhs, faces[lhs]) == Partial(faces, ms, keys + {lhs}, done, lhs, {})
  {
    var p := InsertAt(Partial(faces, ms, keys, done, lhs, {}), lhs, faces[lhs]);
    var q := Partial(faces, ms, keys + {lhs}, done, lhs, {});
    forall x | x in p ensures p[x] == q[x] {
      var sx := Seen(ms, keys + {lhs}, done, lhs, {}, x);
      if keys == {} {
        assert sx == {lhs};
        assert Image(faces, {lhs}) == {faces[lhs]};
      } else {
        assert keys + {lhs} == keys;
        assert lhs in Seen(ms, keys, done, lhs, {}, lhs);
      }
    }
    TableExt(p, q);
  }

  /** Comparing the left-hand line with itself is skipped and changes nothing. */
  lemma {:induction false} SkipSelf(faces: map<LineId, FaceId>, ms: set<(LineId, LineId)>, keys: set<LineId>,
                                    done: set<LineId>, lhs: LineId, rhs: set<LineId>)
    requires keys <= faces.Keys
    ensures Partial(faces, ms, keys, done, lhs, rhs + {lhs}) == Partial(faces, ms, keys, done, lhs, rhs)
  {
    var p := Partial(faces, ms, keys, done, lhs, rhs + {lhs});
    var q := Partial(faces, ms, keys, done, lhs, rhs);
    forall x | x in p ensures p[x] == q[x] {
      assert Seen(ms, keys, done, lhs, rhs + {lhs}, x) == Seen(ms, keys, done, lhs, rhs, x);
    }
    TableExt(p, q);
  }

  /** How one comparison changes the lines each line has seen: only `lhs` and `r` gain, each the other. */
  lemma {:induction false} SeenStep(ms: set<(LineId, LineId)>, keys: set<LineId>, done: set<LineId>, lhs: LineId,
                                    rhs: set<LineId>, r: LineId, x: LineId)
    requires lhs in keys && r != lhs && lhs !in done
    requires (lhs, r) in ms <==> (r, lhs) in ms
    requires r !in rhs && (r !in keys ==> done == {})
    requires x in keys + {r}
    ensures x !in keys && (lhs, r) in ms ==> Seen(ms, keys + {r}, done, lhs, rhs + {r}, x) == {r, lhs}
    ensures x !in keys && (lhs, r) !in ms ==> Seen(ms, keys + {r}, done, lhs, rhs + {r}, x) == {r}
    ensures x in keys && x == lhs && (lhs, r) in ms ==>
      Seen(ms, keys + {r}, done, lhs, rhs + {r}, x) == Seen(ms, keys, done, lhs, rhs, x) + {r}
    ensures x in keys && x == r && (lhs, r) in ms ==>
      Seen(ms, keys + {r}, done, lhs, rhs + {r}, x) == Seen(ms, keys, done, lhs, rhs, x) + {lhs}
    ensures x in keys && (!(x == lhs || x == r) || (lhs, r) !in ms) ==>
      Seen(ms, keys + {r}, done, lhs, rhs + {r}, x) == Seen(ms, keys, done, lhs, rhs, x)
  {
  }

  /** The table after comparing `lhs` with `r`: `r` is entered with its own face, and a match adds each one's face to the other. */
  function Compared(t: map<LineId, set<FaceId>>, faces: map<LineId, FaceId>, lhs: LineId, r: LineId, m: bool): map<LineId, set<FaceId>>
    requires lhs in faces && r in faces
  {
    var c := InsertAt(t, r, faces[r]);
    if m then InsertAt(InsertAt(c, lhs, faces[r]), r, faces[lhs]) else c
  }

  /** One entry of `CompareStep`. */
  lemma {:induction false} CompareAt(faces: map<LineId, FaceId>, ms: set<(LineId, LineId)>, keys: set<LineId>,
                                     done: set<LineId>, lhs: LineId, rhs: set<LineId>, r: LineId, x: LineId)
    requires keys <= faces.Keys && r in faces && lhs in keys && r != lhs && lhs !in done
    requires (lhs, r) in ms <==> (r, lhs) in ms
    requires r !in rhs && (r !in keys ==> done == {})
    requires x in keys + {r}
    ensures Image(faces, Seen(ms, keys + {r}, done, lhs, rhs + {r}, x))
      == Compared(Partial(faces, ms, keys, done, lhs, rhs), faces, lhs, r, (lhs, r) in ms)[x]
  {
    SeenStep(ms, keys, done, lhs, rhs, r, x);
    if x !in keys {
      assert Image(faces, {r}) == {faces[r]};
      if (lhs, r) in ms {
        ImageAdd(faces, {r}, lhs);
        assert {r} + {lhs} == {r, lhs};
      }
    } else {
      var sx := Seen(ms, keys, done, lhs, rhs, x);
      assert x == r ==> r in sx;
      ImageAdd(faces, sx, r);
      if x == r && (lhs, r) in ms {
        ImageAdd(faces, sx, lhs);
      }
    }
  }

  /** Two tables with the same keys and the same entry under every key are equal. */
  lemma {:induction false} TableExt(a: map<LineId, set<FaceId>>, b: map<LineId, set<FaceId>>)
    requires a.Keys == b.Keys && forall x :: x in a ==> a[x] == b[x]
    ensures a == b
  {
  }

  /** Comparing the left-hand line with the right-hand line `r`, for a symmetric match relation. */
  lemma {:induction false} CompareStep(faces: map<LineId, FaceId>, ms: set<(LineId, LineId)>, keys: set<LineId>,
                                       done: set<LineId>, lhs: LineId, rhs: set<LineId>, r: LineId)
    requires keys <= faces.Keys && r in faces && lhs in keys && r != lhs && lhs !in done
    requires (lhs, r) in ms <==> (r, lhs) in ms
    requires r !in rhs && (r !in keys ==> done == {})
    ensures Partial(faces, ms, keys + {r}, done, lhs, rhs + {r})
      == Compared(Partial(faces, ms, keys, done, lhs, rhs), faces, lhs, r, (lhs, r) in ms)
  {
    var p := Partial(faces, ms, keys + {r}, done, lhs, rhs + {r});
    var q := Compared(Partial(faces, ms, keys, done, lhs, rhs), faces, lhs, r, (lhs, r) in ms);
    forall x | x in p ensures p[x] == q[x] {
      CompareAt(faces, ms, keys, done, lhs, rhs, r, x);
    }
    TableExt(p, q);
  }

  /** After the last right-hand line, the left-hand line is finished. */
  lemma {:induction false} FinishLhs(faces: map<LineId, FaceId>, ms: set<(LineId, LineId)>, keys: set<LineId>,
                                     all: set<LineId>, done: set<LineId>, lhs: LineId, next: LineId)
    requires keys <= faces.Keys && keys <= all
    ensures Partial(faces, ms, keys, done, lhs, all) == Partial(faces, ms, keys, done + {lhs}, next, {})
  {
    var p := Partial(faces, ms, keys, done, lhs, all);
    var q := Partial(faces, ms, keys, done + {lhs}, next, {});
    forall x | x in p ensures p[x] == q[x] {
      assert Seen(ms, keys, done, lhs, all, x) == Seen(ms, keys, done + {lhs}, next, {}, x);
    }
    TableExt(p, q);
  }

  /** One entry of `AllDone`: once every line is finished, a line has seen exactly itself and its matches. */
  lemma {:induction false} AllDoneAt(s: Input, lhs: LineId, x: LineId)
    requires AllResolvable(s) && x in s.lines
    ensures Seen(MatchPairs(s), s.lines.Keys, s.lines.Keys, lhs, {}, x) == {x} + Matches(s, x)
  {
  }

  /** With every line entered and finished, the partial table is the connection table. */
  lemma {:induction false} AllDone(s: Input, lhs: LineId)
    requires AllResolvable(s)
    ensures s.lines.Keys <= s.lineFaces.Keys
    ensures Partial(s.lineFaces, MatchPairs(s), s.lines.Keys, s.lines.Keys, lhs, {}) == Connections(s)
  {
    var p := Partial(s.lineFaces, MatchPairs(s), s.lines.Keys, s.lines.Keys, lhs, {});
    var c := Connections(s);
    forall x | x in p ensures p[x] == c[x] {
      AllDoneAt(s, lhs, x);
    }
    TableExt(p, c);
  }

  /** With no right-hand line compared yet, the current left-hand line does not matter. */
  lemma {:induction false} Idle(faces: map<LineId, FaceId>, ms: set<(LineId, LineId)>, keys: set<LineId>,
                                done: set<LineId>, a: LineId, b: LineId)
    requires keys <= faces.Keys
    ensures Partial(faces, ms, keys, done, a, {}) == Partial(faces, ms, keys, done, b, {})
  {
    var p := Partial(faces, ms, keys, done, a, {});
    var q := Partial(faces, ms, keys, done, b, {});
    forall x | x in p ensures p[x] == q[x] {
      assert Seen(ms, keys, done, a, {}, x) == Seen(ms, keys, done, b, {}, x);
    }
    TableExt(p, q);
  }

  /**
   * One right-hand line `rhsId` other than `lhs`: its face is entered for it, and when the two lines
   * match, each one's face is entered for the other. A failed lookup panics (`None`).
   */
  method CompareOne(s: Input, t: map<LineId, set<FaceId>>, lhs: LineId, rhsId: LineId,
                    ghost keys: set<LineId>, ghost done: set<LineId>, ghost rhs: set<LineId>)
    returns (r: Option<map<LineId, set<FaceId>>>)
    requires Resolvable(s, lhs) && lhs in keys && lhs !in done && rhsId != lhs && rhsId !in rhs && rhsId in s.lines
    requires rhsId !in keys ==> done == {}
    requires keys <= s.lineFaces.Keys
    requires t == Partial(s.lineFaces, MatchPairs(s), keys, done, lhs, rhs)
    ensures r.None? ==> !Resolvable(s, rhsId)
    ensures r.Some? ==> Resolvable(s, rhsId)
    ensures r.Some? ==> r.value == Partial(s.lineFaces, MatchPairs(s), keys + {rhsId}, done, lhs, rhs + {rhsId})
  {
    if rhsId !in s.lineFaces {
      return None;
    }
    var rhsFace := s.lineFaces[rhsId];
    var u := InsertAt(t, rhsId, rhsFace);
    if rhsFace !in s.faceVertices || s.lines[rhsId].i0 >= |s.faceVertices[rhsFace]|
       || s.lines[rhsId].i1 >= |s.faceVertices[rhsFace]| {
      return None;
    }
    var lhsV0, lhsV1 := V0(s, lhs), V1(s, lhs);
    var rhsV0, rhsV1 := V0(s, rhsId), V1(s, rhsId);
    var lhsContainsRhs := Lines.PointInLine(s.k, rhsV0, lhsV0, lhsV1) && Lines.PointInLine(s.k, rhsV1, lhsV0, lhsV1);
    var rhsContainsLhs := Lines.PointInLine(s.k, lhsV0, rhsV0, rhsV1) && Lines.PointInLine(s.k, lhsV1, rhsV0, rhsV1);
    var eq := lhsContainsRhs || rhsContainsLhs;
    assert eq == Matched(s, lhs, rhsId) == Matched(s, rhsId, lhs);
    if eq {
      u := InsertAt(u, lhs, rhsFace);
      u := InsertAt(u, rhsId, s.lineFaces[lhs]);
    }
    CompareStep(s.lineFaces, MatchPairs(s), keys, done, lhs, rhs, rhsId);
    return Some(u);
  }

  /**
   * The right-hand loop for the left-hand line `lhs`: every line in ascending id order, skipping
   * `lhs` itself.
   */
  method CompareWithAll(s: Input, table: map<LineId, set<FaceId>>, lhs: LineId,
                        ghost keys: set<LineId>, ghost done: set<LineId>)
    returns (r: Option<map<LineId, set<FaceId>>>)
    requires Resolvable(s, lhs) && lhs in s.lines && lhs !in done && done <= s.lines.Keys
    requires keys == if done == {} then {lhs} else s.lines.Keys
    requires keys <= s.lineFaces.Keys
    requires table == Partial(s.lineFaces, MatchPairs(s), keys, done, lhs, {})
    ensures r.None? ==> !AllResolvable(s)
    ensures r.Some? ==> AllResolvable(s) && s.lines.Keys <= s.lineFaces.Keys
    ensures r.Some? ==> r.value == Partial(s.lineFaces, MatchPairs(s), s.lines.Keys, done, lhs, s.lines.Keys)
  {
    var t := table;
    var rest := s.lines.Keys;
    ghost var rhs: set<LineId> := {};
    ghost var ks := keys;
    while rest != {}
      invariant rest !! rhs && rest + rhs == s.lines.Keys
      invariant ks == if done == {} then {lhs} + rhs else s.lines.Keys
      invariant ks <= s.lineFaces.Keys && forall x :: x in rhs ==> Resolvable(s, x)
      invariant t == Partial(s.lineFaces, MatchPairs(s), ks, done, lhs, rhs)
      decreases rest
    {
      LeastExists(rest);
      var rhsId :| IsLeast(rhsId, rest);
      rest := rest - {rhsId};
      if rhsId == lhs {
        SkipSelf(s.lineFaces, MatchPairs(s), ks, done, lhs, rhs);
        rhs := rhs + {lhs};
      } else {
        var res := CompareOne(s, t, lhs, rhsId, ks, done, rhs);
        if res.None? {
          return None;
        }
        t := res.value;
        ks := ks + {rhsId};
        rhs := rhs + {rhsId};
      }
    }
    assert ks == s.lines.Keys && rhs == s.lines.Keys;
    return Some(t);
  }

  /**
   * One left-hand line: its face is entered for it, its endpoints fetched, and the right-hand loop
   * run; afterwards `lhs` is finished.
   */
  method CompareLhs(s: Input, table: map<LineId, set<FaceId>>, lhs: LineId,
                    ghost keys: set<LineId>, ghost done: set<LineId>)
    returns (r: Option<map<LineId, set<FaceId>>>)
    requires lhs in s.lines && lhs !in done && done <= s.lines.Keys
    requires keys == if done == {} then {} else s.lines.Keys
    requires keys <= s.lineFaces.Keys
    requires table == Partial(s.lineFaces, MatchPairs(s), keys, done, 0, {})
    ensures r.None? ==> !AllResolvable(s)
    ensures r.Some? ==> AllResolvable(s) && s.lines.Keys <= s.lineFaces.Keys
    ensures r.Some? ==> r.value == Partial(s.lineFaces, MatchPairs(s), s.lines.Keys, done + {lhs}, 0, {})
  {
    if lhs !in s.lineFaces {
      return None;
    }
    var lhsFace := s.lineFaces[lhs];
    Idle(s.lineFaces, MatchPairs(s), keys, done, 0, lhs);
    EnterLhs(s.lineFaces, MatchPairs(s), keys, done, lhs);
    var t := InsertAt(table, lhs, lhsFace);
    assert t == Partial(s.lineFaces, MatchPairs(s), keys + {lhs}, done, lhs, {});
    if lhsFace !in s.faceVertices || s.lines[lhs].i0 >= |s.faceVertices[lhsFace]|
       || s.lines[lhs].i1 >= |s.faceVertices[lhsFace]| {
      return None;
    }
    r := CompareWithAll(s, t, lhs, keys + {lhs}, done);
    if r.Some? {
      FinishLhs(s.lineFaces, MatchPairs(s), s.lines.Keys, s.lines.Keys, done, lhs, 0);
    }
  }

  /**
   * `line_face_connections`: the lines in ascending id order as left-hand lines, each compared
   * with every other line. It panics (`None`) exactly when some line's face, the face's vertices
   * or one of its endpoints is missing; otherwise it yields the connection table.
   */
  method New(k: Kernel, lines: map<LineId, Lines.Line>, lineFaces: map<LineId, FaceId>,
             faceVertices: map<FaceId, seq<Vector3>>)
    returns (r: Option<map<LineId, set<FaceId>>>)
    ensures r.None? <==> !AllResolvable(Input(k, lines, lineFaces, faceVertices))
    ensures r.Some? ==> r.value == Connections(Input(k, lines, lineFaces, faceVertices))
  {
    var s := Input(k, lines, lineFaces, faceVertices);
    var table: map<LineId, set<FaceId>> := map[];
    var remaining := lines.Keys;
    ghost var done: set<LineId> := {};
    ghost var keys: set<LineId> := {};
    while remaining != {}
      invariant remaining !! done && remaining + done == lines.Keys
      invariant keys == if done == {} then {} else lines.Keys
      invariant keys <= lineFaces.Keys && (done != {} ==> AllResolvable(s))
      invariant table == Partial(lineFaces, MatchPairs(s), keys, done, 0, {})
      decreases remaining
    {
      LeastExists(remaining);
      var lhs :| IsLeast(lhs, remaining);
      var res := CompareLhs(s, table, lhs, keys, done);
      if res.None? {
        return None;
      }
      table := res.value;
      keys := lines.Keys;
      done := done + {lhs};
      remaining := remaining - {lhs};
    }
    assert keys == lines.Keys && done == lines.Keys;
    assert AllResolvable(s);
    AllDone(s, 0);
    assert table == Connections(s);
    return Some(table);
  }
}
