/**
 * Stable integer ids and the ascending-key iteration order of the id-keyed maps.
 *
 * Every id of the pipeline is a plain counter value, so the id types are names for `nat`.
 * The maps of the system are ordered maps that are always walked in ascending key order;
 * `SortedKeys` gives that order for a Dafny `map`.
 */
module Ids {

  type EntityId = nat
  type BrushId = nat
  type FaceId = nat
  type LineId = nat
  type TextureId = nat

  /** `m` is the least element of `s`. */
  predicate IsLeast(m: nat, s: set<nat>) {
    m in s && forall k :: k in s ==> m <= k
  }

  lemma LeastExists(s: set<nat>)
    requires s != {}
    ensures exists m :: IsLeast(m, s)
  {
    var x :| x in s;
    if s != {x} {
      var t := s - {x};
      LeastExists(t);
      var m :| IsLeast(m, t);
      if x < m {
        assert IsLeast(x, s) by { forall k | k in s ensures x <= k { if k != x { assert k in t; } } }
      } else {
        assert IsLeast(m, s) by { forall k | k in s ensures m <= k { if k != x { assert k in t; } } }
      }
    } else {
      assert IsLeast(x, s);
    }
  }

  predicate StrictlyIncreasing(s: seq<nat>) {
    forall i, j :: 0 <= i < j < |s| ==> s[i] < s[j]
  }

  /** The keys of an ordered map in the order the map iterates them: ascending (`SortedKeysIncreasing`). */
  function SortedKeys(s: set<nat>): (r: seq<nat>)
    ensures |r| == |s|
    ensures forall k :: k in s <==> k in r
    decreases s
  {
    if s == {} then []
    else
      LeastExists(s);
      var m :| IsLeast(m, s);
      [m] + SortedKeys(s - {m})
  }

  /** The keys come out in strictly ascending order. */
  lemma {:induction false} SortedKeysIncreasing(s: set<nat>)
    ensures StrictlyIncreasing(SortedKeys(s))
    decreases s
  {
    if s != {} {
      LeastExists(s);
      var m :| IsLeast(m, s);
      assert SortedKeys(s) == [m] + SortedKeys(s - {m});
      SortedKeysIncreasing(s - {m});
      ConsIncreasing(m, SortedKeys(s - {m}));
    }
  }

  /** Putting an element below all others in front of a strictly increasing sequence keeps it so. */
  lemma ConsIncreasing(m: nat, rest: seq<nat>)
    requires StrictlyIncreasing(rest) && forall k :: k in rest ==> m < k
    ensures StrictlyIncreasing([m] + rest)
  {
    var r := [m] + rest;
    forall i, j | 0 <= i < j < |r| ensures r[i] < r[j] {
      assert r[j] == rest[j - 1] && rest[j - 1] in rest;
      if i > 0 {
        assert r[i] == rest[i - 1];
      }
    }
  }

  /** Two strictly increasing sequences with the same elements are equal. */
  lemma {:induction false} IncreasingUnique(a: seq<nat>, b: seq<nat>)
    requires StrictlyIncreasing(a) && StrictlyIncreasing(b)
    requires forall k :: k in a <==> k in b
    ensures a == b
  {
    assert a != [] ==> a[0] in b;
    assert b != [] ==> b[0] in a;
    if a != [] && b != [] {
      assert a[0] == b[0] by {
        HeadIsLeast(a, b[0]);
        HeadIsLeast(b, a[0]);
      }
      forall k ensures k in a[1..] <==> k in b[1..] {
        HeadIsLeast(a, k);
        HeadIsLeast(b, k);
      }
      IncreasingUnique(a[1..], b[1..]);
      assert a == [a[0]] + a[1..] && b == [b[0]] + b[1..];
    }
  }

  /** The head of a strictly increasing sequence is below every other element. */
  lemma HeadIsLeast(a: seq<nat>, k: nat)
    requires StrictlyIncreasing(a) && a != []
    ensures k in a ==> a[0] <= k
    ensures k in a[1..] <==> k in a && k != a[0]
  {
    if k in a {
      var i :| 0 <= i < |a| && a[i] == k;
      assert i > 0 ==> a[0] < a[i];
      assert i > 0 ==> a[1..][i - 1] == k;
    }
  }

  /** The position of `k` in the iteration order `ks`. */
  function Position(ks: seq<nat>, k: nat): (i: nat)
    requires k in ks
    ensures i < |ks| && ks[i] == k
  {
    if ks[0] == k then 0 else 1 + Position(ks[1..], k)
  }

  /** The `count` ids `first, first + 1, ...`, as handed out by a counter that stands at `first`. */
  function Run(first: nat, count: nat): seq<nat> {
    seq(count, i => first + i)
  }

  lemma RunMembership(first: nat, count: nat, x: nat)
    ensures x in Run(first, count) <==> first <= x < first + count
  {
    if first <= x < first + count {
      assert Run(first, count)[x - first] == x;
    }
  }

  lemma RunAppend(first: nat, count: nat)
    ensures Run(first, count + 1) == Run(first, count) + [first + count]
  {
  }
}
