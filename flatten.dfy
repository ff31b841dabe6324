/**
 * Nested lists walked with running id counters, as the map loader does: every element of every
 * list gets the next id, so the ids of one list are consecutive and the lists follow each other.
 * `Concat` is the walk, `Owners` records which list each id came from, and `Group` is the map
 * built by pushing each id onto the list of its owner.
 */
module Flatten {
  import opened Ids
  import opened Seqs

  /** `n` copies of `x`. */
  function Repeat(x: nat, n: nat): (r: seq<nat>)
    ensures |r| == n && forall i :: 0 <= i < n ==> r[i] == x
  {
    if n == 0 then [] else Repeat(x, n - 1) + [x]
  }

  /** All lists of `xss`, one after the other. */
  function Concat<T>(xss: seq<seq<T>>): seq<T> {
    if xss == [] then [] else Concat(xss[..|xss| - 1]) + xss[|xss| - 1]
  }

  /** For each element of `Concat(xss)`, the index of the list it comes from. */
  function Owners<T>(xss: seq<seq<T>>): (r: seq<nat>)
    ensures |r| == |Concat(xss)|
    ensures forall i :: 0 <= i < |r| ==> r[i] < |xss|
  {
    if xss == [] then [] else Owners(xss[..|xss| - 1]) + Repeat(|xss| - 1, |xss[|xss| - 1]|)
  }

  /** Walking one more list appends it, and its elements are owned by its index. */
  lemma ConcatAppend<T>(xss: seq<seq<T>>, x: seq<T>)
    ensures Concat(xss + [x]) == Concat(xss) + x
    ensures Owners(xss + [x]) == Owners(xss) + Repeat(|xss|, |x|)
  {
    assert (xss + [x])[..|xss|] == xss;
  }

  /** The walk of the first `i + 1` lists extends the walk of the first `i` by list `i`. */
  lemma ConcatSnoc<T>(xss: seq<seq<T>>, i: nat)
    requires i < |xss|
    ensures Concat(xss[..i + 1]) == Concat(xss[..i]) + xss[i]
    ensures Owners(xss[..i + 1]) == Owners(xss[..i]) + Repeat(i, |xss[i]|)
  {
    PrefixSnoc(xss, i);
    ConcatAppend(xss[..i], xss[i]);
  }

  /** List `k` ends no later than the whole walk. */
  lemma {:induction false} ConcatBound<T>(xss: seq<seq<T>>, k: nat)
    requires k < |xss|
    ensures |Concat(xss[..k])| + |xss[k]| <= |Concat(xss)|
  {
    var n := |xss| - 1;
    var init := xss[..n];
    if k == n {
      assert xss[..k] == init;
    } else {
      ConcatBound(init, k);
      assert init[..k] == xss[..k];
    }
  }

  /** Element `j` of list `k` sits at the offset of list `k` plus `j` in the walk. */
  lemma {:induction false} ConcatAt<T>(xss: seq<seq<T>>, k: nat, j: nat)
    requires k < |xss| && j < |xss[k]|
    ensures |Concat(xss[..k])| + j < |Concat(xss)|
    ensures Concat(xss)[|Concat(xss[..k])| + j] == xss[k][j]
  {
    var n := |xss| - 1;
    var init := xss[..n];
    ConcatBound(xss, k);
    if k == n {
      assert xss[..k] == init;
    } else {
      ConcatAt(init, k, j);
      assert init[..k] == xss[..k];
    }
  }

  /**
   * The ids owned by list `k` are consecutive: position `i` of the walk belongs to list `k`
   * exactly when it lies between the offset of list `k` and that offset plus its length.
   */
  lemma {:induction false} OwnersAt<T>(xss: seq<seq<T>>, k: nat, i: nat)
    requires k < |xss| && i < |Owners(xss)|
    ensures Owners(xss)[i] == k <==> |Concat(xss[..k])| <= i < |Concat(xss[..k])| + |xss[k]|
  {
    var n := |xss| - 1;
    var init := xss[..n];
    assert Owners(xss) == Owners(init) + Repeat(n, |xss[n]|);
    assert Concat(xss) == Concat(init) + xss[n];
    if k == n {
      assert xss[..k] == init;
    } else {
      assert init[..k] == xss[..k] && init[k] == xss[k];
      ConcatBound(init, k);
      if i < |Owners(init)| {
        OwnersAt(init, k, i);
      }
    }
  }

  /** The map built by pushing each position `i` of `o` onto the list of `o[i]`, in order. */
  function Group(o: seq<nat>): map<nat, seq<nat>> {
    if o == [] then map[] else PushAt(Group(o[..|o| - 1]), o[|o| - 1], |o| - 1)
  }

  /** One more position joins the list of its owner. */
  lemma GroupAppend(o: seq<nat>, k: nat)
    ensures Group(o + [k]) == PushAt(Group(o), k, |o|)
  {
    assert (o + [k])[..|o|] == o;
  }

  /** An owner has a list in `Group(o)` exactly when it occurs in `o`. */
  lemma {:induction false} GroupKey(o: seq<nat>, k: nat)
    ensures k in Group(o) <==> k in o
  {
    if o != [] {
      var n := |o| - 1;
      GroupKey(o[..n], k);
      assert o == o[..n] + [o[n]];
    }
  }

  /** The list of owner `k` holds exactly the positions of `o` that `k` owns. */
  lemma {:induction false} GroupMember(o: seq<nat>, k: nat, i: nat)
    requires k in Group(o)
    ensures i in Group(o)[k] <==> i < |o| && o[i] == k
  {
    var n := |o| - 1;
    var init := o[..n];
    GroupKey(init, k);
    if k in Group(init) {
      GroupMember(init, k, i);
    }
    if i < n {
      assert o[i] == init[i];
    }
  }

  /** The list of each owner is in increasing position order. */
  lemma {:induction false} GroupIncreasing(o: seq<nat>, k: nat)
    requires k in Group(o)
    ensures StrictlyIncreasing(Group(o)[k])
  {
    var n := |o| - 1;
    var init := o[..n];
    if k in Group(init) {
      GroupIncreasing(init, k);
      if k == o[n] {
        var s := Group(init)[k];
        forall p, q | 0 <= p < q < |s| + 1 ensures (s + [n])[p] < (s + [n])[q] {
          if q == |s| {
            assert s[p] in s;
            GroupMember(init, k, s[p]);
          }
        }
      }
    }
  }

  /** In the grouping of a walk, no id is listed twice, under one owner or under two. */
  lemma GroupDisjoint(o: seq<nat>)
    ensures forall k1, k2, i :: k1 in Group(o) && k2 in Group(o) && i in Group(o)[k1] && i in Group(o)[k2] ==> k1 == k2
    ensures forall k :: k in Group(o) ==> NoDuplicates(Group(o)[k])
  {
    forall k1, k2, i | k1 in Group(o) && k2 in Group(o) && i in Group(o)[k1] && i in Group(o)[k2] ensures k1 == k2 {
      GroupMember(o, k1, i);
      GroupMember(o, k2, i);
    }
    forall k | k in Group(o) ensures NoDuplicates(Group(o)[k]) {
      GroupIncreasing(o, k);
      var s := Group(o)[k];
      forall p, q | 0 <= p < q < |s| ensures s[p] != s[q] {
        assert s[p] < s[q];
      }
    }
  }

  /** Consecutive ids come out strictly increasing. */
  lemma RunIncreasing(first: nat, count: nat)
    ensures StrictlyIncreasing(Run(first, count))
  {
  }

  /**
   * Grouping a walk by owner: list `k` has an entry exactly when it is not empty, and the entry
   * is the run of consecutive ids that starts at the offset of list `k`.
   */
  lemma {:induction false} GroupOwners<T>(xss: seq<seq<T>>, k: nat)
    ensures k in Group(Owners(xss)) <==> k < |xss| && |xss[k]| > 0
    ensures k in Group(Owners(xss)) ==> Group(Owners(xss))[k] == Run(|Concat(xss[..k])|, |xss[k]|)
  {
    var o := Owners(xss);
    GroupKey(o, k);
    if k < |xss| {
      var base := |Concat(xss[..k])|;
      ConcatBound(xss, k);
      if |xss[k]| > 0 {
        OwnersAt(xss, k, base);
        assert o[base] == k;
      } else if k in o {
        var i :| 0 <= i < |o| && o[i] == k;
        OwnersAt(xss, k, i);
      }
      if k in Group(o) {
        forall i: nat ensures i in Group(o)[k] <==> i in Run(base, |xss[k]|) {
          RunMembership(base, |xss[k]|, i);
          GroupMember(o, k, i);
          if i < |o| {
            OwnersAt(xss, k, i);
          }
        }
        RunIncreasing(base, |xss[k]|);
        GroupIncreasing(o, k);
        IncreasingUnique(Group(o)[k], Run(base, |xss[k]|));
      }
    }
  }

  /** A table keyed by position: entry `i` is `xs[i]` (ids handed out in order, one per element). */
  function Table<T>(xs: seq<T>): map<nat, T> {
    if xs == [] then map[] else Table(xs[..|xs| - 1])[|xs| - 1 := xs[|xs| - 1]]
  }

  /** One more element adds the entry under the next id. */
  lemma TableAppend<T>(xs: seq<T>, x: T)
    ensures Table(xs + [x]) == Table(xs)[|xs| := x]
  {
    assert (xs + [x])[..|xs|] == xs;
  }

  /** The table has exactly the ids below `|xs|`, each holding its element. */
  lemma {:induction false} TableAt<T>(xs: seq<T>, i: nat)
    ensures i in Table(xs) <==> i < |xs|
    ensures i < |xs| ==> Table(xs)[i] == xs[i]
  {
    if xs != [] {
      TableAt(xs[..|xs| - 1], i);
    }
  }

  /** `f` applied to each element, in order (an iterator `map`). */
  function Project<A, B>(xs: seq<A>, f: A -> B): (r: seq<B>)
    ensures |r| == |xs| && forall i {:trigger r[i]} :: 0 <= i < |xs| ==> r[i] == f(xs[i])
  {
    if xs == [] then [] else Project(xs[..|xs| - 1], f) + [f(xs[|xs| - 1])]
  }

  /** Projecting one more element appends its image. */
  lemma ProjectAppend<A, B>(xs: seq<A>, x: A, f: A -> B)
    ensures Project(xs + [x], f) == Project(xs, f) + [f(x)]
  {
    assert (xs + [x])[..|xs|] == xs;
  }
}
