/** Sequence facts shared by the pipeline stages: order-preserving filters and distinctness. */
module Seqs {
  import opened Ids

  /** `r` can be obtained from `s` by deleting elements, without reordering the rest. */
  predicate IsSubsequence<T(==, !new)>(r: seq<T>, s: seq<T>)
    decreases |s|
  {
    if r == [] then true
    else if s == [] then false
    else if r[0] == s[0] then IsSubsequence(r[1..], s[1..])
    else IsSubsequence(r, s[1..])
  }

  /** No element occurs twice. */
  predicate NoDuplicates<T(==, !new)>(s: seq<T>) {
    forall i, j :: 0 <= i < j < |s| ==> s[i] != s[j]
  }

  /** The elements of `s` that satisfy `p`, in their original order (an iterator `filter`). */
  function Filter<T(==, !new)>(s: seq<T>, p: T -> bool): (r: seq<T>)
    ensures forall x :: x in r <==> x in s && p(x)
    ensures IsSubsequence(r, s)
    ensures |r| <= |s|
  {
    if s == [] then []
    else if p(s[0]) then [s[0]] + Filter(s[1..], p)
    else Filter(s[1..], p)
  }

  /** A filter keeps every occurrence of an element that passes the test, and none of any other. */
  lemma {:induction false} FilterCounts<T(!new)>(s: seq<T>, p: T -> bool)
    ensures forall x :: multiset(Filter(s, p))[x] == if p(x) then multiset(s)[x] else 0
  {
    if s != [] {
      FilterCounts(s[1..], p);
      assert s == [s[0]] + s[1..];
      assert multiset(s) == multiset{s[0]} + multiset(s[1..]);
    }
  }

  /** A filtered strictly ascending list is still strictly ascending. */
  lemma {:induction false} FilterIncreasing(s: seq<nat>, p: nat -> bool)
    requires StrictlyIncreasing(s)
    ensures StrictlyIncreasing(Filter(s, p))
  {
    if s != [] {
      assert StrictlyIncreasing(s[1..]);
      FilterIncreasing(s[1..], p);
      if p(s[0]) {
        forall x | x in Filter(s[1..], p) ensures s[0] < x {
          var i :| 0 <= i < |s[1..]| && s[1..][i] == x;
          assert s[i + 1] == x;
        }
        ConsIncreasing(s[0], Filter(s[1..], p));
      }
    }
  }

  lemma {:induction false} FilterKeepsAll<T(!new)>(s: seq<T>, p: T -> bool)
    requires forall x :: x in s ==> p(x)
    ensures Filter(s, p) == s
  {
    if s != [] {
      FilterKeepsAll(s[1..], p);
    }
  }

  /** Appending one element after a concatenation. */
  lemma SnocAssoc<T>(a: seq<T>, b: seq<T>, x: T)
    ensures (a + b) + [x] == a + (b + [x])
  {
  }

  /** The prefix of length `i + 1` extends the prefix of length `i` by `s[i]`. */
  lemma PrefixOfPrefix<T>(s: seq<T>, n: nat, j: nat)
    requires j <= n <= |s|
    ensures s[..n][..j] == s[..j]
  {}

  lemma PrefixSnoc<T>(s: seq<T>, i: nat)
    requires i < |s|
    ensures s[..i + 1] == s[..i] + [s[i]]
  {
  }

  /** Appending the same element to both sides, or only to the longer one, keeps a subsequence. */
  lemma {:induction false} SubsequenceExtend<T(!new)>(r: seq<T>, s: seq<T>, x: T)
    requires IsSubsequence(r, s)
    ensures IsSubsequence(r, s + [x]) && IsSubsequence(r + [x], s + [x])
    decreases |s|
  {
    if s == [] {
      assert r == [];
      assert IsSubsequence([x][1..], ([] + [x])[1..]);
    } else {
      assert (s + [x])[1..] == s[1..] + [x];
      if r == [] {
        SubsequenceExtend(r, s[1..], x);
      } else if r[0] == s[0] {
        SubsequenceExtend(r[1..], s[1..], x);
        assert (r + [x])[1..] == r[1..] + [x];
      } else {
        SubsequenceExtend(r, s[1..], x);
      }
    }
  }

  /** Every element of a subsequence occurs in the sequence. */
  lemma {:induction false} SubsequenceMembers<T(!new)>(r: seq<T>, s: seq<T>, x: T)
    requires IsSubsequence(r, s) && x in r
    ensures x in s
    decreases |s|
  {
    if r[0] == s[0] {
      if x != r[0] {
        assert x in r[1..];
        SubsequenceMembers(r[1..], s[1..], x);
      }
    } else {
      SubsequenceMembers(r, s[1..], x);
    }
  }

  /** `entry(k).or_default().push(v)` on a map of lists. */
  function PushAt<K, V>(m: map<K, seq<V>>, k: K, v: V): (r: map<K, seq<V>>)
    ensures r.Keys == m.Keys + {k}
    ensures r[k] == (if k in m then m[k] else []) + [v]
    ensures forall j :: j in m && j != k ==> r[j] == m[j]
  {
    m[k := (if k in m then m[k] else []) + [v]]
  }

  /** `entry(k).or_default().extend(s)` on a map of lists. */
  function ExtendAt<K, V>(m: map<K, seq<V>>, k: K, s: seq<V>): (r: map<K, seq<V>>)
    ensures r.Keys == m.Keys + {k}
    ensures r[k] == (if k in m then m[k] else []) + s
    ensures forall j :: j in m && j != k ==> r[j] == m[j]
  {
    m[k := (if k in m then m[k] else []) + s]
  }

  /** `entry(k).or_default().insert(id, v)` on a map of maps. */
  function InsertAt<K, I, V>(m: map<K, map<I, V>>, k: K, id: I, v: V): (r: map<K, map<I, V>>)
    ensures r.Keys == m.Keys + {k}
    ensures r[k] == (if k in m then m[k] else map[])[id := v]
    ensures forall j :: j in m && j != k ==> r[j] == m[j]
  {
    m[k := (if k in m then m[k] else map[])[id := v]]
  }
}
