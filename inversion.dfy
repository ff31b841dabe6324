/**
 * Inverting an ordered map from ids to id lists into a lookup table from each listed id back
 * to the id that lists it: line -> face, face -> brush, brush -> entity.
 *
 * The inverted table is collected from `(listed, owner)` pairs produced in ascending owner
 * order, so when an id is listed under several owners the greatest owner wins, as it does when
 * an ordered map is collected from pairs in that order.
 */
module Inversion {
  import opened Ids
  import opened Seqs

  /** Every id that occurs in some list of `m`. */
  ghost function Listed(m: map<nat, seq<nat>>): set<nat> {
    set k, v | k in m && v in m[k] :: v
  }

  /** The table collected from the pairs of the owners `ks`, in the order of `ks`. */
  function InvertFrom(m: map<nat, seq<nat>>, ks: seq<nat>): map<nat, nat>
    requires forall k :: k in ks ==> k in m
  {
    if ks == [] then map[]
    else
      var last := ks[|ks| - 1];
      InvertFrom(m, ks[..|ks| - 1]) + map v | v in m[last] :: last
  }

  lemma {:induction false} InvertFromOwners(m: map<nat, seq<nat>>, ks: seq<nat>)
    requires forall k :: k in ks ==> k in m
    requires StrictlyIncreasing(ks)
    ensures forall v :: v in InvertFrom(m, ks) <==> exists k :: k in ks && v in m[k]
    ensures forall v :: v in InvertFrom(m, ks) ==>
      var o := InvertFrom(m, ks)[v];
      o in ks && v in m[o] && forall k :: k in ks && v in m[k] ==> k <= o
  {
    if ks != [] {
      var init, last := ks[..|ks| - 1], ks[|ks| - 1];
      OwnersSplit(ks);
      InvertFromOwners(m, init);
      var prev := InvertFrom(m, init);
      var r := InvertFrom(m, ks);
      assert r == prev + map v | v in m[last] :: last;
      forall v ensures v in r <==> exists k :: k in ks && v in m[k] {
        if v !in m[last] && exists k :: k in ks && v in m[k] {
          var k :| k in ks && v in m[k];
          assert k in init;
        }
      }
      forall v | v in r
        ensures r[v] in ks && v in m[r[v]] && forall k :: k in ks && v in m[k] ==> k <= r[v]
      {
        if v !in m[last] {
          assert r[v] == prev[v];
        }
      }
    }
  }

  /** The last owner of a strictly increasing order is its greatest. */
  lemma OwnersSplit(ks: seq<nat>)
    requires StrictlyIncreasing(ks) && ks != []
    ensures forall k :: k in ks <==> k in ks[..|ks| - 1] || k == ks[|ks| - 1]
    ensures forall k :: k in ks ==> k <= ks[|ks| - 1]
    ensures forall k :: k in ks && k != ks[|ks| - 1] ==> k < ks[|ks| - 1]
    ensures StrictlyIncreasing(ks[..|ks| - 1])
  {
    assert ks == ks[..|ks| - 1] + [ks[|ks| - 1]];
  }

  /** The lookup table from each listed id to the (greatest) id that lists it. */
  function Invert(m: map<nat, seq<nat>>): (r: map<nat, nat>)
    ensures r.Keys == Listed(m)
    ensures forall v :: v in r ==> r[v] in m && v in m[r[v]]
    ensures forall v, k :: v in r && k in m && v in m[k] ==> k <= r[v]
  {
    var ks := SortedKeys(m.Keys);
    SortedKeysIncreasing(m.Keys);
    InvertFromOwners(m, ks);
    InvertFrom(m, ks)
  }

  /** No id is listed under two different owners. */
  ghost predicate ListsDisjoint(m: map<nat, seq<nat>>) {
    forall k1, k2, v :: k1 in m && k2 in m && v in m[k1] && v in m[k2] ==> k1 == k2
  }

  /** With disjoint lists the table is the exact inverse: every listed id maps to its owner. */
  lemma ExactInverse(m: map<nat, seq<nat>>)
    requires ListsDisjoint(m)
    ensures forall k, v :: k in m && v in m[k] ==> v in Invert(m) && Invert(m)[v] == k
  {
    var r := Invert(m);
    forall k, v | k in m && v in m[k] ensures v in r && r[v] == k {
      assert v in Listed(m);
    }
  }

  /** The total length of the lists of the owners `ks`. */
  function TotalLength(m: map<nat, seq<nat>>, ks: seq<nat>): nat
    requires forall k :: k in ks ==> k in m
  {
    if ks == [] then 0 else TotalLength(m, ks[..|ks| - 1]) + |m[ks[|ks| - 1]]|
  }

  /** The ids a list mentions. */
  ghost function Elements(s: seq<nat>): set<nat> {
    set x | x in s
  }

  lemma {:induction false} DistinctCardinality(s: seq<nat>)
    requires NoDuplicates(s)
    ensures |Elements(s)| == |s|
  {
    if s != [] {
      var init, last := s[..|s| - 1], s[|s| - 1];
      assert NoDuplicates(init) by {
        forall i, j | 0 <= i < j < |init| ensures init[i] != init[j] {
          assert init[i] == s[i] && init[j] == s[j];
        }
      }
      DistinctCardinality(init);
      assert last !in Elements(init) by {
        forall i | 0 <= i < |init| ensures init[i] != last {
          assert init[i] == s[i];
        }
      }
      assert Elements(s) == Elements(init) + {last} by {
        assert s == init + [last];
      }
    }
  }

  lemma {:induction false} InvertFromSize(m: map<nat, seq<nat>>, ks: seq<nat>)
    requires forall k :: k in ks ==> k in m
    requires StrictlyIncreasing(ks)
    requires ListsDisjoint(m)
    requires forall k :: k in m ==> NoDuplicates(m[k])
    ensures |InvertFrom(m, ks)| == TotalLength(m, ks)
  {
    if ks != [] {
      var init, last := ks[..|ks| - 1], ks[|ks| - 1];
      OwnersSplit(ks);
      InvertFromSize(m, init);
      var prev := InvertFrom(m, init);
      var added := Elements(m[last]);
      assert InvertFrom(m, ks).Keys == prev.Keys + added;
      NewOwnerIsFresh(m, init, last);
      DistinctCardinality(m[last]);
      assert |prev.Keys + added| == |prev.Keys| + |added|;
    }
  }

  /** The ids listed under an owner outside `ks` are not yet in the table of `ks`. */
  lemma NewOwnerIsFresh(m: map<nat, seq<nat>>, ks: seq<nat>, owner: nat)
    requires forall k :: k in ks ==> k in m
    requires StrictlyIncreasing(ks)
    requires ListsDisjoint(m)
    requires owner in m && owner !in ks
    ensures InvertFrom(m, ks).Keys !! Elements(m[owner])
  {
    InvertFromOwners(m, ks);
  }

  /** With disjoint, duplicate-free lists the table has one entry per listed id. */
  lemma InvertSize(m: map<nat, seq<nat>>)
    requires ListsDisjoint(m)
    requires forall k :: k in m ==> NoDuplicates(m[k])
    ensures |Invert(m)| == TotalLength(m, SortedKeys(m.Keys))
  {
    SortedKeysIncreasing(m.Keys);
    InvertFromSize(m, SortedKeys(m.Keys));
  }

  /** The ids below `n`: 0, 1, ..., n - 1. */
  function Below(n: nat): (r: set<nat>)
    ensures forall v: nat :: v in r <==> v < n
    ensures |r| == n
  {
    if n == 0 then {} else Below(n - 1) + {n - 1}
  }

  /**
   * When the lists are disjoint and together list exactly the ids below `n`, the table has
   * exactly those ids as keys, so it has `n` entries.
   */
  lemma {:induction false} InverseOfRange(m: map<nat, seq<nat>>, n: nat)
    requires forall k, v :: k in m && v in m[k] ==> v < n
    requires forall v :: v in Below(n) ==> exists k :: k in m && v in m[k]
    ensures Invert(m).Keys == Below(n)
    ensures |Invert(m)| == n
  {
    forall v ensures v in Listed(m) <==> v in Below(n) {
      if v in Listed(m) {
        var k :| k in m && v in m[k];
      }
    }
  }
}
