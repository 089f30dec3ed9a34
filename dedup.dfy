/**
 * Order-preserving deduplication, the idiom behind every `seen` set and `dict.fromkeys` in the
 * scrapers: keep an element when its key has not been seen before, in encounter order.
 */
module Dedup {

  /** A prefix one longer is the prefix and the next element. */
  lemma PrefixSnoc<T>(s: seq<T>, i: nat)
    requires i < |s|
    ensures s[..i + 1] == s[..i] + [s[i]]
  {
  }

  /** The keys occurring in `xs`. */
  function KeysOf<T, K>(xs: seq<T>, key: T -> K): (ks: set<K>)
    ensures forall i :: 0 <= i < |xs| ==> key(xs[i]) in ks
  {
    if xs == [] then {}
    else
      var n := |xs| - 1;
      var ks := KeysOf(xs[..n], key);
      assert forall i :: 0 <= i < n ==> xs[..n][i] == xs[i];
      ks + {key(xs[n])}
  }

  /** Every key in `KeysOf(xs, key)` is the key of some element of `xs`. */
  lemma {:induction false} KeysOfWitness<T, K>(xs: seq<T>, key: T -> K, k: K)
    requires k in KeysOf(xs, key)
    ensures exists i :: 0 <= i < |xs| && key(xs[i]) == k
  {
    var n := |xs| - 1;
    if k == key(xs[n]) {
    } else {
      KeysOfWitness(xs[..n], key, k);
      var i :| 0 <= i < n && key(xs[..n][i]) == k;
      assert xs[..n][i] == xs[i];
    }
  }

  /** Index of the first element of `xs` whose key is `k`. */
  function FirstIndex<T, K(==)>(xs: seq<T>, key: T -> K, k: K): (i: nat)
    requires k in KeysOf(xs, key)
    ensures i < |xs| && key(xs[i]) == k
    ensures forall j :: 0 <= j < i ==> key(xs[j]) != k
  {
    var n := |xs| - 1;
    assert forall j :: 0 <= j < n ==> xs[..n][j] == xs[j];
    if k in KeysOf(xs[..n], key) then FirstIndex(xs[..n], key, k) else n
  }

  /** The elements of `xs` whose key did not occur earlier in `xs`, in their original order. */
  function DedupBy<T, K(==)>(xs: seq<T>, key: T -> K): (r: seq<T>)
    ensures |r| <= |xs|
  {
    if xs == [] then []
    else
      var n := |xs| - 1;
      if key(xs[n]) in KeysOf(xs[..n], key) then DedupBy(xs[..n], key)
      else DedupBy(xs[..n], key) + [xs[n]]
  }

  /** The keys of a non-empty `xs` are those of its prefix and the key of its last element; a key the
      prefix holds first occurs where it does in the prefix, and a new key at the last position. */
  lemma LastStep<T, K>(xs: seq<T>, key: T -> K, k: K)
    requires xs != []
    ensures KeysOf(xs, key) == KeysOf(xs[..|xs| - 1], key) + {key(xs[|xs| - 1])}
    ensures k in KeysOf(xs[..|xs| - 1], key) ==>
              FirstIndex(xs, key, k) == FirstIndex(xs[..|xs| - 1], key, k) &&
              xs[FirstIndex(xs, key, k)] == xs[..|xs| - 1][FirstIndex(xs, key, k)]
    ensures k !in KeysOf(xs[..|xs| - 1], key) && k == key(xs[|xs| - 1]) ==>
              FirstIndex(xs, key, k) == |xs| - 1
  {
  }

  /** One more element is kept exactly when its key is new. */
  lemma DedupBySnoc<T, K>(xs: seq<T>, x: T, key: T -> K)
    ensures KeysOf(xs + [x], key) == KeysOf(xs, key) + {key(x)}
    ensures DedupBy(xs + [x], key) ==
              if key(x) in KeysOf(xs, key) then DedupBy(xs, key) else DedupBy(xs, key) + [x]
  {
    assert (xs + [x])[..|xs|] == xs;
  }

  /** `DedupBy` keeps exactly the keys of its input. */
  lemma {:induction false} DedupByKeys<T, K>(xs: seq<T>, key: T -> K)
    ensures KeysOf(DedupBy(xs, key), key) == KeysOf(xs, key)
  {
    if xs != [] {
      var n := |xs| - 1;
      var p, x := xs[..n], xs[n];
      DedupByKeys(p, key);
      LastStep(xs, key, key(x));
      var rp, r := DedupBy(p, key), DedupBy(xs, key);
      if key(x) !in KeysOf(p, key) {
        assert r == rp + [x];
        assert r[..|r| - 1] == rp;
        LastStep(r, key, key(x));
      }
    }
  }

  /** Every element `DedupBy` keeps is the first element of its input carrying that key. */
  lemma {:induction false} DedupByFirst<T, K>(xs: seq<T>, key: T -> K)
    ensures forall i :: 0 <= i < |DedupBy(xs, key)| ==>
              var y := DedupBy(xs, key)[i];
              key(y) in KeysOf(xs, key) && y == xs[FirstIndex(xs, key, key(y))]
  {
    if xs != [] {
      var n := |xs| - 1;
      var p, x := xs[..n], xs[n];
      DedupByFirst(p, key);
      var rp, r := DedupBy(p, key), DedupBy(xs, key);
      forall i | 0 <= i < |r|
        ensures key(r[i]) in KeysOf(xs, key) && r[i] == xs[FirstIndex(xs, key, key(r[i]))]
      {
        var k := key(r[i]);
        LastStep(xs, key, k);
        if i < |rp| {
          assert r[i] == rp[i];
          assert k in KeysOf(p, key) && rp[i] == p[FirstIndex(p, key, k)];
        } else {
          assert r == rp + [x] && r[i] == x;
        }
      }
    }
  }

  /** `DedupBy` lists the kept elements in the order in which their keys first occur. */
  lemma {:induction false} DedupByOrder<T, K>(xs: seq<T>, key: T -> K)
    ensures forall i, j :: 0 <= i < j < |DedupBy(xs, key)| ==>
              var y, z := DedupBy(xs, key)[i], DedupBy(xs, key)[j];
              key(y) in KeysOf(xs, key) && key(z) in KeysOf(xs, key) &&
              FirstIndex(xs, key, key(y)) < FirstIndex(xs, key, key(z))
  {
    if xs != [] {
      var n := |xs| - 1;
      var p, x := xs[..n], xs[n];
      DedupByOrder(p, key);
      DedupByKeys(p, key);
      var rp, r := DedupBy(p, key), DedupBy(xs, key);
      forall i, j | 0 <= i < j < |r|
        ensures key(r[i]) in KeysOf(xs, key) && key(r[j]) in KeysOf(xs, key)
        ensures FirstIndex(xs, key, key(r[i])) < FirstIndex(xs, key, key(r[j]))
      {
        var ki, kj := key(r[i]), key(r[j]);
        LastStep(xs, key, ki);
        LastStep(xs, key, kj);
        assert r[i] == rp[i];
        assert ki in KeysOf(rp, key);
        if j < |rp| {
          assert r[j] == rp[j];
        } else {
          assert r == rp + [x] && r[j] == x;
        }
      }
    }
  }

  /** No two kept elements share a key. */
  lemma DedupByDistinctKeys<T, K>(xs: seq<T>, key: T -> K)
    ensures var r := DedupBy(xs, key);
            forall i, j :: 0 <= i < j < |r| ==> key(r[i]) != key(r[j])
  {
    DedupByKeys(xs, key);
    DedupByOrder(xs, key);
  }

  /** The identity, as the key of plain value deduplication. */
  function Id<T>(x: T): T { x }

  /** Order-preserving removal of repeated values (a `seen`-set comprehension, `dict.fromkeys`). */
  function Distinct<T(==)>(xs: seq<T>): seq<T> {
    DedupBy(xs, Id)
  }

  /** `u` and `v` both occur in `xs`, and `u` occurs first. */
  predicate OccursFirstBefore<T(==)>(xs: seq<T>, u: T, v: T) {
    u in KeysOf(xs, Id) && v in KeysOf(xs, Id) && FirstIndex(xs, Id, u) < FirstIndex(xs, Id, v)
  }

  /** `Distinct` holds each value of `xs` exactly once, in the order of first occurrence. */
  lemma DistinctProperties<T>(xs: seq<T>)
    ensures var r := Distinct(xs);
            (forall x :: x in r <==> x in xs) &&
            (forall i, j :: 0 <= i < j < |r| ==> r[i] != r[j]) &&
            (forall i, j :: 0 <= i < j < |r| ==>
              r[i] in KeysOf(xs, Id) && r[j] in KeysOf(xs, Id) &&
              FirstIndex(xs, Id, r[i]) < FirstIndex(xs, Id, r[j]))
  {
    DedupByKeys(xs, Id);
    DedupByOrder(xs, Id);
    var r := Distinct(xs);
    forall x ensures x in r <==> x in xs {
      if x in xs {
        var i :| 0 <= i < |xs| && xs[i] == x;
        assert Id(xs[i]) in KeysOf(r, Id);
        KeysOfWitness(r, Id, x);
      }
      if x in r {
        var i :| 0 <= i < |r| && r[i] == x;
        assert Id(r[i]) in KeysOf(xs, Id);
        KeysOfWitness(xs, Id, x);
      }
    }
  }

  /** A sequence without repeated values holds each of its values exactly once. */
  lemma {:induction false} NoRepeatsCount<T>(s: seq<T>)
    requires forall i, j :: 0 <= i < j < |s| ==> s[i] != s[j]
    ensures forall x :: multiset(s)[x] == if x in s then 1 else 0
  {
    if s != [] {
      var n := |s| - 1;
      var p := s[..n];
      assert s == p + [s[n]];
      NoRepeatsCount(p);
      assert s[n] !in p;
      assert multiset(s) == multiset(p) + multiset{s[n]};
    }
  }

  /** `Distinct(xs)` holds each value of `xs` exactly once and nothing else: it enumerates the
      set of values of `xs`. */
  lemma DistinctCount<T>(xs: seq<T>)
    ensures forall x :: multiset(Distinct(xs))[x] == if x in xs then 1 else 0
  {
    DistinctProperties(xs);
    NoRepeatsCount(Distinct(xs));
  }

  /** Removing repeats as the scrapers do, with a set of the values kept so far (the `seen`-set
      comprehension of `run_scrapers.py`, `dict.fromkeys` in `yorkshire.py`). */
  method RemoveRepeats<T(==)>(xs: seq<T>) returns (out: seq<T>)
    ensures out == Distinct(xs)
  {
    out := [];
    var seen: set<T> := {};
    var i := 0;
    while i < |xs|
      invariant 0 <= i <= |xs|
      invariant out == DedupBy(xs[..i], Id)
      invariant seen == KeysOf(xs[..i], Id)
    {
      PrefixSnoc(xs, i);
      DedupBySnoc(xs[..i], xs[i], Id);
      if xs[i] !in seen {
        seen := seen + {xs[i]};
        out := out + [xs[i]];
      }
      i := i + 1;
    }
    assert xs[..i] == xs;
  }
}
