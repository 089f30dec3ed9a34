/**
 * Left-to-right passes over a page: each element, seen after the elements before it, may
 * contribute some items to the pass's output. Both listing scans are such passes, and the climb
 * from an anchor to its dated card is a bounded search of the same kind.
 */
module Scans {
  import opened Wrappers

  /** What a pass over `xs` emits when element `x`, met after the prefix `p`, contributes `f(p, x)`. */
  function Emit<T, U>(xs: seq<T>, f: (seq<T>, T) -> seq<U>): seq<U>
    decreases |xs|
  {
    if xs == [] then []
    else
      var n := |xs| - 1;
      Emit(xs[..n], f) + f(xs[..n], xs[n])
  }

  /** One more element adds its own contribution at the end. */
  lemma EmitSnoc<T, U>(xs: seq<T>, x: T, f: (seq<T>, T) -> seq<U>)
    ensures Emit(xs + [x], f) == Emit(xs, f) + f(xs, x)
  {
    assert (xs + [x])[..|xs|] == xs;
  }

  /** Every emitted item is part of the contribution of some element. */
  lemma {:induction false} EmitSound<T, U>(xs: seq<T>, f: (seq<T>, T) -> seq<U>, k: nat) returns (i: nat, j: nat)
    requires k < |Emit(xs, f)|
    ensures i < |xs| && j < |f(xs[..i], xs[i])| && Emit(xs, f)[k] == f(xs[..i], xs[i])[j]
  {
    var n := |xs| - 1;
    var p := xs[..n];
    var e := Emit(p, f);
    if k < |e| {
      i, j := EmitSound(p, f, k);
      assert p[..i] == xs[..i] && p[i] == xs[i];
    } else {
      i, j := n, k - |e|;
    }
  }

  /** Every element's contribution is emitted. */
  lemma {:induction false} EmitComplete<T, U>(xs: seq<T>, f: (seq<T>, T) -> seq<U>, i: nat, j: nat) returns (k: nat)
    requires i < |xs| && j < |f(xs[..i], xs[i])|
    ensures k < |Emit(xs, f)| && Emit(xs, f)[k] == f(xs[..i], xs[i])[j]
  {
    var n := |xs| - 1;
    var p := xs[..n];
    if i < n {
      assert p[..i] == xs[..i] && p[i] == xs[i];
      k := EmitComplete(p, f, i, j);
    } else {
      k := |Emit(p, f)| + j;
    }
  }

  /** The index of the first element at or after `i` at which `stop` holds, given the elements
      before it, or `|xs|` when there is none. */
  function FirstStop<T>(xs: seq<T>, i: nat, stop: (seq<T>, T) -> bool): (e: nat)
    requires i <= |xs|
    ensures i <= e <= |xs|
    ensures e < |xs| ==> stop(xs[..e], xs[e])
    decreases |xs| - i
  {
    if i == |xs| then i
    else if stop(xs[..i], xs[i]) then i
    else FirstStop(xs, i + 1, stop)
  }

  /** No element between `i` and the first stop is a stop. */
  lemma {:induction false} FirstStopBefore<T>(xs: seq<T>, i: nat, stop: (seq<T>, T) -> bool, j: nat)
    requires i <= |xs| && i <= j < FirstStop(xs, i, stop)
    ensures !stop(xs[..j], xs[j])
    decreases j - i
  {
    if i < j {
      FirstStopBefore(xs, i + 1, stop, j);
    }
  }

  /** What follows the first stop does not move it. */
  lemma {:induction false} FirstStopAppend<T>(xs: seq<T>, rest: seq<T>, i: nat, stop: (seq<T>, T) -> bool)
    requires i <= |xs| && FirstStop(xs, i, stop) < |xs|
    ensures FirstStop(xs + rest, i, stop) == FirstStop(xs, i, stop)
    decreases |xs| - i
  {
    assert (xs + rest)[..i] == xs[..i] && (xs + rest)[i] == xs[i];
    if !stop(xs[..i], xs[i]) {
      FirstStopAppend(xs, rest, i + 1, stop);
    }
  }

  /** The first value `f` gives on the elements from index `k` on, looking at the elements
      before index `bound` only. */
  function FirstSome<T, R>(xs: seq<T>, k: nat, bound: nat, f: T -> Option<R>): Option<R>
    decreases bound - k
  {
    if k >= bound || k >= |xs| then None
    else if f(xs[k]).Some? then f(xs[k])
    else FirstSome(xs, k + 1, bound, f)
  }

  /** A value found is that of the first element, within the bound, on which `f` gives one. */
  lemma {:induction false} FirstSomeFound<T, R>(xs: seq<T>, k: nat, bound: nat, f: T -> Option<R>)
    returns (j: nat)
    requires FirstSome(xs, k, bound, f).Some?
    ensures k <= j < bound && j < |xs| && FirstSome(xs, k, bound, f) == f(xs[j])
    ensures forall i :: k <= i < j ==> f(xs[i]).None?
    decreases bound - k
  {
    if f(xs[k]).Some? {
      j := k;
    } else {
      j := FirstSomeFound(xs, k + 1, bound, f);
    }
  }

  /** Nothing is found when `f` gives nothing on any element within the bound. */
  lemma {:induction false} FirstSomeNone<T, R>(xs: seq<T>, k: nat, bound: nat, f: T -> Option<R>)
    requires FirstSome(xs, k, bound, f).None?
    ensures forall i :: k <= i < bound && i < |xs| ==> f(xs[i]).None?
    decreases bound - k
  {
    if k < bound && k < |xs| {
      FirstSomeNone(xs, k + 1, bound, f);
    }
  }

  /** Elements at or beyond the bound are never looked at. */
  lemma {:induction false} FirstSomePrefix<T, R>(xs: seq<T>, m: nat, k: nat, bound: nat, f: T -> Option<R>)
    requires bound <= m <= |xs|
    ensures FirstSome(xs[..m], k, bound, f) == FirstSome(xs, k, bound, f)
    decreases bound - k
  {
    if k < bound {
      assert xs[..m][k] == xs[k];
      FirstSomePrefix(xs, m, k + 1, bound, f);
    }
  }
}
