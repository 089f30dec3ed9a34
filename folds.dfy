/**
 * The two loops of the scrapers' `main` that run a fallible step over a list: one gathers the
 * rows of every tournament and gives up at the first failure, the other writes region after
 * region and keeps what was written before the failure.
 */
module Folds {
  import opened Wrappers

  /** The items `f` gives for every element in turn, or the first failure. */
  function Gather<T, R, E>(xs: seq<T>, f: T -> Result<seq<R>, E>): Result<seq<R>, E>
    decreases |xs|
  {
    if xs == [] then Success([])
    else
      var n := |xs| - 1;
      match Gather(xs[..n], f)
      case Failure(e) => Failure(e)
      case Success(items) =>
        match f(xs[n])
        case Failure(e) => Failure(e)
        case Success(more) => Success(items + more)
  }

  /** One more element appends its items, or fails. */
  lemma GatherStep<T, R, E>(xs: seq<T>, f: T -> Result<seq<R>, E>, i: nat)
    requires i < |xs| && Gather(xs[..i], f).Success?
    ensures Gather(xs[..i + 1], f) ==
              match f(xs[i])
              case Failure(e) => Failure(e)
              case Success(more) => Success(Gather(xs[..i], f).value + more)
  {
    assert xs[..i + 1][..i] == xs[..i];
  }

  /** A failure is final: the elements after it are not looked at. */
  lemma {:induction false} GatherFailure<T, R, E>(xs: seq<T>, f: T -> Result<seq<R>, E>, i: nat)
    requires i <= |xs| && Gather(xs[..i], f).Failure?
    ensures Gather(xs, f) == Gather(xs[..i], f)
    decreases |xs| - i
  {
    if i < |xs| {
      assert xs[..i + 1][..i] == xs[..i];
      GatherFailure(xs, f, i + 1);
    } else {
      assert xs[..i] == xs;
    }
  }

  /** Every gathered item is one of the items of some element. */
  lemma {:induction false} GatherSound<T, R, E>(xs: seq<T>, f: T -> Result<seq<R>, E>, k: nat)
    returns (i: nat, j: nat)
    requires Gather(xs, f).Success? && k < |Gather(xs, f).value|
    ensures i < |xs| && f(xs[i]).Success? && j < |f(xs[i]).value|
    ensures Gather(xs, f).value[k] == f(xs[i]).value[j]
  {
    var n := |xs| - 1;
    var p := xs[..n];
    var items := Gather(p, f).value;
    if k < |items| {
      i, j := GatherSound(p, f, k);
      assert p[i] == xs[i];
    } else {
      i, j := n, k - |items|;
    }
  }

  /** A gathering that succeeds succeeded on every element, and holds all their items. */
  lemma {:induction false} GatherComplete<T, R, E>(xs: seq<T>, f: T -> Result<seq<R>, E>, i: nat, j: nat)
    returns (k: nat)
    requires Gather(xs, f).Success? && i < |xs|
    ensures f(xs[i]).Success?
    ensures j < |f(xs[i]).value| ==> k < |Gather(xs, f).value| && Gather(xs, f).value[k] == f(xs[i]).value[j]
  {
    var n := |xs| - 1;
    var p := xs[..n];
    if i < n {
      assert p[i] == xs[i];
      k := GatherComplete(p, f, i, j);
    } else {
      k := |Gather(p, f).value| + j;
    }
  }

  /** A gathering that fails fails with the error of the first element that fails. */
  lemma {:induction false} GatherFailed<T, R, E>(xs: seq<T>, f: T -> Result<seq<R>, E>) returns (i: nat)
    requires Gather(xs, f).Failure?
    ensures i < |xs| && f(xs[i]) == Failure(Gather(xs, f).error)
    ensures forall j :: 0 <= j < i ==> f(xs[j]).Success?
  {
    var n := |xs| - 1;
    var p := xs[..n];
    if Gather(p, f).Failure? {
      i := GatherFailed(p, f);
      assert forall j :: 0 <= j < i ==> p[j] == xs[j];
    } else {
      i := n;
      forall j | 0 <= j < n ensures f(xs[j]).Success? {
        var _ := GatherComplete(p, f, j, 0);
        assert p[j] == xs[j];
      }
    }
  }

  /** The results of the steps taken before a failure, and that failure, if any. */
  datatype Partial<R, E> = Partial(done: seq<R>, failure: Option<E>)

  /** `f` on every element in turn until it first fails. */
  function Until<T, R, E>(xs: seq<T>, f: T -> Result<R, E>): (p: Partial<R, E>)
    ensures |p.done| <= |xs|
    ensures p.failure.None? ==> |p.done| == |xs|
    decreases |xs|
  {
    if xs == [] then Partial([], None)
    else
      var n := |xs| - 1;
      var p := Until(xs[..n], f);
      if p.failure.Some? then p
      else
        match f(xs[n])
        case Failure(e) => Partial(p.done, Some(e))
        case Success(r) => Partial(p.done + [r], None)
  }

  /** One more step appends its result, or records its failure. */
  lemma UntilStep<T, R, E>(xs: seq<T>, f: T -> Result<R, E>, i: nat)
    requires i < |xs| && Until(xs[..i], f).failure.None?
    ensures Until(xs[..i + 1], f) ==
              match f(xs[i])
              case Failure(e) => Partial(Until(xs[..i], f).done, Some(e))
              case Success(r) => Partial(Until(xs[..i], f).done + [r], None)
  {
    assert xs[..i + 1][..i] == xs[..i];
  }

  /** Once a step has failed, no further step is taken. */
  lemma {:induction false} UntilFailure<T, R, E>(xs: seq<T>, f: T -> Result<R, E>, i: nat)
    requires i <= |xs| && Until(xs[..i], f).failure.Some?
    ensures Until(xs, f) == Until(xs[..i], f)
    decreases |xs| - i
  {
    if i < |xs| {
      assert xs[..i + 1][..i] == xs[..i];
      UntilFailure(xs, f, i + 1);
    } else {
      assert xs[..i] == xs;
    }
  }

  /** The k-th result is that of the k-th element. */
  lemma {:induction false} UntilDone<T, R, E>(xs: seq<T>, f: T -> Result<R, E>, k: nat)
    requires k < |Until(xs, f).done|
    ensures f(xs[k]) == Success(Until(xs, f).done[k])
  {
    var n := |xs| - 1;
    var p := Until(xs[..n], f);
    if k < |p.done| {
      UntilDone(xs[..n], f, k);
      assert xs[..n][k] == xs[k];
    }
  }

  /** A failure is that of the element right after the last result. */
  lemma {:induction false} UntilStopped<T, R, E>(xs: seq<T>, f: T -> Result<R, E>)
    requires Until(xs, f).failure.Some?
    ensures |Until(xs, f).done| < |xs|
    ensures f(xs[|Until(xs, f).done|]) == Failure(Until(xs, f).failure.value)
  {
    var n := |xs| - 1;
    var p := Until(xs[..n], f);
    if p.failure.Some? {
      UntilStopped(xs[..n], f);
      assert xs[..n][|p.done|] == xs[|p.done|];
    }
  }
}
