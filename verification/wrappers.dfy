/** Failure-compatible wrappers used throughout the model: an absent value
    (Java `null` / `Optional.empty()`) and a computation that either succeeds
    or raises the exception the service would throw. */
module Wrappers {

  datatype Option<+T> = None | Some(value: T) {

    predicate IsFailure() {
      None?
    }

    function PropagateFailure<U>(): Option<U>
      requires None?
    {
      None
    }

    function Extract(): T
      requires Some?
    {
      value
    }

    /** The value, or a failure with `error` when absent. */
    function OrFail<E>(error: E): Result<T, E> {
      match this
      case Some(v) => Success(v)
      case None => Failure(error)
    }

    /** The value, or `default` when absent (Java `Optional.orElse`). */
    function GetOr(default: T): T {
      match this
      case Some(v) => v
      case None => default
    }
  }

  /** A result that carries either a value or the error the source raises. */
  datatype Result<+R, +E> = Success(value: R) | Failure(error: E) {

    predicate IsFailure() {
      Failure?
    }

    function PropagateFailure<U>(): Result<U, E>
      requires Failure?
    {
      Failure(this.error)
    }

    function Extract(): R
      requires Success?
    {
      value
    }
  }

  datatype OutcomeResult<+E> = Pass' | Fail'(error: E) {

    predicate IsFailure() {
      Fail'?
    }

    function PropagateFailure<U>(): Result<U, E>
      requires IsFailure()
    {
      Failure(this.error)
    }
  }

  /** A loop that stops at the first failing step: every value when all
      steps succeed, otherwise the error of the first step that fails. */
  function Collect<T, E>(rs: seq<Result<T, E>>): (r: Result<seq<T>, E>)
    ensures r.Success? <==> forall i :: 0 <= i < |rs| ==> rs[i].Success?
    ensures r.Success? ==> |r.value| == |rs| && forall i :: 0 <= i < |rs| ==> rs[i] == Success(r.value[i])
    ensures r.Failure? ==>
      exists i :: 0 <= i < |rs| && rs[i] == Failure(r.error) && (forall j :: 0 <= j < i ==> rs[j].Success?)
  {
    if |rs| == 0 then Success([])
    else
      var n := |rs| - 1;
      var init := Collect(rs[..n]);
      assert forall i :: 0 <= i < n ==> rs[..n][i] == rs[i];
      if init.Failure? then Failure(init.error)
      else if rs[n].Failure? then
        assert forall j :: 0 <= j < n ==> rs[j].Success?;
        Failure(rs[n].error)
      else Success(init.value + [rs[n].value])
  }

  /** f applied to every element, in order. */
  function Map<A, B>(xs: seq<A>, f: A -> B): (r: seq<B>)
    ensures |r| == |xs| && forall i :: 0 <= i < |xs| ==> r[i] == f(xs[i])
  {
    seq(|xs|, i requires 0 <= i < |xs| => f(xs[i]))
  }

  lemma MapAppend<A, B>(xs: seq<A>, ys: seq<A>, f: A -> B)
    ensures Map(xs + ys, f) == Map(xs, f) + Map(ys, f)
  {
    assert forall i :: 0 <= i < |xs| ==> (xs + ys)[i] == xs[i];
    assert forall i :: 0 <= i < |ys| ==> (xs + ys)[|xs| + i] == ys[i];
  }

  /** Running two loops one after the other is running the loop over the
      joined steps: the first run's error wins, then the second's. */
  lemma CollectAppend<T, E>(xs: seq<Result<T, E>>, ys: seq<Result<T, E>>)
    ensures Collect(xs + ys) ==
      if Collect(xs).Failure? then Failure(Collect(xs).error)
      else if Collect(ys).Failure? then Failure(Collect(ys).error)
      else Success(Collect(xs).value + Collect(ys).value)
  {
    var r, rx, ry := Collect(xs + ys), Collect(xs), Collect(ys);
    assert forall i :: 0 <= i < |xs| ==> (xs + ys)[i] == xs[i];
    assert forall i :: 0 <= i < |ys| ==> (xs + ys)[|xs| + i] == ys[i];
    if rx.Failure? {
      var i :| 0 <= i < |xs| && xs[i] == Failure(rx.error) && (forall j :: 0 <= j < i ==> xs[j].Success?);
      var k :| 0 <= k < |xs + ys| && (xs + ys)[k] == Failure(r.error) && (forall j :: 0 <= j < k ==> (xs + ys)[j].Success?);
      assert (xs + ys)[i].Failure?;
      assert k <= i;
      assert k == i;
    } else if ry.Failure? {
      var i :| 0 <= i < |ys| && ys[i] == Failure(ry.error) && (forall j :: 0 <= j < i ==> ys[j].Success?);
      assert (xs + ys)[|xs| + i].Failure?;
      var k :| 0 <= k < |xs + ys| && (xs + ys)[k] == Failure(r.error) && (forall j :: 0 <= j < k ==> (xs + ys)[j].Success?);
      assert k >= |xs|;
      assert ys[k - |xs|].Failure?;
      assert k == |xs| + i;
    } else {
      assert r.value == rx.value + ry.value;
    }
  }

  /** Guard that fails with `error` unless `condition` holds, for use with `:-`. */
  function Need<E>(condition: bool, error: E): OutcomeResult<E> {
    if condition then Pass' else Fail'(error)
  }
}
