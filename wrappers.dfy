/** Option and Result: Python's `None` and raised exceptions, made explicit. */
module Wrappers {

  datatype Option<+T> = None | Some(value: T)

  datatype Result<+T, +E> = Success(value: T) | Failure(error: E)

  /** Apply `f` to each element in order, stopping at the first failure
      (a Python comprehension or loop whose body may raise). */
  function MapAll<A, B, E>(xs: seq<A>, f: A -> Result<B, E>): Result<seq<B>, E>
  {
    if xs == [] then Success([])
    else
      match MapAll(xs[..|xs| - 1], f)
      case Failure(e) => Failure(e)
      case Success(ys) =>
        match f(xs[|xs| - 1])
        case Failure(e) => Failure(e)
        case Success(y) => Success(ys + [y])
  }

  /** Success exactly when every element succeeds, with one result per element, in order. */
  lemma {:induction false} MapAllSuccess<A, B, E>(xs: seq<A>, f: A -> Result<B, E>)
    ensures MapAll(xs, f).Success? <==> forall i :: 0 <= i < |xs| ==> f(xs[i]).Success?
    ensures MapAll(xs, f).Success? ==>
              && |MapAll(xs, f).value| == |xs|
              && forall i :: 0 <= i < |xs| ==> MapAll(xs, f).value[i] == f(xs[i]).value
  {
    if xs != [] {
      var n := |xs| - 1;
      MapAllSuccess(xs[..n], f);
      assert forall i :: 0 <= i < n ==> xs[..n][i] == xs[i];
    }
  }

  /** A failure is that of the first element that fails. */
  lemma {:induction false} MapAllFailure<A, B, E>(xs: seq<A>, f: A -> Result<B, E>)
    requires MapAll(xs, f).Failure?
    ensures exists k :: 0 <= k < |xs| && f(xs[k]) == Failure(MapAll(xs, f).error)
                        && forall i :: 0 <= i < k ==> f(xs[i]).Success?
  {
    var n := |xs| - 1;
    var init := xs[..n];
    assert forall i :: 0 <= i < n ==> init[i] == xs[i];
    if MapAll(init, f).Failure? {
      MapAllFailure(init, f);
      var k :| 0 <= k < n && f(init[k]) == Failure(MapAll(init, f).error)
               && forall i :: 0 <= i < k ==> f(init[i]).Success?;
      assert f(xs[k]) == Failure(MapAll(xs, f).error);
    } else {
      MapAllSuccess(init, f);
    }
  }

  /** Once a prefix fails, the whole fails the same way. */
  lemma {:induction false} MapAllFailureStays<A, B, E>(xs: seq<A>, n: nat, f: A -> Result<B, E>)
    requires 0 < n <= |xs| && MapAll(xs[..n], f).Failure?
    ensures MapAll(xs, f) == MapAll(xs[..n], f)
  {
    if n < |xs| {
      assert xs[..|xs| - 1][..n] == xs[..n];
      MapAllFailureStays(xs[..|xs| - 1], n, f);
    } else {
      assert xs[..n] == xs;
    }
  }
}
