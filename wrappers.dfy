/** Failure-compatible wrappers shared by both scripts' models. */
module Wrappers {

  /** A value that may be absent. As `Num` below it also stands for a float that may be NaN. */
  datatype Option<+T> = None | Some(value: T) {
    function GetOr(default: T): T {
      match this
      case Some(v) => v
      case None => default
    }
  }

  /** The outcome of an operation that can raise: a value, or the exception it raised. */
  datatype Result<+T, +E> = Ok(value: T) | Err(error: E)

  /** A Python float that is finite (`Some`) or NaN (`None`). */
  type Num = Option<real>

  /**
    Applying `f` to every element in order, as a loop that stops at the first
    exception does: the results of all of them, or the first error.
  */
  function TryAll<A, B, E>(xs: seq<A>, f: A -> Result<B, E>): Result<seq<B>, E> {
    if xs == [] then Ok([])
    else
      match f(xs[0])
      case Err(e) => Err(e)
      case Ok(y) =>
        match TryAll(xs[1..], f)
        case Err(e) => Err(e)
        case Ok(ys) => Ok([y] + ys)
  }

  /** `ys` placed in front of the values of a result; an error stays as it is. */
  function Prepend<B, E>(ys: seq<B>, r: Result<seq<B>, E>): Result<seq<B>, E> {
    match r
    case Err(e) => Err(e)
    case Ok(zs) => Ok(ys + zs)
  }

  /** `TryAll` succeeds exactly when `f` succeeds on every element, and then maps them one for one. */
  lemma {:induction false} TryAllMeaning<A, B, E>(xs: seq<A>, f: A -> Result<B, E>)
    ensures TryAll(xs, f).Ok? <==> forall i :: 0 <= i < |xs| ==> f(xs[i]).Ok?
    ensures TryAll(xs, f).Ok? ==>
      && |TryAll(xs, f).value| == |xs|
      && forall i :: 0 <= i < |xs| ==> TryAll(xs, f).value[i] == f(xs[i]).value
  {
    if xs != [] {
      TryAllMeaning(xs[1..], f);
      assert forall i :: 1 <= i < |xs| ==> xs[1..][i - 1] == xs[i];
    }
  }

  /** When `f` fails somewhere, the error is the one at the first failing element. */
  lemma {:induction false} TryAllFirstError<A, B, E>(xs: seq<A>, f: A -> Result<B, E>, k: nat)
    requires k < |xs| && f(xs[k]).Err? && forall i :: 0 <= i < k ==> f(xs[i]).Ok?
    ensures TryAll(xs, f) == Err(f(xs[k]).error)
  {
    if k > 0 {
      assert forall i :: 0 <= i < k - 1 ==> xs[1..][i] == xs[i + 1];
      TryAllFirstError(xs[1..], f, k - 1);
    }
  }

  /** Splitting off the next element. */
  lemma TryAllStep<A, B, E>(xs: seq<A>, f: A -> Result<B, E>, k: nat)
    requires k < |xs|
    ensures TryAll(xs[k..], f) ==
      match f(xs[k])
      case Err(e) => Err(e)
      case Ok(y) => Prepend([y], TryAll(xs[k + 1..], f))
  {
    assert xs[k..][1..] == xs[k + 1..];
  }

  /**
    The loop behind `TryAll`: walks the elements in order, appending each
    result, and stops at the first error.
  */
  method TryEach<A, B, E>(xs: seq<A>, f: A -> Result<B, E>) returns (r: Result<seq<B>, E>)
    ensures r == TryAll(xs, f)
  {
    var done: seq<B> := [];
    var k := 0;
    assert xs[k..] == xs;
    PrependNothing(TryAll(xs, f));
    while k < |xs|
      invariant 0 <= k <= |xs|
      invariant TryAll(xs, f) == Prepend(done, TryAll(xs[k..], f))
      decreases |xs| - k
    {
      TryAllStep(xs, f, k);
      var y := f(xs[k]);
      if y.Err? {
        return Err(y.error);
      }
      PrependTwice(done, [y.value], TryAll(xs[k + 1..], f));
      done := done + [y.value];
      k := k + 1;
    }
    assert xs[k..] == [];
    assert done + [] == done;
    return Ok(done);
  }

  lemma PrependNothing<B, E>(r: Result<seq<B>, E>)
    ensures Prepend([], r) == r
  {
    if r.Ok? {
      assert [] + r.value == r.value;
    }
  }

  lemma PrependTwice<B, E>(a: seq<B>, b: seq<B>, r: Result<seq<B>, E>)
    ensures Prepend(a, Prepend(b, r)) == Prepend(a + b, r)
  {
    if r.Ok? {
      assert a + (b + r.value) == a + b + r.value;
    }
  }

  /** `[f(x) for x in xs if keep(f(x))]`. */
  function MapFilter<A, B>(xs: seq<A>, f: A -> B, keep: B -> bool): seq<B>
    decreases |xs|
  {
    if xs == [] then []
    else
      var n := |xs| - 1;
      MapFilter(xs[..n], f, keep) + (if keep(f(xs[n])) then [f(xs[n])] else [])
  }

  /** An element is in the result exactly when it is the image of some element and passes the test. */
  lemma {:induction false} MapFilterMeaning<A, B>(xs: seq<A>, f: A -> B, keep: B -> bool, y: B)
    ensures y in MapFilter(xs, f, keep) <==> exists i :: 0 <= i < |xs| && f(xs[i]) == y && keep(y)
    decreases |xs|
  {
    if xs != [] {
      var n := |xs| - 1;
      var init := xs[..n];
      MapFilterMeaning(init, f, keep, y);
      if y in MapFilter(init, f, keep) {
        var i :| 0 <= i < n && f(init[i]) == y && keep(y);
        assert init[i] == xs[i];
      }
      if exists i :: 0 <= i < |xs| && f(xs[i]) == y && keep(y) {
        var i :| 0 <= i < |xs| && f(xs[i]) == y && keep(y);
        if i < n {
          assert init[i] == xs[i];
        }
      }
    }
  }

  /** Taking one more element. */
  lemma MapFilterSnoc<A, B>(xs: seq<A>, x: A, f: A -> B, keep: B -> bool)
    ensures MapFilter(xs + [x], f, keep) == MapFilter(xs, f, keep) + (if keep(f(x)) then [f(x)] else [])
  {
    assert (xs + [x])[..|xs|] == xs;
  }

  /** `[y for x in xs for y in f(x)]`: the pieces of every element, one after the other. */
  function ConcatMap<A, B>(xs: seq<A>, f: A -> seq<B>): seq<B>
    decreases |xs|
  {
    if xs == [] then []
    else
      var n := |xs| - 1;
      ConcatMap(xs[..n], f) + f(xs[n])
  }

  /** An element is in the result exactly when it is in the piece of some element. */
  lemma {:induction false} ConcatMapMeaning<A, B>(xs: seq<A>, f: A -> seq<B>, y: B)
    ensures y in ConcatMap(xs, f) <==> exists k :: 0 <= k < |xs| && y in f(xs[k])
    decreases |xs|
  {
    if xs != [] {
      var n := |xs| - 1;
      var init := xs[..n];
      ConcatMapMeaning(init, f, y);
      if y in ConcatMap(init, f) {
        var k :| 0 <= k < n && y in f(init[k]);
        assert init[k] == xs[k];
      }
      if exists k :: 0 <= k < |xs| && y in f(xs[k]) {
        var k :| 0 <= k < |xs| && y in f(xs[k]);
        if k < n {
          assert init[k] == xs[k];
        }
      }
    }
  }

  lemma ConcatMapSnoc<A, B>(xs: seq<A>, x: A, f: A -> seq<B>)
    ensures ConcatMap(xs + [x], f) == ConcatMap(xs, f) + f(x)
  {
    assert (xs + [x])[..|xs|] == xs;
  }
}
