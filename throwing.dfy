/** JavaScript's `array.map(f)` when `f` may throw: the results in order, or
    the exception of the first element whose callback throws (the later
    elements are then never visited). */
module Throwing {
  import opened Wrappers

  function MapOrThrow<A, B, E>(f: A -> Result<B, E>, xs: seq<A>): (r: Result<seq<B>, E>)
    ensures r.Ok? <==> forall k :: 0 <= k < |xs| ==> f(xs[k]).Ok?
    ensures r.Ok? ==> |r.value| == |xs| &&
                      forall k :: 0 <= k < |xs| ==> f(xs[k]) == Ok(r.value[k])
  {
    if xs == [] then Ok([])
    else
      var n := |xs| - 1;
      assert forall k :: 0 <= k < n ==> xs[..n][k] == xs[k];
      match MapOrThrow(f, xs[..n])
      case Err(e) => Err(e)
      case Ok(ys) =>
        match f(xs[n])
        case Err(e) => Err(e)
        case Ok(y) =>
          assert forall k :: 0 <= k < n ==> (ys + [y])[k] == ys[k];
          Ok(ys + [y])
  }

  /** The exception is that of the first element whose callback throws. */
  lemma {:induction false} MapOrThrowFailsAt<A, B, E>(f: A -> Result<B, E>, xs: seq<A>, k: int)
    requires 0 <= k < |xs| && f(xs[k]).Err?
    requires forall j :: 0 <= j < k ==> f(xs[j]).Ok?
    ensures MapOrThrow(f, xs) == Err(f(xs[k]).error)
  {
    var n := |xs| - 1;
    var init := xs[..n];
    if k < n {
      assert init[k] == xs[k];
      MapOrThrowFailsAt(f, init, k);
    } else {
      assert forall j :: 0 <= j < n ==> init[j] == xs[j];
      assert MapOrThrow(f, init).Ok?;
    }
  }

  /** Mapping one more element extends the results, or throws its exception. */
  lemma MapOrThrowSnoc<A, B, E>(f: A -> Result<B, E>, xs: seq<A>, x: A)
    ensures MapOrThrow(f, xs + [x]) ==
      match MapOrThrow(f, xs)
      case Err(e) => Err(e)
      case Ok(ys) => (match f(x) case Err(e) => Err(e) case Ok(y) => Ok(ys + [y]))
  {
    assert (xs + [x])[..|xs|] == xs;
  }
}
