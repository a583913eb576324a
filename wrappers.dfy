/** Option and Result, the two failure-compatible wrappers the rest of the model returns. */
module Wrappers {

  datatype Option<+T> = None | Some(value: T) {
    predicate IsFailure() { None? }

    function PropagateFailure<U>(): Option<U>
      requires None?
    {
      None
    }

    function Extract(): T
      requires Some?
    {
      value
    }
  }

  /** Rust's `Result<T, E>`: `Ok(value)` or `Err(error)`. */
  datatype Result<+T, +E> = Ok(value: T) | Err(error: E) {
    predicate IsFailure() { Err? }

    function PropagateFailure<U>(): Result<U, E>
      requires Err?
    {
      Err(error)
    }

    function Extract(): T
      requires Ok?
    {
      value
    }
  }

  /** A fallible conversion applied to each element in order, stopping at the first failure: the
      loop `for x in xs { ys.push(f(x)?); }`. */
  function MapResult<T, U, E>(xs: seq<T>, f: T --> Result<U, E>): (r: Result<seq<U>, E>)
    requires forall i | 0 <= i < |xs| :: f.requires(xs[i])
    ensures r.Ok? ==> |r.value| == |xs|
    decreases |xs|
  {
    if xs == [] then
      Ok([])
    else
      var n := |xs| - 1;
      assert forall i | 0 <= i < n :: xs[..n][i] == xs[i];
      var init :- MapResult(xs[..n], f);
      var last :- f(xs[n]);
      Ok(init + [last])
  }

  /** The conversion succeeds exactly when every element converts, and then holds the converted
      elements in order. */
  lemma {:induction false} MapResultOk<T, U, E>(xs: seq<T>, f: T --> Result<U, E>)
    requires forall i | 0 <= i < |xs| :: f.requires(xs[i])
    ensures MapResult(xs, f).Ok? <==> forall i | 0 <= i < |xs| :: f(xs[i]).Ok?
    ensures MapResult(xs, f).Ok? ==>
      forall i | 0 <= i < |xs| :: f(xs[i]) == Ok(MapResult(xs, f).value[i])
    decreases |xs|
  {
    if xs != [] {
      var n := |xs| - 1;
      var prefix := xs[..n];
      assert forall j | 0 <= j < n :: prefix[j] == xs[j];
      MapResultOk(prefix, f);
      var init := MapResult(prefix, f);
      if init.Err? {
        var j :| 0 <= j < n && f(prefix[j]).Err?;
        assert f(xs[j]).Err?;
      } else if f(xs[n]).Ok? {
        var all := init.value + [f(xs[n]).value];
        assert MapResult(xs, f) == Ok(all);
        assert forall j | 0 <= j < n :: all[j] == init.value[j];
      }
    }
  }

  /** A failure is the failure of the first element that does not convert. */
  lemma {:induction false} MapResultFirstError<T, U, E>(xs: seq<T>, f: T --> Result<U, E>) returns (i: nat)
    requires forall i | 0 <= i < |xs| :: f.requires(xs[i])
    requires MapResult(xs, f).Err?
    ensures i < |xs| && f(xs[i]) == Err(MapResult(xs, f).error)
    ensures forall j | 0 <= j < i :: f(xs[j]).Ok?
    decreases |xs|
  {
    var n := |xs| - 1;
    var prefix := xs[..n];
    assert forall j | 0 <= j < n :: prefix[j] == xs[j];
    if MapResult(prefix, f).Err? {
      i := MapResultFirstError(prefix, f);
    } else {
      MapResultOk(prefix, f);
      i := n;
    }
  }

  /** Converting one more element after a prefix that converts: a failure ends the whole
      sequence with that element's error, a success appends the converted element. */
  lemma MapResultStep<T, U, E>(xs: seq<T>, f: T --> Result<U, E>, i: nat)
    requires i < |xs| && forall k | 0 <= k < |xs| :: f.requires(xs[k])
    requires MapResult(xs[..i], f).Ok?
    ensures f(xs[i]).Err? ==> MapResult(xs, f) == Err(f(xs[i]).error)
    ensures f(xs[i]).Ok? ==> MapResult(xs[..i + 1], f) == Ok(MapResult(xs[..i], f).value + [f(xs[i]).value])
  {
    assert xs[..i + 1][..i] == xs[..i];
    if f(xs[i]).Err? {
      MapResultErrorSticks(xs, f, i + 1);
    }
  }

  /** Once a prefix fails, the whole sequence fails with the same error. */
  lemma {:induction false} MapResultErrorSticks<T, U, E>(xs: seq<T>, f: T --> Result<U, E>, i: nat)
    requires i <= |xs| && forall k | 0 <= k < |xs| :: f.requires(xs[k])
    requires MapResult(xs[..i], f).Err?
    ensures MapResult(xs, f) == MapResult(xs[..i], f)
    decreases |xs| - i
  {
    if i < |xs| {
      assert xs[..i + 1][..i] == xs[..i];
      MapResultErrorSticks(xs, f, i + 1);
    } else {
      assert xs[..i] == xs;
    }
  }
}
