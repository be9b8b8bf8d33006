/** Option and Result, used for Python's `None` and for raised exceptions. */
module Wrappers {

  datatype Option<+T> = None | Some(value: T) {
    function GetOr(default: T): T {
      match this
      case Some(v) => v
      case None => default
    }
  }

  datatype Result<+R, +E> = Success(value: R) | Failure(error: E) {
    predicate IsFailure() {
      Failure?
    }

    function PropagateFailure<U>(): Result<U, E>
      requires Failure?
    {
      Failure(error)
    }

    function Extract(): R
      requires Success?
    {
      value
    }
  }

  /** The values of a run of results, or the first failure among them. */
  function Sequence<R, E>(rs: seq<Result<R, E>>): Result<seq<R>, E> {
    if rs == [] then Success([])
    else
      var init :- Sequence(rs[..|rs| - 1]);
      var last :- rs[|rs| - 1];
      Success(init + [last])
  }

  /** One more result: its value is appended, or its failure wins. */
  lemma SequenceSnoc<R, E>(rs: seq<Result<R, E>>, r: Result<R, E>)
    ensures Sequence(rs).Success? && r.Success? ==> Sequence(rs + [r]) == Success(Sequence(rs).value + [r.value])
    ensures Sequence(rs).Success? && r.Failure? ==> Sequence(rs + [r]) == Failure(r.error)
  {
    assert (rs + [r])[..|rs|] == rs;
  }

  /** A failing prefix decides the whole run. */
  lemma {:induction false} SequencePersists<R, E>(rs: seq<Result<R, E>>, n: nat)
    requires n <= |rs|
    requires Sequence(rs[..n]).Failure?
    ensures Sequence(rs) == Sequence(rs[..n])
    decreases |rs| - n
  {
    if n < |rs| {
      assert rs[..n + 1][..n] == rs[..n];
      SequencePersists(rs, n + 1);
    } else {
      assert rs[..n] == rs;
    }
  }

  /** The run succeeds iff every result does, and then holds their values
      in order. */
  lemma {:induction false} SequenceSuccess<R, E>(rs: seq<Result<R, E>>)
    ensures Sequence(rs).Success? <==> forall i :: 0 <= i < |rs| ==> rs[i].Success?
    ensures Sequence(rs).Success? ==>
              |Sequence(rs).value| == |rs| && forall i :: 0 <= i < |rs| ==> Sequence(rs).value[i] == rs[i].value
  {
    if rs != [] {
      var init := rs[..|rs| - 1];
      SequenceSuccess(init);
      assert forall i :: 0 <= i < |init| ==> init[i] == rs[i];
    }
  }

  /** A failing run fails with the first failure. */
  lemma {:induction false} SequenceFirstFailure<R, E>(rs: seq<Result<R, E>>)
    requires Sequence(rs).Failure?
    ensures exists i :: 0 <= i < |rs| && rs[i] == Failure(Sequence(rs).error)
                        && forall j :: 0 <= j < i ==> rs[j].Success?
  {
    var init := rs[..|rs| - 1];
    assert forall i :: 0 <= i < |init| ==> init[i] == rs[i];
    if Sequence(init).Failure? {
      SequenceFirstFailure(init);
      var i :| 0 <= i < |init| && init[i] == Failure(Sequence(init).error)
               && forall j :: 0 <= j < i ==> init[j].Success?;
      assert rs[i] == Failure(Sequence(rs).error);
    } else {
      SequenceSuccess(init);
      assert rs[|rs| - 1] == Failure(Sequence(rs).error);
    }
  }
}
