/** The two result carriers used throughout: an optional value, and a value or an error. */
module Wrappers {

  datatype Option<+T> = None | Some(value: T)

  datatype Result<+T, +E> = Ok(value: T) | Err(error: E) {

    predicate IsFailure() {
      Err?
    }

    function PropagateFailure<U>(): Result<U, E>
      requires Err?
    {
      Err(error)
    }

    function Extract(): T
      requires Ok?
    {
      value
    }
  }

  /** The values when there is no error, else the first error. */
  function Collect<T, E>(results: seq<Result<T, E>>): (r: Result<seq<T>, E>)
    ensures r.Ok? ==> |r.value| == |results|
  {
    if results == [] then Ok([])
    else
      var value :- results[0];
      var values :- Collect(results[1..]);
      Ok([value] + values)
  }

  lemma CollectOne<T, E>(result: Result<T, E>)
    ensures Collect([result]) == match result case Err(error) => Err(error) case Ok(value) => Ok([value])
  {
    assert [result][1..] == [];
    if result.Ok? {
      assert [result.value] + [] == [result.value];
    }
  }

  lemma {:induction false} CollectValues<T, E>(results: seq<Result<T, E>>)
    requires forall k :: 0 <= k < |results| ==> results[k].Ok?
    ensures Collect(results).Ok? && |Collect(results).value| == |results|
    ensures forall k :: 0 <= k < |results| ==> Collect(results).value[k] == results[k].value
  {
    if results != [] {
      CollectValues(results[1..]);
    }
  }

  lemma {:induction false} CollectError<T, E>(results: seq<Result<T, E>>, first: nat)
    requires first < |results| && results[first].Err?
    requires forall k :: 0 <= k < first ==> results[k].Ok?
    ensures Collect(results) == Err(results[first].error)
  {
    if first > 0 {
      assert results[0].Ok?;
      CollectError(results[1..], first - 1);
    }
  }
}
