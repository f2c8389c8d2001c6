/** Results of operations that may raise. */
module Results {

  datatype Option<+T> = None | Some(value: T)

  datatype Result<+T, +E> = Ok(value: T) | Err(error: E)

  /** All values, or the first error. */
  function Collect<T, E>(results: seq<Result<T, E>>): Result<seq<T>, E> {
    if results == [] then Ok([])
    else
      var rest := Collect(results[1..]);
      if results[0].Err? then Err(results[0].error)
      else if rest.Err? then rest
      else Ok([results[0].value] + rest.value)
  }

  lemma {:induction false} CollectAll<T, E>(results: seq<Result<T, E>>)
    requires Collect(results).Ok?
    ensures |Collect(results).value| == |results|
    ensures forall i :: 0 <= i < |results| ==> results[i] == Ok(Collect(results).value[i])
  {
    if results != [] {
      CollectAll(results[1..]);
      forall i | 0 <= i < |results| ensures results[i] == Ok(Collect(results).value[i]) {
        if i > 0 { assert results[i] == results[1..][i - 1]; }
      }
    }
  }

  lemma {:induction false} CollectValues<T, E>(results: seq<Result<T, E>>, values: seq<T>)
    requires |values| == |results| && forall i :: 0 <= i < |results| ==> results[i] == Ok(values[i])
    ensures Collect(results) == Ok(values)
  {
    if results != [] {
      CollectValues(results[1..], values[1..]);
      assert [values[0]] + values[1..] == values;
    }
  }

  lemma {:induction false} CollectFirstError<T, E>(results: seq<Result<T, E>>, k: nat)
    requires k < |results| && results[k].Err? && forall i :: 0 <= i < k ==> results[i].Ok?
    ensures Collect(results) == Err(results[k].error)
  {
    if k > 0 { CollectFirstError(results[1..], k - 1); }
  }
}
