/** The result record shared by the connector, the extractor and the
    preprocessor (src/models/response_model.py), the Option type it uses, and
    the exceptions a pipeline step lets escape instead of returning a record. */
module Responses {

  datatype Option<+T> = None | Some(value: T)

  /** `ResponseModel(is_success, message, data)`: a success flag, an optional
      human-readable message and an optional payload. */
  datatype Response<+T> = Response(isSuccess: bool, message: Option<string>, data: Option<T>)

  /** The shape every failure return of the pipeline takes: `is_success=False`,
      a message and no data. */
  function Failure<T>(message: string): Response<T>
  {
    Response(false, Some(message), None)
  }

  /** An exception raised by pandas or by a dict lookup that no `except`
      clause of the pipeline catches:
      - `KeyError(key)`: a missing column or dictionary key;
      - `UnparsableTimestamp`: `pd.to_datetime` cannot read a time value;
      - `TimeColumnNotUnique`: two columns are labelled `datetime`, so
        `df["datetime"]` is a frame `pd.to_datetime` cannot assemble;
      - `DuplicateTimestamps`: the join cannot align an index with repeated
        labels;
      - `NoObjectsToConcatenate`: `pd.concat` of an empty list. */
  datatype Exception =
    | KeyError(key: string)
    | UnparsableTimestamp
    | TimeColumnNotUnique
    | DuplicateTimestamps
    | NoObjectsToConcatenate

  /** A step that either yields a value or raises. */
  datatype Result<+T> = Ok(value: T) | Err(exception: Exception)

  /** What a call ends with: a returned record, or an exception that escapes. */
  datatype Outcome<+T> = Returned(response: Response<T>) | Raised(exception: Exception)

  /** Applies `f` to each element in order; the first element on which `f`
      raises ends the run with that exception. */
  function Collect<T, U>(f: T -> Result<U>, xs: seq<T>): (r: Result<seq<U>>)
    ensures r.Ok? ==> |r.value| == |xs|
    ensures r.Ok? ==> forall i :: 0 <= i < |xs| ==> f(xs[i]) == Ok(r.value[i])
    ensures r.Err? ==> exists k :: (
      && 0 <= k < |xs|
      && (forall i :: 0 <= i < k ==> f(xs[i]).Ok?)
      && f(xs[k]) == Err(r.exception))
  {
    if xs == [] then Ok([])
    else
      var n := |xs| - 1;
      var front := Collect(f, xs[..n]);
      assert forall i :: 0 <= i < n ==> xs[..n][i] == xs[i];
      if front.Err? then front
      else if f(xs[n]).Err? then Err(f(xs[n]).exception)
      else
        assert forall i :: 0 <= i < n ==> (front.value + [f(xs[n]).value])[i] == front.value[i];
        Ok(front.value + [f(xs[n]).value])
  }

  /** Once an element raises after an all-`Ok` prefix, the whole run raises
      that element's exception, whatever follows it. */
  lemma {:induction false} CollectStops<T, U>(f: T -> Result<U>, xs: seq<T>, i: nat)
    requires i < |xs|
    requires Collect(f, xs[..i]).Ok?
    requires f(xs[i]).Err?
    ensures Collect(f, xs) == Err(f(xs[i]).exception)
    decreases |xs|
  {
    var n := |xs| - 1;
    if i == n {
      assert xs[..n] == xs[..i];
    } else {
      assert xs[..n][..i] == xs[..i];
      assert xs[..n][i] == xs[i];
      CollectStops(f, xs[..n], i);
    }
  }
}
