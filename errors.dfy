/** The ways the inference path can fail, and the result type that carries
    them. */
module Errors {

  datatype Option<+T> = None | Some(value: T)

  /** The calls into the trained artifacts, any of which may raise. */
  datatype Call = Transform | FeatureNamesOut | Predict | InverseTransform

  datatype Error =
    | MissingColumn(name: string)            // selecting a column the frame lacks
    | ShapeMismatch(values: nat, names: nat) // a row and its column names differ in length
    | DuplicateLabels                        // reindexing a frame whose column names repeat
    | Raised(call: Call)                     // a trained artifact rejected its input

  datatype Result<+T> = Ok(value: T) | Err(error: Error) {
    predicate IsFailure() { Err? }
    function PropagateFailure<U>(): Result<U> requires Err? { Err(error) }
    function Extract(): T requires Ok? { value }
  }

  /** The value an artifact call returned, or the call that raised. */
  function Returned<T>(o: Option<T>, call: Call): (r: Result<T>)
    ensures r.Ok? <==> o.Some?
    ensures r.Ok? ==> r.value == o.value
    ensures r.Err? ==> r.error == Raised(call)
  {
    match o
    case Some(v) => Ok(v)
    case None => Err(Raised(call))
  }
}
