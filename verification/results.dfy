/** Failure values shared by the LocIT model. Every exception the program raises on
    a path this model covers becomes an `Error`, and an operation that can raise
    returns a `Result` (usable with `:-`). */
module Results {

  /** The failures raised along the modelled paths. */
  datatype Error =
    | EmptyPointSet                  // check_X_y: an array without rows
    | InconsistentLength             // check_X_y: label count differs from row count
    | IndexOutOfBounds               // numpy IndexError on a neighbour-table column
    | InvalidSelection(mode: string) // ValueError for an unknown train_selection
    | TooFewPoints                   // BallTree.query asked for more neighbours than points
    | TooFewFolds                    // GridSearchCV's stratified 3-fold split: fewer rows per class than folds

  /** A possibly omitted argument (Python's `None` default). */
  datatype Option<+T> = None | Some(value: T)

  datatype Result<+T> = Ok(value: T) | Err(error: Error) {

    predicate IsFailure() {
      Err?
    }

    function PropagateFailure<U>(): Result<U>
      requires Err?
    {
      Err(error)
    }

    function Extract(): T
      requires Ok?
    {
      value
    }
  }

  /** A loop whose iterations may raise: the values of all iterations, or the
      error of the first one that raises. */
  function Collect<T>(rs: seq<Result<T>>): (r: Result<seq<T>>)
    ensures r.Ok? <==> forall i :: 0 <= i < |rs| ==> rs[i].Ok?
    ensures r.Ok? ==> |r.value| == |rs| && forall i :: 0 <= i < |rs| ==> rs[i] == Ok(r.value[i])
    ensures forall i :: 0 <= i < |rs| && rs[i].Err? && (forall j :: 0 <= j < i ==> rs[j].Ok?) ==>
              r == Err(rs[i].error)
  {
    if |rs| == 0 then Ok([])
    else
      match rs[0]
      case Err(e) => Err(e)
      case Ok(v) =>
        match Collect(rs[1..])
        case Err(e) => Err(e)
        case Ok(vs) => Ok([v] + vs)
  }
}
