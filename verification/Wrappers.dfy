/** Values that may be absent, and answers that may be errors. */
module Wrappers {

  datatype Option<+T> = None | Some(value: T)

  datatype Result<+T, +E> = Ok(value: T) | Err(error: E)

  /** One check of an operation and the error that it answers with. */
  datatype Guard<E> = Guard(holds: bool, error: E)

  predicate FirstFailing<E>(guards: seq<Guard<E>>, k: int) {
    0 <= k < |guards| && !guards[k].holds && forall j :: 0 <= j < k ==> guards[j].holds
  }

  /** `result` is the error of the first check that fails, and no error if all pass. */
  ghost predicate Answers<T, E>(guards: seq<Guard<E>>, result: Result<T, E>) {
    && (result.Ok? <==> forall k :: 0 <= k < |guards| ==> guards[k].holds)
    && (forall k :: FirstFailing(guards, k) ==> result.Err? && result.error == guards[k].error)
  }
}
