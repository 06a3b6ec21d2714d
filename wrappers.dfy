/** Small helper datatypes shared by every module of the model. */
module Wrappers {

  /** An optional value; `None` stands for a null pointer or a missing entry. */
  datatype Option<+T> = None | Some(value: T)

  /** The outcome of an operation that may abort the process (a Rust panic,
      `unreachable!()`, `unimplemented!()`, a failed `assert!` or a HotSpot `guarantee`). */
  datatype Result<+T> = Ok(value: T) | Panic(message: string)

  /** No element occurs twice in `s`. */
  ghost predicate Distinct<T>(s: seq<T>) {
    forall i, j | 0 <= i < j < |s| :: s[i] != s[j]
  }

  function Last<T>(s: seq<T>): T
    requires |s| > 0
  {
    s[|s| - 1]
  }

  /** The concatenation of a sequence of batches. */
  function Flatten<T>(batches: seq<seq<T>>): seq<T> {
    if batches == [] then [] else Flatten(batches[..|batches| - 1]) + Last(batches)
  }

  /** Handing over one more batch appends its elements. */
  lemma FlattenAppend<T>(batches: seq<seq<T>>, b: seq<T>)
    ensures Flatten(batches + [b]) == Flatten(batches) + b
  {
    assert (batches + [b])[..|batches|] == batches;
  }
}
