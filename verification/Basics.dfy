/** Types and small facts shared by every component. */
module Basics {

  datatype Option<+T> = None | Some(value: T)

  /** A call that either returns a value or throws one of the service's exceptions. */
  datatype Result<+T, +E> = Ok(value: T) | Err(error: E)

  /** The HTTP exceptions the services throw. */
  datatype HttpError =
    | BadRequest
    | Unauthorized
    | Forbidden
    | NotFound
    | InternalError

  type Byte = b: int | 0 <= b < 256

  /** The set of elements of a list. */
  function Elements<T>(s: seq<T>): set<T> {
    set x | x in s
  }

  function Max(a: int, b: int): int {
    if a < b then b else a
  }

  function Min(a: int, b: int): int {
    if a < b then a else b
  }

  ghost predicate Distinct<T>(s: seq<T>) {
    forall i, j :: 0 <= i < j < |s| ==> s[i] != s[j]
  }

  lemma {:induction false} SubsetSize<T>(a: set<T>, b: set<T>)
    requires a <= b
    ensures |a| <= |b|
  {
    if a != {} {
      var x :| x in a;
      SubsetSize(a - {x}, b - {x});
    }
  }
}
