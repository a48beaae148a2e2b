/** Value types shared by the whole model: the source's nullable references become
    `Option`, a constructor or lookup that can throw returns a `Result`, and the
    exceptions it can throw are values of `Exception`. */
module Basics {

  /** A nullable reference: `None` is the source's `null`. */
  datatype Option<+T> = None | Some(value: T)

  /** Either the value an operation produced or the exception it threw. */
  datatype Result<+T, +E> = Success(value: T) | Failure(error: E)

  /** A .NET `Guid`, as a number; `Guid.Empty` is 0. */
  type Guid = nat

  const EmptyGuid: Guid := 0

  /** The exceptions the modelled constructors and lookups throw, with the
      parameter name (`nameof(...)`) and the message they carry. */
  datatype Exception =
    | ArgumentException(paramName: string, message: string)
    | ArgumentNullException(paramName: string)

  /** The position of the first element of `s` that satisfies `p`, as LINQ's
      `FirstOrDefault(p)` finds it; `None` when no element does. */
  function FirstIndex<T>(s: seq<T>, p: T -> bool): (i: Option<nat>)
    ensures i.Some? ==> i.value < |s| && p(s[i.value])
    ensures i.Some? ==> forall j :: 0 <= j < i.value ==> !p(s[j])
    ensures i.None? ==> forall j :: 0 <= j < |s| ==> !p(s[j])
  {
    if |s| == 0 then None
    else if p(s[0]) then Some(0)
    else
      match FirstIndex(s[1..], p)
      case None => None
      case Some(k) => Some(k + 1)
  }
}
