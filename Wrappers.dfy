/** Failure-compatible results for the exceptions the holiday planner throws. */
module Wrappers {

  /** A value that may be absent; `None` stands for a .NET `null` reference. */
  datatype Option<+T> = None | Some(value: T)

  /**
   * The exceptions the core throws, one constructor per distinct cause.
   * The comment on each says which .NET exception type the source uses.
   */
  datatype Exception =
    | StartAfterEnd                      // ArgumentException: start date is greater than end date
    | UnsupportedYear(year: int)         // ArgumentException: no Good Friday in the table
    | NullErrorMessage                   // ArgumentNullException: ValidationError(null)
    | NullItems                          // ArgumentException: AddErrors array contains null
    | EmptySeparatorList                 // ArgumentException: DateRangeParser() with no separator
    | NullOrEmptySeparator               // ArgumentException: a separator is null or ""
    | ValidationFailed(messages: seq<string>) // ArgumentException carrying every validation message
    | InvalidRangeFormat                 // FormatException: not two parts, or a part is not a date
  {
    /** True for the exceptions that are (subclasses of) System.ArgumentException. */
    predicate IsArgumentException() {
      !InvalidRangeFormat?
    }
  }

  /** Either a value or the exception that was thrown instead. */
  datatype Result<+T> = Ok(value: T) | Err(error: Exception) {
    predicate IsFailure() { Err? }

    function PropagateFailure<U>(): Result<U>
      requires Err?
    {
      Err(error)
    }

    function Extract(): T
      requires Ok?
    {
      value
    }
  }

  /** The outcome of a `void` method that may throw. */
  datatype Outcome = Pass | Fail(error: Exception) {
    predicate IsFailure() { Fail? }

    function PropagateFailure<U>(): Result<U>
      requires Fail?
    {
      Err(error)
    }
  }

  /** A .NET array argument none of whose items is `null`. */
  predicate NoneNull<T>(items: seq<Option<T>>) {
    forall i :: 0 <= i < |items| ==> items[i].Some?
  }

  /** The items of an array that holds no `null`. */
  function Present<T>(items: seq<Option<T>>): (r: seq<T>)
    requires NoneNull(items)
    ensures |r| == |items|
    ensures forall i :: 0 <= i < |r| ==> items[i] == Some(r[i])
  {
    if items == [] then [] else [items[0].value] + Present(items[1..])
  }

  /** The same values as array items, none of them `null`. */
  function Somes<T>(values: seq<T>): (r: seq<Option<T>>)
    ensures NoneNull(r) && Present(r) == values
  {
    if values == [] then [] else [Some(values[0])] + Somes(values[1..])
  }
}
