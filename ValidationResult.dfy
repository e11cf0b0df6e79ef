/**
 * The result of a validation: a list of errors that only grows, and a status that is
 * Error exactly when the list is not empty.
 */
module ValidationResults {
  import opened Wrappers
  import opened ValidationErrors

  datatype ValidationStatus = Success | Error

  class ValidationResult {
    var status: ValidationStatus
    var errors: seq<ValidationError>

    /** The status agrees with the error list. */
    predicate Valid()
      reads this
    {
      status == Error <==> errors != []
    }

    function ErrorCount(): nat
      reads this
    {
      |errors|
    }

    /** The messages of the errors, in the order they were added. */
    function GetErrorMessages(): (r: seq<string>)
      reads this
      ensures |r| == ErrorCount()
      ensures forall i :: 0 <= i < |r| ==> r[i] == errors[i].ToString()
    {
      MessagesOf(errors)
    }

    /** `new ValidationResult()`: Success, with no errors. */
    constructor()
      ensures Valid() && status == Success && errors == []
    {
      status := Success;
      errors := [];
    }

    /**
     * AddErrors(params ValidationError[]): refuses an array holding `null` and adds
     * nothing then; otherwise appends the items and sets Error if there were any.
     */
    method AddErrors(items: seq<Option<ValidationError>>) returns (o: Outcome)
      requires Valid()
      modifies this
      ensures Valid()
      ensures o == if NoneNull(items) then Pass else Fail(NullItems)
      ensures o.Fail? ==> errors == old(errors) && status == old(status)
      ensures o.Pass? ==> errors == old(errors) + Present(items)
      ensures o.Pass? ==> status == if items == [] then old(status) else Error
      ensures old(status) == Error ==> status == Error
    {
      if !NoneNull(items) {
        return Fail(NullItems);
      }
      errors := errors + Present(items);
      if |items| > 0 {
        status := Error;
      }
      return Pass;
    }

    /**
     * AddErrors(params string[]): refuses an array holding `null`; otherwise adds one
     * error per message, in order.
     */
    method AddErrorMessages(messages: seq<Option<string>>) returns (o: Outcome)
      requires Valid()
      modifies this
      ensures Valid()
      ensures o == if NoneNull(messages) then Pass else Fail(NullItems)
      ensures o.Fail? ==> errors == old(errors) && status == old(status)
      ensures o.Pass? ==> errors == old(errors) + ErrorsFor(Present(messages))
      ensures o.Pass? ==> GetErrorMessages() == old(GetErrorMessages()) + Present(messages)
      ensures o.Pass? ==> status == if messages == [] then old(status) else Error
      ensures old(status) == Error ==> status == Error
    {
      if !NoneNull(messages) {
        return Fail(NullItems);
      }
      var present := Present(messages);
      o := AddErrors(Somes(ErrorsFor(present)));
      MessagesOfAppend(old(errors), ErrorsFor(present));
      ErrorsForRoundTrip(present);
    }
  }

  /** `new ValidationResult(params string[] errors)`: the default result, then AddErrors. */
  method NewWithMessages(messages: seq<Option<string>>) returns (r: Result<ValidationResult>)
    ensures r.Err? <==> !NoneNull(messages)
    ensures r.Err? ==> r.error == NullItems
    ensures r.Ok? ==> fresh(r.value) && r.value.Valid()
    ensures r.Ok? ==> r.value.GetErrorMessages() == Present(messages)
    ensures r.Ok? ==> (r.value.status == Error <==> messages != [])
  {
    var result := new ValidationResult();
    var added := result.AddErrorMessages(messages);
    if added.Fail? {
      return Err(added.error);
    }
    return Ok(result);
  }

  /** `new ValidationResult(params ValidationError[] errors)`: the default result, then AddErrors. */
  method NewWithErrors(items: seq<Option<ValidationError>>) returns (r: Result<ValidationResult>)
    ensures r.Err? <==> !NoneNull(items)
    ensures r.Err? ==> r.error == NullItems
    ensures r.Ok? ==> fresh(r.value) && r.value.Valid() && r.value.errors == Present(items)
    ensures r.Ok? ==> (r.value.status == Error <==> items != [])
  {
    var result := new ValidationResult();
    var added := result.AddErrors(items);
    if added.Fail? {
      return Err(added.error);
    }
    return Ok(result);
  }

  /** Three errors added, then two more: five errors, in the order given, and status Error. */
  method ThreeThenTwo() returns (count: nat, messages: seq<string>, status: ValidationStatus)
    ensures count == 5 && messages == ["a", "b", "c", "d", "e"] && status == Error
  {
    var result := new ValidationResult();
    var first := result.AddErrorMessages(Somes(["a", "b", "c"]));
    var second := result.AddErrorMessages(Somes(["d", "e"]));
    count, messages, status := result.ErrorCount(), result.GetErrorMessages(), result.status;
  }

  /** An array with a `null` item is refused and leaves an empty result Success. */
  method NullItemRefused() returns (o: Outcome, count: nat, status: ValidationStatus)
    ensures o == Fail(NullItems) && count == 0 && status == Success
  {
    var result := new ValidationResult();
    o := result.AddErrorMessages([Some("a"), None]);
    count, status := result.ErrorCount(), result.status;
  }
}
