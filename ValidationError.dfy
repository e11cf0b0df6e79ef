/** One validation error: an immutable message, which is also its string form. */
module ValidationErrors {
  import opened Wrappers

  datatype ValidationError = ValidationError(errorMessage: string) {
    /** ToString reports the message. */
    function ToString(): string {
      errorMessage
    }
  }

  /**
   * `new ValidationError(message)`: a `null` message (`None`) is refused with
   * ArgumentNullException; any string, the empty one included, is accepted.
   */
  function NewValidationError(message: Option<string>): (r: Result<ValidationError>)
    ensures r.Err? <==> message.None?
    ensures r.Err? ==> r.error == NullErrorMessage
    ensures r.Ok? ==> r.value.ToString() == message.value
  {
    match message
    case None => Err(NullErrorMessage)
    case Some(text) => Ok(ValidationError(text))
  }

  /** An error built from a message gives that message back. */
  lemma MessageRoundTrip(message: string)
    ensures NewValidationError(Some(message)).Ok?
    ensures NewValidationError(Some(message)).value.ToString() == message
    ensures NewValidationError(Some(message)).value.errorMessage == message
  {
  }

  /** The string forms of a list of errors, in order. */
  function MessagesOf(errors: seq<ValidationError>): (r: seq<string>)
    ensures |r| == |errors|
    ensures forall i :: 0 <= i < |r| ==> r[i] == errors[i].ToString()
  {
    if errors == [] then [] else [errors[0].ToString()] + MessagesOf(errors[1..])
  }

  /** `messages.Select(msg => new ValidationError(msg))` on messages none of which is null. */
  function ErrorsFor(messages: seq<string>): (r: seq<ValidationError>)
    ensures |r| == |messages|
    ensures forall i :: 0 <= i < |r| ==> Ok(r[i]) == NewValidationError(Some(messages[i]))
  {
    if messages == [] then [] else [ValidationError(messages[0])] + ErrorsFor(messages[1..])
  }

  /** Wrapping messages in errors and reading them back gives the messages. */
  lemma ErrorsForRoundTrip(messages: seq<string>)
    ensures MessagesOf(ErrorsFor(messages)) == messages
  {
  }

  /** The string forms of two joined lists are the two lists of string forms joined. */
  lemma {:induction false} MessagesOfAppend(a: seq<ValidationError>, b: seq<ValidationError>)
    ensures MessagesOf(a + b) == MessagesOf(a) + MessagesOf(b)
  {
    if a == [] {
      assert a + b == b;
    } else {
      assert (a + b)[1..] == a[1..] + b;
      MessagesOfAppend(a[1..], b);
    }
  }
}
