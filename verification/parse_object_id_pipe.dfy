/** The route-parameter pipe that turns an id string into an object id or rejects it with BadRequest. */
module ParseObjectIdPipe {
  import opened Wrappers
  import opened Json
  import opened ObjectIds

  /** Why the pipe raised BadRequest, one reason per check in the chain. */
  datatype Rejection =
    | NoValue              // the value is falsy
    | NotAString           // the value is truthy but not a string
    | InvalidFormat        // `ObjectId.isValid` refused the string
    | ConversionMismatch   // the parsed id does not print back to the same string

  /** `ParseObjectIdPipe.transform`: the four checks in order, then the parsed id. */
  function Transform(value: Value): (r: Result<ObjectId, Rejection>)
    ensures Falsy(value) ==> r == Failure(NoValue)
    ensures !Falsy(value) && !value.Str? ==> r == Failure(NotAString)
    ensures value.Str? && !Falsy(value) && !IsValid(value.s) ==> r == Failure(InvalidFormat)
    ensures r.Success? <==> value.Str? && IsCanonical(value.s)
    ensures r.Success? ==> ToString(r.value) == value.s
  {
    if Falsy(value) then Failure(NoValue)
    else if !value.Str? then Failure(NotAString)
    else if !IsValid(value.s) then Failure(InvalidFormat)
    else
      var id := Parse(value.s);
      RoundTripIffCanonical(value.s);
      if ToString(id) != value.s then Failure(ConversionMismatch)
      else Success(id)
  }

  /** Every object id, written in its printed form, passes the pipe and comes back unchanged. */
  lemma AcceptsEveryPrintedId(id: ObjectId)
    ensures Transform(Str(ToString(id))) == Success(id)
  {
    ParseToString(id);
  }

  /** Feeding the pipe's output back through it (as its printed form) yields the same id. */
  lemma TransformIdempotent(value: Value)
    requires Transform(value).Success?
    ensures Transform(Str(ToString(Transform(value).value))) == Transform(value)
  {
    AcceptsEveryPrintedId(Transform(value).value);
  }

  /** `isValid` accepts a twelve-character string, but the round-trip check rejects it. */
  lemma ByteStringPassesIsValidButIsRejected(s: string)
    requires IsByteString(s)
    ensures IsValid(s)
    ensures Transform(Str(s)) == Failure(ConversionMismatch)
  {
  }

  /** Upper-case hexadecimal passes `isValid` but is rejected, because `toString` prints lower case. */
  lemma UpperCaseHexIsRejected(s: string, k: nat)
    requires |s| == 24 && IsHexString(s)
    requires k < 24 && 'A' <= s[k] <= 'F'
    ensures IsValid(s)
    ensures Transform(Str(s)) == Failure(ConversionMismatch)
  {
  }
}
