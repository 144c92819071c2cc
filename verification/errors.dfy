/** The error middleware: every failure a handler forwards becomes an HTTP status and a
    JSON body `{success: false, message}`. Four error codes and one error name are
    translated into fixed 400 replies; any other failure keeps its own status and
    message, with 500 and "Server Error" standing in for missing ones. */
module ErrorHandler {
  import opened Base

  /** The reply the middleware sends. */
  datatype HttpReply = HttpReply(status: int, success: bool, message: string)

  const DuplicateMessage := "Duplicate Field Value Enter"
  const OfflineMessage := "Check your internet connected properly"
  const ExpiredLinkMessage := "Your link expired so resent ur link"
  const InvalidLinkMessage := "Plz check valid link"
  const ValidationMessage := "ValidationError"

  /** The fixed message a code is translated to, if any. The four codes are distinct, so
      at most one of the code checks fires. */
  function CodeMessage(c: Code): (r: Option<string>)
    ensures r.Some? <==> c in {Num(11000), Named("EAI_AGAIN"), Named("TokenExpiredError"), Named("JsonWebTokenError")}
  {
    match c
    case Num(n) => if n == 11000 then Some(DuplicateMessage) else None
    case Named(s) =>
      if s == "EAI_AGAIN" then Some(OfflineMessage)
      else if s == "TokenExpiredError" then Some(ExpiredLinkMessage)
      else if s == "JsonWebTokenError" then Some(InvalidLinkMessage)
      else None
    case NoCode => None
  }

  /** The error after the translations: a later check replaces what an earlier one made,
      so the `ValidationError` name wins over any code. */
  function Translate(e: Failure, name: string): (r: Failure)
    ensures name == "ValidationError" ==> r == Raise(ValidationMessage, BadRequest)
    ensures name != "ValidationError" && CodeMessage(e.code).Some? ==> r == Raise(CodeMessage(e.code).value, BadRequest)
    ensures name != "ValidationError" && CodeMessage(e.code).None? ==> r == e
  {
    var afterCodes := if CodeMessage(e.code).Some? then Raise(CodeMessage(e.code).value, BadRequest) else e;
    if name == "ValidationError" then Raise(ValidationMessage, BadRequest) else afterCodes
  }

  /** `errorHandler`: `name` is the error's class name. */
  function Handle(e: Failure, name: string): (r: HttpReply)
    ensures !r.success && r.message != "" && r.status != 0
    ensures name == "ValidationError" ==> r == HttpReply(BadRequest, false, ValidationMessage)
    ensures name != "ValidationError" && CodeMessage(e.code).Some? ==>
      r == HttpReply(BadRequest, false, CodeMessage(e.code).value)
    ensures name != "ValidationError" && CodeMessage(e.code).None? ==>
      r.status == StatusOr(e.statusCode, InternalServer)
      && r.message == (if e.message != "" then e.message else "Server Error")
  {
    var t := Translate(e, name);
    HttpReply(StatusOr(t.statusCode, InternalServer), false, if t.message != "" then t.message else "Server Error")
  }

  /** A failure that a helper's catch block produced with no special code reaches the
      client with the helper's status and message. */
  lemma {:induction false} CaughtFailuresPassThrough(e: Failure, fallback: string, name: string)
    requires fallback != "" && name != "ValidationError" && e.code == NoCode
    ensures Handle(Caught(e, fallback), name) ==
      HttpReply(StatusOr(e.statusCode, InternalServer), false, if e.message != "" then e.message else fallback)
  {
    var c := Caught(e, fallback);
    assert CodeMessage(c.code).None?;
    assert c.statusCode.Some? && c.statusCode.value != 0;
    if e.statusCode.Some? && e.statusCode.value != 0 {
      assert c.statusCode == e.statusCode;
    } else {
      assert c.statusCode == Some(InternalServer);
    }
  }

  /** A catch block that falls back to the error's class name answers the client as one
      that does not, unless that name is one of the codes translated above; none of the
      names thrown in the helpers (`Error`, `TypeError`, `MongoServerError`) is. */
  lemma NameFallbackInvisible(e: Failure, name: string, fallback: string, cls: string)
    requires fallback != "" && CodeMessage(Named(name)).None?
    ensures Handle(CaughtNamed(e, name, fallback), cls) == Handle(Caught(e, fallback), cls)
  {
  }

  /** A thrown `ThrowError` reaches the client with its own status and message. */
  lemma ThrownPassesThrough(message: string, status: int, cls: string)
    requires message != "" && status != 0 && cls != "ValidationError"
    ensures Handle(Thrown(message, status), cls) == HttpReply(status, false, message)
  {
  }

  /** The class names thrown in the helpers are not among the translated codes. */
  lemma ThrownNamesUntranslated()
    ensures CodeMessage(Named(ThrowErrorName)).None?
    ensures CodeMessage(Named("TypeError")).None? && CodeMessage(Named("MongoServerError")).None?
  {
  }
}
