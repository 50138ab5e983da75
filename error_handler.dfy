/**
 * The error middleware: turns an error thrown by a controller into an HTTP
 * status and a failure envelope.
 */
module ErrorHandler {
  import opened Wrappers
  import opened Records

  /** The JSON body of an error reply; `stack` is present only in development. */
  datatype ErrorEnvelope = ErrorEnvelope(success: bool, message: string, stack: Option<string>)

  datatype ErrorReply = ErrorReply(status: int, body: ErrorEnvelope)

  const DuplicateMessage := "A record with this value already exists."
  const MissingRecordMessage := "Record not found."
  const GenericMessage := "Internal Server Error"

  /** A database error code the middleware answers with a fixed reply. */
  predicate IsKnownDatabaseCode(code: Option<string>)
  {
    code == Some(UniqueConstraintFailed) || code == Some(RecordNotFound)
  }

  /** The reply to `err` when the server runs with `NODE_ENV == nodeEnv`. */
  function HandleError(err: AppError, nodeEnv: string): (r: ErrorReply)
    ensures !r.body.success
    ensures err.code == Some(UniqueConstraintFailed) ==> r == ErrorReply(409, ErrorEnvelope(false, DuplicateMessage, None))
    ensures err.code == Some(RecordNotFound) ==> r == ErrorReply(404, ErrorEnvelope(false, MissingRecordMessage, None))
    ensures !IsKnownDatabaseCode(err.code) ==>
      r.status == (if err.statusCode.Some? && err.statusCode.value != 0 then err.statusCode.value else 500)
    ensures !IsKnownDatabaseCode(err.code) ==>
      r.body.message == (if err.message != "" then err.message else GenericMessage)
    ensures r.body.stack.Some? <==> !IsKnownDatabaseCode(err.code) && nodeEnv == "development"
    ensures r.body.stack.Some? ==> r.body.stack.value == err.stack
  {
    if err.code == Some(UniqueConstraintFailed) then
      ErrorReply(409, ErrorEnvelope(false, DuplicateMessage, None))
    else if err.code == Some(RecordNotFound) then
      ErrorReply(404, ErrorEnvelope(false, MissingRecordMessage, None))
    else
      var status := match err.statusCode
        case Some(s) => if s != 0 then s else 500
        case None => 500;
      var message := if err.message != "" then err.message else GenericMessage;
      var stack := if nodeEnv == "development" then Some(err.stack) else None;
      ErrorReply(status, ErrorEnvelope(false, message, stack))
  }

  /** Outside development no reply ever carries a stack trace. */
  lemma NoStackOutsideDevelopment(err: AppError, nodeEnv: string)
    requires nodeEnv != "development"
    ensures HandleError(err, nodeEnv).body.stack.None?
  {
  }

  /** Every reply has a message that is never empty. */
  lemma ReplyMessageNonEmpty(err: AppError, nodeEnv: string)
    ensures HandleError(err, nodeEnv).body.message != ""
  {
  }

  /** An error without a status code and without a known database code is a 500. */
  lemma UnclassifiedErrorIs500(err: AppError, nodeEnv: string)
    requires !IsKnownDatabaseCode(err.code) && err.statusCode.None?
    ensures HandleError(err, nodeEnv).status == 500
  {
  }
}
