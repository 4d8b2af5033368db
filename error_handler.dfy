/** The API's final error handler: the status code and JSON body it answers
    an error with. Logging is left out. */
module ErrorHandler {
  import opened Js

  /** The fields of an AppError the handler reads. */
  datatype AppError = AppError(statusCode: Json, status: Json, message: string, stack: Option<string>)

  /** `res.status(code).json(body)`, the body as JSON.stringify writes it
      (a key whose value is undefined is dropped). */
  datatype ErrorResponse = ErrorResponse(code: Json, body: map<string, Json>)

  function HandleError(err: AppError, nodeEnv: Option<string>): (r: ErrorResponse)
    ensures r.body.Keys <= {"status", "message", "stack"}
  {
    var body := map["status" := Or(err.status, Str("error")),
                    "message" := Str(if err.message != "" then err.message else "Internal server error")];
    var code := Or(err.statusCode, Num(500));
    if nodeEnv == Some("development") && err.stack.Some? then ErrorResponse(code, body["stack" := Str(err.stack.value)])
    else ErrorResponse(code, body)
  }

  /** The status code is err.statusCode, or 500 when that is absent or 0
      (so the code is never falsy); the body status is err.status or
      'error'; the message is err.message or 'Internal server error'; and
      the stack is sent only in development. */
  lemma HandleErrorDefaults(err: AppError, nodeEnv: Option<string>)
    ensures var r := HandleError(err, nodeEnv);
      && Truthy(r.code)
      && (Truthy(err.statusCode) ==> r.code == err.statusCode)
      && (!Truthy(err.statusCode) ==> r.code == Num(500))
      && (err.statusCode == Num(0) || err.statusCode == Undefined ==> r.code == Num(500))
      && (Truthy(err.status) ==> Field(r.body, "status") == err.status)
      && (!Truthy(err.status) ==> Field(r.body, "status") == Str("error"))
      && (err.message != "" ==> Field(r.body, "message") == Str(err.message))
      && (err.message == "" ==> Field(r.body, "message") == Str("Internal server error"))
      && ("stack" in r.body <==> nodeEnv == Some("development") && err.stack.Some?)
      && ("stack" in r.body ==> r.body["stack"] == Str(err.stack.value))
  {
  }

  /** Outside development two errors that differ only in their stack get
      the same answer. */
  lemma StackHiddenOutsideDevelopment(err: AppError, stack: Option<string>, nodeEnv: Option<string>)
    requires nodeEnv != Some("development")
    ensures HandleError(err, nodeEnv) == HandleError(err.(stack := stack), nodeEnv)
  {
  }
}
