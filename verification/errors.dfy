/** GlobalExceptionHandler: how a failure becomes the JSON error body and
    HTTP status the client sees. The timestamp (LocalDateTime.now()) is left
    out. */
module ErrorHandling {
  import opened Common
  import opened Requests

  /** The exceptions the handler distinguishes. */
  datatype Failure =
    | ResourceNotFound(message: string)
    | BusinessRule(message: string)
    | BadCredentials
    | InvalidFields(fields: seq<FieldError>)
    | Unhandled(message: string)

  /** ErrorResponse, without its timestamp. */
  datatype ErrorResponse = ErrorResponse(status: int, error: string, message: string, fields: Option<seq<FieldError>>)

  /** The exception a service error is thrown as. */
  function FromError(e: Error): (f: Failure)
    ensures e.NotFound? <==> f.ResourceNotFound?
    ensures e.Business? <==> f.BusinessRule?
    ensures e.Unexpected? <==> f.Unhandled?
    ensures f.message == e.message
  {
    match e
    case NotFound(m) => ResourceNotFound(m)
    case Business(m) => BusinessRule(m)
    case Unexpected(m) => Unhandled(m)
  }

  /** The validation exception Spring raises for a request body: one field
      error per violated constraint, in the order reported. */
  function FromViolations(vs: seq<Violation>): (f: Failure)
    ensures f.InvalidFields? && |f.fields| == |vs|
    ensures forall i :: 0 <= i < |vs| ==> f.fields[i] == ToFieldError(vs[i])
  {
    InvalidFields(seq(|vs|, i requires 0 <= i < |vs| => ToFieldError(vs[i])))
  }

  /** The handler methods. */
  function Handle(f: Failure): (r: ErrorResponse)
    ensures f.ResourceNotFound? ==> r.status == 404 && r.error == "Not Found" && r.message == f.message
    ensures f.BusinessRule? ==> r.status == 422 && r.error == "Business Error" && r.message == f.message
    ensures f.BadCredentials? ==> r.status == 401 && r.error == "Unauthorized" && r.message == "Invalid email or password"
    ensures f.InvalidFields? ==> r.status == 400 && r.error == "Validation Error" && r.message == "Invalid request fields"
    ensures f.Unhandled? ==> r.status == 500 && r.error == "Internal Server Error"
                             && r.message == "An unexpected error occurred"
    ensures r.fields.Some? <==> f.InvalidFields?
    ensures f.InvalidFields? ==> r.fields == Some(f.fields)
  {
    match f
    case ResourceNotFound(m) => ErrorResponse(404, "Not Found", m, None)
    case BusinessRule(m) => ErrorResponse(422, "Business Error", m, None)
    case BadCredentials => ErrorResponse(401, "Unauthorized", "Invalid email or password", None)
    case InvalidFields(fs) => ErrorResponse(400, "Validation Error", "Invalid request fields", Some(fs))
    case Unhandled(_) => ErrorResponse(500, "Internal Server Error", "An unexpected error occurred", None)
  }

  /** The status code tells the kind of failure apart. */
  lemma StatusIdentifiesTheKind(a: Failure, b: Failure)
    requires Handle(a).status == Handle(b).status
    ensures a.ResourceNotFound? <==> b.ResourceNotFound?
    ensures a.BusinessRule? <==> b.BusinessRule?
    ensures a.BadCredentials? <==> b.BadCredentials?
    ensures a.InvalidFields? <==> b.InvalidFields?
    ensures a.Unhandled? <==> b.Unhandled?
  {
  }

  /** A service error reaches the client as 404 or 422 with its own message,
      or as 500 with a fixed message that hides the cause. */
  lemma ServiceErrorsAreReported(e: Error)
    ensures var r := Handle(FromError(e));
      (e.NotFound? ==> r.status == 404 && r.message == e.message)
      && (e.Business? ==> r.status == 422 && r.message == e.message)
      && (e.Unexpected? ==> r.status == 500 && r.message == "An unexpected error occurred")
      && r.fields.None?
  {
  }

  /** The field errors of a rejected body reach the client in order, one per
      violation. */
  lemma ViolationsAreReportedInOrder(vs: seq<Violation>)
    ensures var r := Handle(FromViolations(vs));
      r.status == 400 && r.fields.Some? && |r.fields.value| == |vs|
      && forall i :: 0 <= i < |vs| ==> r.fields.value[i] == ToFieldError(vs[i])
  {
  }
}
