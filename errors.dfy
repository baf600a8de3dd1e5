/** The errors of the guide service and how a rejected request becomes an
    HTTP reply (backend/src/error.rs). */
module Errors {

  /** The service's own error. */
  datatype Error = GuideNotFound | InvalidInput(detail: string) | InternalServerError(detail: string)

  /** The outcome of a store operation. */
  datatype Result<T> = Ok(value: T) | Err(error: Error)

  const GUIDE_NOT_FOUND_TEXT := "Guide not found"
  const INVALID_INPUT_PREFIX := "Invalid input: "
  const INTERNAL_ERROR_PREFIX := "Internal server error: "

  /** The `Display` text of an error: a fixed text for a missing guide, and
      otherwise the variant's prefix with the detail after it. */
  function Message(e: Error): (m: string)
    ensures e.GuideNotFound? ==> m == GUIDE_NOT_FOUND_TEXT
    ensures e.InvalidInput? ==>
      |m| == |INVALID_INPUT_PREFIX| + |e.detail|
      && m[..|INVALID_INPUT_PREFIX|] == INVALID_INPUT_PREFIX && m[|INVALID_INPUT_PREFIX|..] == e.detail
    ensures e.InternalServerError? ==>
      |m| == |INTERNAL_ERROR_PREFIX| + |e.detail|
      && m[..|INTERNAL_ERROR_PREFIX|] == INTERNAL_ERROR_PREFIX && m[|INTERNAL_ERROR_PREFIX|..] == e.detail
  {
    match e
    case GuideNotFound => GUIDE_NOT_FOUND_TEXT
    case InvalidInput(detail) => INVALID_INPUT_PREFIX + detail
    case InternalServerError(detail) => INTERNAL_ERROR_PREFIX + detail
  }

  /** Different errors are displayed differently, so a reply's text tells
      which error produced it. */
  lemma MessageInjective(a: Error, b: Error)
    requires Message(a) == Message(b)
    ensures a == b
  {
    var m := Message(a);
    assert |m| >= 3 && m[0] == Message(b)[0] && m[2] == Message(b)[2];
    if a.InvalidInput? && b.InvalidInput? {
      assert a.detail == m[|INVALID_INPUT_PREFIX|..] == b.detail;
    } else if a.InternalServerError? && b.InternalServerError? {
      assert a.detail == m[|INTERNAL_ERROR_PREFIX|..] == b.detail;
    }
  }

  /** `internal_error` */
  function InternalError(): (e: Error)
    ensures e.InternalServerError? && Message(e) == "Internal server error: Internal server error"
  {
    InternalServerError("Internal server error")
  }

  /** Why the web framework refused a request: no route matched, a handler
      rejected it with one of the service's errors, or anything else. */
  datatype Rejection = NotFound | Custom(error: Error) | Other

  const NOT_FOUND: nat := 404
  const BAD_REQUEST: nat := 400
  const INTERNAL_SERVER_ERROR: nat := 500

  /** The reply to a rejection: a status and the JSON body `{"error": message}`. */
  datatype ErrorReply = ErrorReply(status: nat, error: string)

  /** `handle_rejection`: a missing route or guide is 404, invalid input is
      400, everything else is 500; the service's errors show their own text. */
  function HandleRejection(r: Rejection): (reply: ErrorReply)
    ensures reply.status == NOT_FOUND <==> r.NotFound? || r == Custom(GuideNotFound)
    ensures reply.status == BAD_REQUEST <==> r.Custom? && r.error.InvalidInput?
    ensures reply.status == INTERNAL_SERVER_ERROR <==>
      r.Other? || (r.Custom? && r.error.InternalServerError?)
    ensures r.Custom? ==> reply.error == Message(r.error)
    ensures r.NotFound? ==> reply.error == "Not Found"
    ensures r.Other? ==> reply.error == "Internal Server Error"
  {
    match r
    case NotFound => ErrorReply(NOT_FOUND, "Not Found")
    case Custom(e) =>
      (match e
       case GuideNotFound => ErrorReply(NOT_FOUND, Message(e))
       case InvalidInput(_) => ErrorReply(BAD_REQUEST, Message(e))
       case InternalServerError(_) => ErrorReply(INTERNAL_SERVER_ERROR, Message(e)))
    case Other => ErrorReply(INTERNAL_SERVER_ERROR, "Internal Server Error")
  }

  /** A missing route and a missing guide both answer 404, but with different
      texts, so a client can tell them apart. */
  lemma NotFoundRepliesDiffer()
    ensures HandleRejection(NotFound).status == HandleRejection(Custom(GuideNotFound)).status
    ensures HandleRejection(NotFound).error != HandleRejection(Custom(GuideNotFound)).error
  {
    assert HandleRejection(NotFound).error[0] == 'N';
  }
}
