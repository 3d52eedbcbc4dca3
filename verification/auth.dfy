/** What a handler can answer: a rendered template, a redirect, or an error status. */
module Http {

  /** The error statuses the core can end in. */
  datatype Status = Forbidden | NotFound | InternalServerError {

    /** The numeric HTTP status code. */
    function Code(): (c: nat)
      ensures 400 <= c < 600
      ensures Forbidden? <==> c == 403
      ensures NotFound? <==> c == 404
    {
      match this
      case Forbidden => 403
      case NotFound => 404
      case InternalServerError => 500
    }
  }

  /**
   * `RenderIndex` is the "index" template with context `{"image_paths": ...}`;
   * `RenderLogin` is the "login" template with an empty context.
   */
  datatype Response =
    | RenderIndex(imagePaths: seq<string>)
    | RenderLogin
    | Redirect(location: string)
    | Error(status: Status)
}

/**
 * The `User` request guard: the only authentication the server does. The jar
 * is the private (encrypted and signed) cookie named "password", taken here as
 * tamper-proof: `None` when the cookie is absent or does not decrypt.
 */
module Auth {
  import opened Common
  import opened Http

  /** The three outcomes of a request guard. */
  datatype Verdict = Forward | Success | Failure(status: Status)

  /** `User::from_request`: no cookie forwards; the right password succeeds; any other value fails with 403. */
  function FromRequest(cookie: Option<string>, password: string): (v: Verdict)
    ensures v == Forward <==> cookie == None
    ensures v == Success <==> cookie == Some(password)
    ensures v == Failure(Forbidden) <==> cookie.Some? && cookie.value != password
  {
    match cookie
    case None => Forward
    case Some(value) => if value == password then Success else Failure(Forbidden)
  }

  /** A stored cookie matters only through whether it equals the configured password. */
  lemma VerdictDependsOnlyOnMatch(c1: string, c2: string, password: string)
    ensures FromRequest(Some(c1), password) == FromRequest(Some(c2), password)
            <==> (c1 == password <==> c2 == password)
  {
  }
}
