/**
 * A browser session: a run of requests against the server, the private cookie
 * carried from each reply to the next request. Together with the guard this is
 * a two-state machine: the cookie is absent, or it holds the last value
 * submitted to the login form, and `GET /` depends only on which.
 */
module Session {
  import opened Common
  import opened Config
  import opened Http
  import opened Routes
  import opened DispatchProperties

  /** One request, with what the file system answers while it is handled. */
  datatype Call = Call(req: Request, io: Io)

  /** The responses of a run, in order, and the cookie left at its end. */
  datatype Trace = Trace(responses: seq<Response>, jar: Option<string>)

  /** Serves the calls one after another, each seeing the cookie the previous reply left. */
  function Run(settings: Settings, jar: Option<string>, calls: seq<Call>): (t: Trace)
    ensures |t.responses| == |calls|
    decreases |calls|
  {
    if |calls| == 0 then Trace([], jar)
    else
      var reply := Dispatch(settings, jar, calls[0].io, calls[0].req);
      var rest := Run(settings, ApplyCookie(jar, reply.effect), calls[1..]);
      Trace([reply.response] + rest.responses, rest.jar)
  }

  /** Inside a run, the i-th response is the server's reply to the i-th call under the cookie the earlier calls left. */
  lemma {:induction false} RunResponses(settings: Settings, jar: Option<string>, calls: seq<Call>, i: nat)
    requires i < |calls|
    ensures Run(settings, jar, calls).responses[i]
            == Dispatch(settings, Run(settings, jar, calls[..i]).jar, calls[i].io, calls[i].req).response
    decreases i
  {
    if i > 0 {
      var reply := Dispatch(settings, jar, calls[0].io, calls[0].req);
      var jar' := ApplyCookie(jar, reply.effect);
      RunResponses(settings, jar', calls[1..], i - 1);
      assert calls[1..][i - 1] == calls[i];
      assert calls[..i][1..] == calls[1..][..i - 1];
      assert calls[..i][0] == calls[0];
    }
  }

  /**
   * Reference for the cookie after a run, read from its end: the value of the
   * last login if no logout followed it, nothing after a logout, and the
   * starting cookie when neither happened.
   */
  function LastCookie(calls: seq<Call>, jar: Option<string>): Option<string>
  {
    if |calls| == 0 then jar
    else
      match calls[|calls| - 1].req
      case PostLogin(value) => Some(value)
      case PostLogout => None
      case _ => LastCookie(calls[..|calls| - 1], jar)
  }

  /** Reading from the end agrees with applying the first call and reading the rest. */
  lemma {:induction false} LastCookieFirst(c: Call, rest: seq<Call>, jar: Option<string>)
    ensures LastCookie([c] + rest, jar) == LastCookie(rest, LastCookie([c], jar))
  {
    var all := [c] + rest;
    if |rest| == 0 {
      assert all == [c];
    } else {
      assert all[..|all| - 1] == [c] + rest[..|rest| - 1];
      assert all[|all| - 1] == rest[|rest| - 1];
      LastCookieFirst(c, rest[..|rest| - 1], jar);
    }
  }

  /** The cookie after a run is the one the last login or logout left. */
  lemma {:induction false} RunCookie(settings: Settings, jar: Option<string>, calls: seq<Call>)
    ensures Run(settings, jar, calls).jar == LastCookie(calls, jar)
    decreases |calls|
  {
    if |calls| > 0 {
      var c := calls[0];
      var reply := Dispatch(settings, jar, c.io, c.req);
      CookieChanges(settings, jar, c.io, c.req);
      assert [c][..0] == [];
      assert ApplyCookie(jar, reply.effect) == LastCookie([c], jar);
      RunCookie(settings, ApplyCookie(jar, reply.effect), calls[1..]);
      assert calls == [c] + calls[1..];
      LastCookieFirst(c, calls[1..], jar);
    }
  }

  /** After any run, `GET /` is let in, refused or sent to log in according to the last login or logout alone. */
  lemma IndexAfterRun(settings: Settings, jar: Option<string>, calls: seq<Call>, io: Io)
    ensures var last := LastCookie(calls, jar);
            var r := Dispatch(settings, Run(settings, jar, calls).jar, io, GetIndex).response;
            && (r == Redirect(LoginUri) <==> last == None)
            && (r == Error(Forbidden) <==> last.Some? && last.value != settings.password)
            && (r.RenderIndex? <==> last == Some(settings.password) && io.listing.Some?)
  {
    RunCookie(settings, jar, calls);
    IndexTrichotomy(settings, Run(settings, jar, calls).jar, io);
  }

  /** A run that ends in a logout leaves every later `GET /` on its way to the login page. */
  lemma LogoutEndsSession(settings: Settings, jar: Option<string>, calls: seq<Call>, io: Io)
    requires |calls| > 0 && calls[|calls| - 1].req == PostLogout
    ensures Run(settings, jar, calls).jar == None
    ensures Dispatch(settings, Run(settings, jar, calls).jar, io, GetIndex) == Reply(Redirect(LoginUri), Keep)
  {
    RunCookie(settings, jar, calls);
    NoCookie(settings, io, "");
  }
}
