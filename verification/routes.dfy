/**
 * The routes mounted at "/" and the server's way of choosing among them.
 * Routes matching a request are tried in rank order; a guard that forwards
 * passes the request to the next one, a guard that fails ends it with the
 * failure's status, and when no route is left the answer is 404.
 */
module Routes {
  import opened Common
  import opened Config
  import opened Http
  import opened Auth
  import opened Gallery

  /** An incoming request, already reduced to the method, path and parameters the core reads. */
  datatype Request =
    | GetIndex
    | GetRemove(path: string)
    | GetLogin
    | PostLogin(password: string)
    | PostLogout
      /** A request that no route of the server matches (neither a route at "/" nor a file under `/media` or `/static`). */
    | Unmatched

  /** The six handlers, with the parameters bound from the request. */
  datatype Route =
    | Index
    | NoAuthIndex
    | Remove(path: string)
    | LoginGet
    | LoginPost(password: string)
    | Logout

  /** The state change a handler asks for. */
  datatype Effect = Keep | SetCookie(value: string) | RemoveCookie | DeleteFile(target: string)

  /**
   * What the file system answers during the request: the names `read_dir`
   * yields for the media directory (`None` when it cannot be read), and the
   * paths `remove_file` would delete successfully.
   */
  datatype Io = Io(listing: Option<seq<string>>, deletable: set<string>)

  /** A route's outcome: a response, or its guard's forward or failure. */
  datatype Outcome = Done(response: Response, effect: Effect) | Forwarded | Failed(status: Status)

  /** The server's answer to a request and the state change that comes with it. */
  datatype Reply = Reply(response: Response, effect: Effect)

  /** `uri!(index)` and `uri!(login_get)`. */
  const IndexUri: string := "/"
  const LoginUri: string := "/login"

  /** The routes that match a request, in rank order: `index` (default rank) before `no_auth_index` (rank 2). */
  function Candidates(req: Request): seq<Route>
  {
    match req
    case GetIndex => [Index, NoAuthIndex]
    case GetRemove(path) => [Remove(path)]
    case GetLogin => [LoginGet]
    case PostLogin(password) => [LoginPost(password)]
    case PostLogout => [Logout]
    case Unmatched => []
  }

  /** The file `remove` deletes: `format!("{}/{}", media_dir, path)`, with `path` taken as given. */
  function RemovePath(mediaDir: string, path: string): (target: string)
    ensures |target| == |mediaDir| + 1 + |path|
    ensures target[..|mediaDir|] == mediaDir
    ensures target[|mediaDir|] == '/'
    ensures target[|mediaDir| + 1..] == path
  {
    mediaDir + "/" + path
  }

  /** Runs `body` only when the `User` guard succeeds; otherwise passes the guard's outcome on. */
  function Guarded(verdict: Verdict, body: Outcome): Outcome
  {
    match verdict
    case Forward => Forwarded
    case Failure(status) => Failed(status)
    case Success => body
  }

  /** The body of `index`: list, sort, truncate, render; a listing that cannot be read panics (500). */
  function IndexBody(settings: Settings, io: Io): (o: Outcome)
    ensures o.Done? && o.effect == Keep
    ensures o.response.RenderIndex? <==> io.listing.Some?
    ensures io.listing == None ==> o.response == Error(InternalServerError)
    ensures o.response.RenderIndex? ==>
              && |o.response.imagePaths| == Min(settings.displayCount, |io.listing.value|)
              && NonIncreasing(o.response.imagePaths)
              && multiset(o.response.imagePaths) <= multiset(io.listing.value)
  {
    match io.listing
    case None => Done(Error(InternalServerError), Keep)
    case Some(entries) => Done(RenderIndex(Select(entries, settings.displayCount)), Keep)
  }

  /** The body of `remove`: delete the file and redirect home; a failed deletion panics (500). */
  function RemoveBody(settings: Settings, io: Io, path: string): (o: Outcome)
    ensures o.Done?
    ensures o.effect.DeleteFile? <==> settings.mediaDir + "/" + path in io.deletable
    ensures o.effect.DeleteFile? ==>
              o.effect.target == settings.mediaDir + "/" + path && o.response == Redirect(IndexUri)
    ensures !o.effect.DeleteFile? ==> o == Done(Error(InternalServerError), Keep)
  {
    var target := RemovePath(settings.mediaDir, path);
    if target in io.deletable then Done(Redirect(IndexUri), DeleteFile(target))
    else Done(Error(InternalServerError), Keep)
  }

  /** One handler, guards included. */
  function Handle(route: Route, settings: Settings, jar: Option<string>, io: Io): (o: Outcome)
    ensures !route.Index? && !route.Remove? ==> o.Done?
    ensures route.Index? || route.Remove? ==>
              && (o == Forwarded <==> jar == None)
              && (o == Failed(Forbidden) <==> jar.Some? && jar.value != settings.password)
              && (o.Done? <==> jar == Some(settings.password))
  {
    var verdict := FromRequest(jar, settings.password);
    match route
    case Index => Guarded(verdict, IndexBody(settings, io))
    case NoAuthIndex => Done(Redirect(LoginUri), Keep)
    case Remove(path) => Guarded(verdict, RemoveBody(settings, io, path))
    case LoginGet => Done(RenderLogin, Keep)
    case LoginPost(password) => Done(Redirect(IndexUri), SetCookie(password))
    case Logout => Done(Redirect(LoginUri), RemoveCookie)
  }

  /** Tries the matching routes in order until one does not forward. */
  function TryRoutes(routes: seq<Route>, settings: Settings, jar: Option<string>, io: Io): (r: Reply)
    ensures r.response.Error? ==> r.effect == Keep
  {
    if |routes| == 0 then Reply(Error(NotFound), Keep)
    else
      match Handle(routes[0], settings, jar, io)
      case Done(response, effect) => Reply(response, effect)
      case Failed(status) => Reply(Error(status), Keep)
      case Forwarded => TryRoutes(routes[1..], settings, jar, io)
  }

  /** The server's answer to one request. */
  function Dispatch(settings: Settings, jar: Option<string>, io: Io, req: Request): (r: Reply)
    ensures r.response == Error(NotFound) <==> req == Unmatched || (req.GetRemove? && jar == None)
    ensures r.response == Error(Forbidden)
            <==> (req == GetIndex || req.GetRemove?) && jar.Some? && jar.value != settings.password
  {
    var routes := Candidates(req);
    assert req == GetIndex ==> routes[1..] == [NoAuthIndex];
    assert req.GetRemove? ==> routes[1..] == [];
    assert TryRoutes([], settings, jar, io) == Reply(Error(NotFound), Keep);
    assert TryRoutes([NoAuthIndex], settings, jar, io) == Reply(Redirect(LoginUri), Keep);
    TryRoutes(routes, settings, jar, io)
  }

  /** The cookie jar after a reply's effect. */
  function ApplyCookie(jar: Option<string>, effect: Effect): (jar': Option<string>)
    ensures effect.SetCookie? ==> jar' == Some(effect.value)
    ensures effect == RemoveCookie ==> jar' == None
    ensures !effect.SetCookie? && effect != RemoveCookie ==> jar' == jar
  {
    match effect
    case SetCookie(value) => Some(value)
    case RemoveCookie => None
    case _ => jar
  }
}
