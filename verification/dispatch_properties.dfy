/**
 * What the ranked, forwarding dispatch amounts to for each request: the
 * verdict of the `User` guard is computed first and the answer branches on it.
 */
module DispatchProperties {
  import opened Common
  import opened Config
  import opened Http
  import opened Auth
  import opened Gallery
  import opened Routes

  /**
   * The dispatch policy written as an explicit two-step decision, without
   * ranks or forwarding: first the verdict, then the branch.
   */
  function Decide(settings: Settings, jar: Option<string>, io: Io, req: Request): Reply
  {
    var authenticated := jar == Some(settings.password);
    match req
    case GetIndex =>
      if jar == None then Reply(Redirect(LoginUri), Keep)
      else if !authenticated then Reply(Error(Forbidden), Keep)
      else if io.listing == None then Reply(Error(InternalServerError), Keep)
      else Reply(RenderIndex(Select(io.listing.value, settings.displayCount)), Keep)
    case GetRemove(path) =>
      var target := settings.mediaDir + "/" + path;
      if jar == None then Reply(Error(NotFound), Keep)
      else if !authenticated then Reply(Error(Forbidden), Keep)
      else if target !in io.deletable then Reply(Error(InternalServerError), Keep)
      else Reply(Redirect(IndexUri), DeleteFile(target))
    case GetLogin => Reply(RenderLogin, Keep)
    case PostLogin(password) => Reply(Redirect(IndexUri), SetCookie(password))
    case PostLogout => Reply(Redirect(LoginUri), RemoveCookie)
    case Unmatched => Reply(Error(NotFound), Keep)
  }

  /** The rank-and-forward dispatch and the verdict-first decision agree on every request. */
  lemma DispatchIsVerdictFirst(settings: Settings, jar: Option<string>, io: Io, req: Request)
    ensures Dispatch(settings, jar, io, req) == Decide(settings, jar, io, req)
  {
    var routes := Candidates(req);
    match req
    case GetIndex =>
      assert routes[1..] == [NoAuthIndex];
      if jar == None {
        assert Handle(Index, settings, jar, io) == Forwarded;
        assert TryRoutes(routes[1..], settings, jar, io) == Reply(Redirect(LoginUri), Keep);
      } else if jar != Some(settings.password) {
        assert Handle(Index, settings, jar, io) == Failed(Forbidden);
      } else {
        assert Handle(Index, settings, jar, io) == IndexBody(settings, io);
      }
    case GetRemove(path) =>
      assert routes[1..] == [];
      assert RemovePath(settings.mediaDir, path) == settings.mediaDir + "/" + path;
      if jar == None {
        assert Handle(Remove(path), settings, jar, io) == Forwarded;
        assert TryRoutes(routes[1..], settings, jar, io) == Reply(Error(NotFound), Keep);
      }
    case _ =>
  }

  /** Without a cookie the guard forwards for every password: `/` redirects to the login page and `/remove` finds no route. */
  lemma NoCookie(settings: Settings, io: Io, path: string)
    ensures FromRequest(None, settings.password) == Forward
    ensures Dispatch(settings, None, io, GetIndex) == Reply(Redirect(LoginUri), Keep)
    ensures Dispatch(settings, None, io, GetRemove(path)) == Reply(Error(NotFound), Keep)
  {
    DispatchIsVerdictFirst(settings, None, io, GetIndex);
    DispatchIsVerdictFirst(settings, None, io, GetRemove(path));
  }

  /** The configured password in the cookie: `/` renders the selected page of the listing. */
  lemma MatchingCookie(settings: Settings, io: Io, entries: seq<string>)
    requires io.listing == Some(entries)
    ensures FromRequest(Some(settings.password), settings.password) == Success
    ensures Dispatch(settings, Some(settings.password), io, GetIndex)
            == Reply(RenderIndex(Select(entries, settings.displayCount)), Keep)
  {
  }

  /** Any other cookie value: 403 on `/` and on `/remove`; no fallback redirect, nothing deleted. */
  lemma WrongCookie(settings: Settings, io: Io, value: string, path: string)
    requires value != settings.password
    ensures FromRequest(Some(value), settings.password) == Failure(Forbidden)
    ensures Dispatch(settings, Some(value), io, GetIndex) == Reply(Error(Forbidden), Keep)
    ensures Dispatch(settings, Some(value), io, GetRemove(path)) == Reply(Error(Forbidden), Keep)
    ensures Dispatch(settings, Some(value), io, GetIndex).response.status.Code() == 403
  {
  }

  /** The answer to `GET /` is one of three, each exactly for its cookie state. */
  lemma IndexTrichotomy(settings: Settings, jar: Option<string>, io: Io)
    ensures var r := Dispatch(settings, jar, io, GetIndex).response;
            && (r == Redirect(LoginUri) <==> jar == None)
            && (r == Error(Forbidden) <==> jar.Some? && jar.value != settings.password)
            && (r.RenderIndex? <==> jar == Some(settings.password) && io.listing.Some?)
  {
    DispatchIsVerdictFirst(settings, jar, io, GetIndex);
  }

  /** A rendered gallery holds exactly `min(display_count, entries)` names, in descending order, all from the listing. */
  lemma RenderedPage(settings: Settings, jar: Option<string>, io: Io)
    requires Dispatch(settings, jar, io, GetIndex).response.RenderIndex?
    ensures io.listing.Some?
    ensures var page := Dispatch(settings, jar, io, GetIndex).response.imagePaths;
            && |page| == Min(settings.displayCount, |io.listing.value|)
            && NonIncreasing(page)
            && multiset(page) <= multiset(io.listing.value)
  {
    DispatchIsVerdictFirst(settings, jar, io, GetIndex);
  }

  /** `login_post` stores whatever was submitted; the next `GET /` is let in iff it was the password, else 403. */
  lemma LoginThenIndex(settings: Settings, jar: Option<string>, io: Io, value: string, next: Io)
    ensures Dispatch(settings, jar, io, PostLogin(value)) == Reply(Redirect(IndexUri), SetCookie(value))
    ensures var jar' := ApplyCookie(jar, SetCookie(value));
            && jar' == Some(value)
            && (Dispatch(settings, jar', next, GetIndex).response.RenderIndex?
                <==> value == settings.password && next.listing.Some?)
            && (value != settings.password
                ==> Dispatch(settings, jar', next, GetIndex).response == Error(Forbidden))
  {
  }

  /** `logout` clears the cookie whatever it held; the next `GET /` goes to the login page. */
  lemma LogoutThenIndex(settings: Settings, jar: Option<string>, io: Io, next: Io)
    ensures Dispatch(settings, jar, io, PostLogout) == Reply(Redirect(LoginUri), RemoveCookie)
    ensures ApplyCookie(jar, RemoveCookie) == None
    ensures Dispatch(settings, ApplyCookie(jar, RemoveCookie), next, GetIndex) == Reply(Redirect(LoginUri), Keep)
  {
    DispatchIsVerdictFirst(settings, jar, io, PostLogout);
    DispatchIsVerdictFirst(settings, None, next, GetIndex);
  }

  /** The login form is served whatever the cookie holds. */
  lemma LoginFormAlways(settings: Settings, jar: Option<string>, io: Io)
    ensures Dispatch(settings, jar, io, GetLogin) == Reply(RenderLogin, Keep)
  {
  }

  /** When authenticated, `remove` deletes `media_dir + "/" + path` for any `path`, then redirects home. */
  lemma RemoveAuthenticated(settings: Settings, io: Io, path: string)
    ensures var target := settings.mediaDir + "/" + path;
            Dispatch(settings, Some(settings.password), io, GetRemove(path))
            == if target in io.deletable then Reply(Redirect(IndexUri), DeleteFile(target))
               else Reply(Error(InternalServerError), Keep)
  {
  }

  /** The path is not checked: a parent-directory name reaches outside the media directory. */
  lemma RemoveDoesNotValidate(settings: Settings, io: Io)
    requires settings.mediaDir + "/../settings.json" in io.deletable
    ensures Dispatch(settings, Some(settings.password), io, GetRemove("../settings.json"))
            == Reply(Redirect(IndexUri), DeleteFile(settings.mediaDir + "/../settings.json"))
  {
    RemoveAuthenticated(settings, io, "../settings.json");
    assert settings.mediaDir + "/" + "../settings.json" == settings.mediaDir + "/../settings.json";
  }

  /** A file is deleted only by an authenticated `/remove`, and only the one its path names. */
  lemma DeletionNeedsPassword(settings: Settings, jar: Option<string>, io: Io, req: Request)
    ensures var e := Dispatch(settings, jar, io, req).effect;
            e.DeleteFile? <==> (req.GetRemove? && jar == Some(settings.password)
                                && settings.mediaDir + "/" + req.path in io.deletable)
    ensures var e := Dispatch(settings, jar, io, req).effect;
            e.DeleteFile? ==> e.target == settings.mediaDir + "/" + req.path
  {
    DispatchIsVerdictFirst(settings, jar, io, req);
  }

  /** Only `login_post` sets the cookie and only `logout` removes it; neither looks at the guard. */
  lemma CookieChanges(settings: Settings, jar: Option<string>, io: Io, req: Request)
    ensures var e := Dispatch(settings, jar, io, req).effect;
            && (e.SetCookie? <==> req.PostLogin?)
            && (req.PostLogin? ==> e.value == req.password)
            && (e == RemoveCookie <==> req == PostLogout)
  {
    DispatchIsVerdictFirst(settings, jar, io, req);
  }
}
