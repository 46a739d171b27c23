/**
 * The two HTTP clients' interceptors: the bearer header taken from local
 * storage on every request, and the refresh-once handling of a 401 reply.
 * The untyped client sends a failed refresh to `/login`; the typed client
 * keeps the first path segment as the locale.
 */
module Interceptors {
  import opened Wrappers
  import opened Text
  import Locale

  /** `localStorage`: `getItem` of a missing key is `null`. */
  type Storage = map<string, string>

  const AccessKey := "accessToken"
  const RefreshKey := "refreshToken"
  const UserKey := "user"

  const AuthorizationHeader := "Authorization"

  /** A stored value that JavaScript treats as true: present and non-empty. */
  predicate Held(st: Storage, key: string) {
    key in st && st[key] != []
  }

  /** `Bearer <token>`, the credential form of section 2.1 of RFC 6750. */
  function Bearer(token: string): string {
    "Bearer " + token
  }

  /** A request's config: its headers object, when it has one, and the
      `_retry` mark. */
  datatype Request = Request(headers: Option<map<string, string>>, retry: bool)

  function WithAuthorization(req: Request, token: string): (r: Request)
    requires req.headers.Some?
    ensures r.headers.Some? && r.retry == req.retry
  {
    req.(headers := Some(req.headers.value[AuthorizationHeader := Bearer(token)]))
  }

  /** The untyped client's request interceptor, which writes into the headers
      object unconditionally. */
  function ApiRequest(st: Storage, req: Request): Request
    requires req.headers.Some?
  {
    if Held(st, AccessKey) then WithAuthorization(req, st[AccessKey]) else req
  }

  /** The typed client's request interceptor: `token && config.headers`. */
  function ClientRequest(st: Storage, req: Request): Request {
    if Held(st, AccessKey) && req.headers.Some? then WithAuthorization(req, st[AccessKey]) else req
  }

  /** An error reaching the response interceptor: the HTTP status, absent when
      no response came, and the request's config. */
  datatype HttpError = HttpError(status: Option<int>, config: Request)

  /** What the refresh endpoint answers. */
  datatype RefreshReply = Refreshed(accessToken: string, refreshToken: string) | RefreshFailed

  /** The promise the interceptor returns. */
  datatype Outcome =
    | RejectError            // the original error
    | RejectRefreshError     // the error thrown while refreshing
    | Resend(request: Request)

  /** Storage after the interceptor, its outcome, where the page is sent,
      and the refresh token posted to the refresh endpoint, if any. */
  datatype Handling = Handling(storage: Storage, outcome: Outcome, redirect: Option<string>,
                               refreshSent: Option<string>)

  /** The `catch` block: the three keys go and the page moves to the login path. */
  function Failed(st: Storage, loginPath: string, sent: string): Handling {
    Handling(st - {AccessKey, RefreshKey, UserKey}, RejectRefreshError, Some(loginPath), Some(sent))
  }

  /** The response interceptor of both clients, given where a failed refresh
      sends the page. Writing the header of a request without a headers object
      throws inside the `try`, so it ends in the `catch` block. */
  function Respond(st: Storage, err: HttpError, reply: RefreshReply, loginPath: string): Handling {
    if err.status != Some(401) || err.config.retry then Handling(st, RejectError, None, None)
    else if !Held(st, RefreshKey) then Handling(st, RejectError, None, None)
    else
      var req := err.config.(retry := true);
      var sent := st[RefreshKey];
      match reply
      case RefreshFailed => Failed(st, loginPath, sent)
      case Refreshed(access, refresh) =>
        var st' := st[AccessKey := access][RefreshKey := refresh];
        if req.headers.None? then Failed(st', loginPath, sent)
        else Handling(st', Resend(WithAuthorization(req, access)), None, Some(sent))
  }

  /** The untyped client's response interceptor. */
  function ApiRespond(st: Storage, err: HttpError, reply: RefreshReply): Handling {
    Respond(st, err, reply, "/login")
  }

  /** `window.location.pathname.split('/')[1] || 'zh'`. */
  function LocaleSegment(pathname: string): string {
    var pieces := Split(pathname, '/');
    if |pieces| > 1 && pieces[1] != [] then pieces[1] else "zh"
  }

  /** The typed client's login path for the page at `pathname`. */
  function LoginPath(pathname: string): string {
    "/" + LocaleSegment(pathname) + "/login"
  }

  /** The typed client's response interceptor. */
  function ClientRespond(st: Storage, err: HttpError, reply: RefreshReply, pathname: string): Handling {
    Respond(st, err, reply, LoginPath(pathname))
  }

  // ---- properties -------------------------------------------------------------

  /** A request carries `Bearer <token>` exactly when an access token is
      stored, and is otherwise untouched; the typed client agrees whenever the
      request has headers. */
  lemma BearerOnlyWithToken(st: Storage, req: Request)
    requires req.headers.Some?
    ensures var r := ApiRequest(st, req);
      && r.retry == req.retry && r.headers.Some?
      && (Held(st, AccessKey) ==> AuthorizationHeader in r.headers.value
                                  && r.headers.value[AuthorizationHeader] == Bearer(st[AccessKey])
                                  && r.headers.value - {AuthorizationHeader} == req.headers.value - {AuthorizationHeader})
      && (!Held(st, AccessKey) ==> r == req)
    ensures ClientRequest(st, req) == ApiRequest(st, req)
  {
  }

  /** Without headers the typed client sends the request as it is. */
  lemma ClientWithoutHeaders(st: Storage, req: Request)
    requires req.headers.None?
    ensures ClientRequest(st, req) == req
  {
  }

  /** Anything but a first 401 is rejected unchanged, with no refresh and no
      change to storage. */
  lemma OtherErrorsRejected(st: Storage, err: HttpError, reply: RefreshReply, loginPath: string)
    requires err.status != Some(401) || err.config.retry
    ensures Respond(st, err, reply, loginPath) == Handling(st, RejectError, None, None)
  {
  }

  /** With no refresh token stored, a 401 is rejected and storage is untouched. */
  lemma NoRefreshTokenRejects(st: Storage, err: HttpError, reply: RefreshReply, loginPath: string)
    requires !Held(st, RefreshKey)
    ensures Respond(st, err, reply, loginPath) == Handling(st, RejectError, None, None)
  {
  }

  /** A successful refresh stores both new tokens, keeps every other key, and
      resends the request marked as retried with the new bearer. */
  lemma RefreshSucceeds(st: Storage, err: HttpError, access: string, refresh: string, loginPath: string)
    requires err.status == Some(401) && !err.config.retry && Held(st, RefreshKey) && err.config.headers.Some?
    ensures var h := Respond(st, err, Refreshed(access, refresh), loginPath);
      && h.storage[AccessKey] == access && h.storage[RefreshKey] == refresh
      && (forall k :: k in st && k != AccessKey && k != RefreshKey ==> k in h.storage && h.storage[k] == st[k])
      && h.outcome.Resend? && h.outcome.request.retry
      && h.outcome.request.headers.Some?
      && h.outcome.request.headers.value[AuthorizationHeader] == Bearer(access)
      && h.redirect.None? && h.refreshSent == Some(st[RefreshKey])
  {
  }

  /** A failed refresh removes the access token, refresh token and user, keeps
      every other key, rejects, and sends the page to the login path. */
  lemma RefreshFails(st: Storage, err: HttpError, loginPath: string)
    requires err.status == Some(401) && !err.config.retry && Held(st, RefreshKey)
    ensures var h := Respond(st, err, RefreshFailed, loginPath);
      && AccessKey !in h.storage && RefreshKey !in h.storage && UserKey !in h.storage
      && (forall k :: k in st && k != AccessKey && k != RefreshKey && k != UserKey ==> k in h.storage && h.storage[k] == st[k])
      && h.outcome == RejectRefreshError && h.redirect == Some(loginPath)
  {
  }

  /** A request is refreshed at most once: the resent request, failing again
      with anything, is rejected without a second refresh. */
  lemma RefreshAtMostOnce(st: Storage, err: HttpError, reply: RefreshReply, loginPath: string,
                          st2: Storage, status2: Option<int>, reply2: RefreshReply)
    requires Respond(st, err, reply, loginPath).outcome.Resend?
    ensures var resent := Respond(st, err, reply, loginPath).outcome.request;
      Respond(st2, HttpError(status2, resent), reply2, loginPath) == Handling(st2, RejectError, None, None)
  {
  }

  /** The resent request, passing through the request interceptor again, still
      carries the new access token. */
  lemma ResentCarriesNewToken(st: Storage, err: HttpError, access: string, refresh: string, loginPath: string)
    requires Respond(st, err, Refreshed(access, refresh), loginPath).outcome.Resend?
    ensures var h := Respond(st, err, Refreshed(access, refresh), loginPath);
      var r := ApiRequest(h.storage, h.outcome.request);
      r.headers.Some? && r.headers.value[AuthorizationHeader] == Bearer(access)
  {
  }

  /** On a localized page the typed client keeps the page's first segment as
      the locale, whether or not it is a supported one. */
  lemma LoginPathKeepsLocale(route: string, locale: string)
    requires StartsWith(route, "/") && locale != [] && '/' !in locale
    ensures LoginPath(Locale.LocalizedRoute(route, locale)) == "/" + locale + "/login"
  {
    var p := Locale.LocalizedRoute(route, locale);
    assert p == [] + ['/'] + (locale + ['/'] + route[1..]);
    SplitAppend([], locale + ['/'] + route[1..], '/');
    SplitAppend(locale, route[1..], '/');
    SplitOfPlain(locale, '/');
  }

  /** The root page has an empty first segment, so it falls back to zh. */
  lemma LoginPathOfRoot()
    ensures LoginPath("/") == "/zh/login"
  {
    assert "/" == [] + ['/'] + [];
    SplitAppend([], [], '/');
    SplitOfPlain([], '/');
    assert Split("/", '/') == [[], []];
  }

  /** The two clients differ only in where a failed refresh sends the page. */
  lemma ClientsAgree(st: Storage, err: HttpError, reply: RefreshReply, pathname: string)
    ensures var a := ApiRespond(st, err, reply);
      var c := ClientRespond(st, err, reply, pathname);
      a.storage == c.storage && a.outcome == c.outcome && a.refreshSent == c.refreshSent
      && (a.redirect.Some? <==> c.redirect.Some?)
      && (c.redirect.Some? ==> c.redirect.value == LoginPath(pathname) && a.redirect.value == "/login")
  {
  }
}
