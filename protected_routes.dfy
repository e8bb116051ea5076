/**
 * The protected-route guard (`protected-routes/src/proutes.rs`): a request
 * whose path starts with a protected route and whose session holds no token
 * is redirected to the login page; every other request goes on downstream.
 */
module ProtectedRoutes {
  import opened Wrappers
  import opened Text
  import opened Http

  /** The protected route prefixes. */
  const PROTECTED_ROUTES: seq<string> := ["/dashboard"]

  const LOGIN := "/login"

  /** A session token (`surrealdb::opt::auth::Jwt`), kept as its text. */
  type Jwt = string

  /** The result of `session.get::<Jwt>(SESSION_TOKEN_KEY)`: a failed read, or the token if one is stored. */
  datatype SessionLookup = LookupFailed | Found(token: Option<Jwt>)

  /** `matches!(lookup, Ok(Some(_)))`. */
  predicate IsAuthenticated(lookup: SessionLookup)
  {
    lookup.Found? && lookup.token.Some?
  }

  /** Only a stored token authenticates: a failed read and an empty session do not. */
  lemma AuthenticatedIffToken(lookup: SessionLookup)
    ensures IsAuthenticated(lookup) <==> exists t :: lookup == Found(Some(t))
    ensures lookup == LookupFailed ==> !IsAuthenticated(lookup)
    ensures lookup == Found(None) ==> !IsAuthenticated(lookup)
  {
    if IsAuthenticated(lookup) {
      assert lookup == Found(Some(lookup.token.value));
    }
  }

  /** `PROTECTED_ROUTES.iter().any(|r| path.starts_with(r))`. */
  function IsProtected(path: string): bool
  {
    Any(PROTECTED_ROUTES, r => StartsWith(path, r))
  }

  /** A path is protected iff `/dashboard` is a prefix of it (a prefix match, not a segment match). */
  lemma IsProtectedIff(path: string)
    ensures IsProtected(path) <==> "/dashboard" <= path
  {
    StartsWithSpec(path, "/dashboard");
  }

  /** `/dashboard`, `/dashboard/x` and `/dashboardx` are protected; `/`, `/login` and `/dash` are not. */
  lemma ProtectedExamples(path: string)
    ensures path == "/dashboard" || path == "/dashboard/settings" || path == "/dashboardx" ==> IsProtected(path)
    ensures path == "/" || path == "/login" || path == "/dash" ==> !IsProtected(path)
  {
    IsProtectedIff(path);
    if path == "/dashboard/settings" {
      assert path[..10] == "/dashboard";
    } else if path == "/dashboardx" {
      assert path[..10] == "/dashboard";
    } else if path == "/login" {
      assert path[1] != "/dashboard"[1];
    }
  }

  /** What the guard does with one request: the response and whether downstream was called. */
  datatype Served = Served(response: Message, ranNext: bool)

  /** `handler`: only the path of the target and the session lookup decide. */
  function Handler(session: SessionLookup, req: Request, next: Message): (served: Served)
    ensures served.ranNext <==> !IsProtected(req.uri.path) || IsAuthenticated(session)
    ensures served.ranNext ==> served.response == next
    ensures !served.ranNext ==> served.response == TemporaryRedirect(LOGIN)
  {
    var path := req.uri.path;
    var isAuth := IsAuthenticated(session);
    var isProtected := IsProtected(path);
    if isProtected && !isAuth then Served(TemporaryRedirect(LOGIN), false)
    else Served(next, true)
  }

  /** A protected path without a token is answered with 307 to `/login`; downstream is not called. */
  lemma UnauthenticatedProtectedRedirects(session: SessionLookup, req: Request, next: Message)
    requires "/dashboard" <= req.uri.path && !IsAuthenticated(session)
    ensures !Handler(session, req, next).ranNext
    ensures Handler(session, req, next).response.parts.status == TEMPORARY_REDIRECT
    ensures Get(Handler(session, req, next).response.parts.headers, LOCATION) == Some("/login")
  {
    IsProtectedIff(req.uri.path);
  }

  /** An unprotected path is forwarded whatever the session, and so is any path with a token. */
  lemma ForwardedOtherwise(session: SessionLookup, req: Request, next: Message)
    requires !("/dashboard" <= req.uri.path) || IsAuthenticated(session)
    ensures Handler(session, req, next) == Served(next, true)
  {
    IsProtectedIff(req.uri.path);
  }

  /** The query string plays no part: two targets with the same path get the same decision. */
  lemma QueryIgnored(session: SessionLookup, req1: Request, req2: Request, next: Message)
    requires req1.uri.path == req2.uri.path
    ensures Handler(session, req1, next) == Handler(session, req2, next)
  {
  }
}
