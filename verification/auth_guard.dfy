/** `AuthGuard` (src/api/auth/auth.guard.ts): the global gate every request
    passes before reaching a handler. */
module AuthGuard {
  import opened Wrappers
  import opened Js
  import opened Crypto
  import opened Http

  /** The parts of an Express request the guard reads or writes: the URL,
      the `Authorization` header and the `user` slot it fills in. */
  datatype Request = Request(url: string, authorization: Option<string>, user: Option<Claims>)

  /** The public marker as set on the handler and on its controller class;
      `None` where the decorator is absent. */
  datatype RouteMetadata = RouteMetadata(handlerPublic: Option<bool>, classPublic: Option<bool>)

  /** What `canActivate` does: resolve to a boolean (with the request as it
      leaves the guard) or throw. */
  datatype Activation =
    | Returned(allowed: bool, request: Request)
    | Thrown(exception: HttpException)

  const AuthRoutePrefix: string := "/api/auth/"
  const BearerScheme: string := "Bearer"
  const MissingCredentialsMessage: string := "Unavailable credentials to access this route"

  /** `reflector.getAllAndOverride(key, targets)`: the first target on which
      the metadata is defined, in order. */
  function GetAllAndOverride<T>(values: seq<Option<T>>): (r: Option<T>)
    ensures r.None? <==> forall i :: 0 <= i < |values| ==> values[i].None?
    ensures r.Some? ==> exists i :: (0 <= i < |values| && values[i] == r &&
      forall j :: 0 <= j < i ==> values[j].None?)
  {
    if |values| == 0 then None
    else if values[0].Some? then values[0]
    else
      var r := GetAllAndOverride(values[1..]);
      assert r.Some? ==> exists i :: (1 <= i < |values| && values[i] == r &&
        forall j :: 0 <= j < i ==> values[j].None?) by {
        if r.Some? {
          var k :| 0 <= k < |values[1..]| && values[1..][k] == r &&
            forall j :: 0 <= j < k ==> values[1..][j].None?;
          assert values[k + 1] == r;
          forall j | 0 <= j < k + 1 ensures values[j].None? {
            if j > 0 { assert values[j] == values[1..][j - 1]; }
          }
        }
      }
      r
  }

  /** `checkIsPublicRoute`: the handler's marker wins over the class's; an
      absent marker on both means not public. */
  function CheckIsPublicRoute(meta: RouteMetadata): (isPublic: bool)
    ensures isPublic <==>
      meta.handlerPublic == Some(true) || (meta.handlerPublic.None? && meta.classPublic == Some(true))
  {
    var targets := [meta.handlerPublic, meta.classPublic];
    var marker := GetAllAndOverride(targets);
    assert targets[1..] == [meta.classPublic];
    assert [meta.classPublic][1..] == [];
    assert GetAllAndOverride([meta.classPublic]) == meta.classPublic;
    assert marker == if meta.handlerPublic.Some? then meta.handlerPublic else meta.classPublic;
    marker == Some(true)
  }

  /** `checkIsAuthRoute`: the URL starts with `/api/auth/`. */
  function CheckIsAuthRoute(url: string): (isAuthRoute: bool)
    ensures isAuthRoute <==> |url| >= 10 && url[..10] == "/api/auth/"
  {
    AuthRoutePrefix <= url
  }

  /** `parseAuthorizationHeader`: splits the header on spaces and yields the
      second piece when the first is exactly `Bearer`. A token comes back
      exactly when the header starts with `"Bearer "`; it is then the text
      after that prefix up to the next space, and may be empty. */
  function ParseAuthorizationHeader(authorization: Option<string>): (token: Option<string>)
    ensures token.Some? <==> authorization.Some? && "Bearer " <= authorization.value
    ensures token.Some? ==>
      var h := authorization.value;
      && ' ' !in token.value
      && "Bearer " + token.value <= h
      && (|h| == 7 + |token.value| || h[7 + |token.value|] == ' ')
  {
    match authorization
    case None => None
    case Some(h) =>
      var pieces := Split(h, ' ');
      BearerPieces(h);
      if pieces[0] != BearerScheme then None
      else if |pieces| < 2 then None
      else Some(pieces[1])
  }

  /** How the pieces of a header relate to its `"Bearer "` prefix. */
  lemma BearerPieces(h: string)
    ensures var pieces := Split(h, ' ');
      (pieces[0] == "Bearer" && |pieces| >= 2) <==> "Bearer " <= h
    ensures "Bearer " <= h ==> Split(h, ' ') == ["Bearer"] + Split(h[7..], ' ')
  {
    var pieces := Split(h, ' ');
    if "Bearer " <= h {
      assert h == BearerScheme + [' '] + h[7..];
      SplitAfterPiece(BearerScheme, ' ', h[7..]);
    }
    if pieces[0] == "Bearer" && |pieces| >= 2 {
      assert h[..6] == "Bearer";
      assert h[6] == ' ';
      assert h[..7] == "Bearer ";
    }
  }

  /** A header that lets the guard reach verification: `"Bearer "`
      followed by a non-space character. */
  predicate CarriesToken(authorization: Option<string>) {
    authorization.Some? && "Bearer " <= authorization.value &&
    |authorization.value| > 7 && authorization.value[7] != ' '
  }

  /** `canActivate`. `verify` stands for `parseToken` (JWT verification
      with the configured secret and the current time). */
  function CanActivate(meta: RouteMetadata, req: Request, verify: Verifier): (r: Activation)
    ensures CheckIsPublicRoute(meta) ==> r == Returned(true, req)
    ensures CheckIsAuthRoute(req.url) ==> r == Returned(true, req)
    ensures r.Thrown? <==>
      !CheckIsPublicRoute(meta) && !CheckIsAuthRoute(req.url) && !CarriesToken(req.authorization)
    ensures r.Thrown? ==> r.exception == Unauthorized(MissingCredentialsMessage)
    ensures r.Returned? ==> r.request.url == req.url && r.request.authorization == req.authorization
    ensures r.Returned? && !r.allowed ==> r.request == req
    ensures r.Returned? && !CheckIsPublicRoute(meta) && !CheckIsAuthRoute(req.url) ==>
      var token := req.authorization.value[7..];
      var claims := verify(ParseAuthorizationHeader(req.authorization).value);
      && ParseAuthorizationHeader(req.authorization).value <= token
      && r.allowed == claims.Some?
      && (r.allowed ==> r.request == req.(user := claims))
  {
    if CheckIsPublicRoute(meta) then Returned(true, req)
    else if CheckIsAuthRoute(req.url) then Returned(true, req)
    else
      var token := ParseAuthorizationHeader(req.authorization);
      if token.None? || token.value == "" then
        Thrown(Unauthorized(MissingCredentialsMessage))
      else
        match verify(token.value)
        case Some(user) => Returned(true, req.(user := Some(user)))
        case None => Returned(false, req)
  }

  /** `"Bearer " + t` parses to `t` when `t` has no space, and anything after
      a further space is ignored. */
  lemma BearerHeaderRoundTrip(t: string, trailing: string)
    requires ' ' !in t
    ensures ParseAuthorizationHeader(Some("Bearer " + t)) == Some(t)
    ensures ParseAuthorizationHeader(Some("Bearer " + t + " " + trailing)) == Some(t)
  {
    SplitAfterPiece(BearerScheme, ' ', t);
    assert "Bearer " + t == BearerScheme + [' '] + t;
    assert ' ' !in t;
    assert Split(t, ' ') == [t];
    SplitAfterPiece(BearerScheme, ' ', t + " " + trailing);
    assert "Bearer " + t + " " + trailing == BearerScheme + [' '] + (t + " " + trailing);
    SplitAfterPiece(t, ' ', trailing);
    assert t + " " + trailing == t + [' '] + trailing;
  }

  /** The scheme is matched case-sensitively, a missing header or a bare
      `Bearer` yields nothing, and a doubled space yields an empty token. */
  lemma ParseAuthorizationHeaderRejects(t: string)
    ensures ParseAuthorizationHeader(None) == None
    ensures ParseAuthorizationHeader(Some("Bearer")) == None
    ensures ParseAuthorizationHeader(Some("bearer " + t)) == None
    ensures ParseAuthorizationHeader(Some("Token " + t)) == None
    ensures ParseAuthorizationHeader(Some("Bearer  " + t)) == Some("")
  {
    assert !("Bearer " <= "Bearer");
    assert ("bearer " + t)[0] == 'b';
    assert ("Token " + t)[0] == 'T';
    var h := "Bearer  " + t;
    assert "Bearer " <= h;
    BearerPieces(h);
    assert h[7..] == [' '] + t;
    assert Split(h[7..], ' ')[0] == "";
  }

  /** Only URLs under `/api/auth/` are exempt: `/api/auth` itself is not. */
  lemma AuthRoutePrefixExact(rest: string)
    ensures CheckIsAuthRoute("/api/auth/" + rest)
    ensures !CheckIsAuthRoute("/api/auth")
    ensures !CheckIsAuthRoute("/api/authors")
  {
    assert ("/api/auth/" + rest)[..10] == "/api/auth/";
    assert "/api/authors"[..10] != "/api/auth/" by {
      assert "/api/authors"[9] == 'o';
    }
  }

  /** Without a usable token the guard throws whatever the verifier would
      say: verification is never consulted. */
  lemma NoTokenNeverVerifies(meta: RouteMetadata, req: Request, v1: Verifier, v2: Verifier)
    requires !CarriesToken(req.authorization)
    ensures CanActivate(meta, req, v1) == CanActivate(meta, req, v2)
  {
  }
}
