/** `AuthController` (src/api/auth/auth.controller.ts): `POST /api/auth/login`,
    turning the authentication result into an exception or into the
    `Authorization` response header plus the response body. */
module AuthController {
  import opened Wrappers
  import opened Crypto
  import opened Http
  import opened Database
  import opened AuthService
  import AuthGuard

  const EmailNotFoundMessage: string := "<email> was invalid or no user is associated with it"
  const PasswordMismatchMessage: string := "<password> did not match the hash"

  /** A successful login: the `Authorization` header value it sets and the
      body it returns. */
  datatype LoginReply = LoginReply(authorization: string, body: Envelope<Session>)

  /** `login`. `now` is the clock reading `formatResponseData` takes. */
  function Login(t: Table, authData: Credentials, matches: Matcher, sign: Signer, now: int): (r: Result<LoginReply, HttpException>)
    ensures var outcome := Authenticate(t, authData, matches, sign);
      && (outcome.UserWithEmailNotFound? <==> r == Failure(BadRequest(EmailNotFoundMessage)))
      && (outcome.PasswordNoMatch? <==> r == Failure(BadRequest(PasswordMismatchMessage)))
      && (outcome.Authenticated? <==> r.Success?)
      && (r.Success? ==>
            && r.value.authorization == "Bearer " + outcome.session.token
            && r.value.body.data == outcome.session
            && r.value.body.timestamps == now)
  {
    var authenticationResult := Authenticate(t, authData, matches, sign);
    match authenticationResult
    case UserWithEmailNotFound => Failure(BadRequest(EmailNotFoundMessage))
    case PasswordNoMatch => Failure(BadRequest(PasswordMismatchMessage))
    case Authenticated(session) =>
      Success(LoginReply("Bearer " + session.token, FormatResponseData(session, now)))
  }

  /** The two failures carry different messages, so a caller can tell an
      unknown email from a wrong password. */
  lemma LoginFailuresAreDistinguishable()
    ensures EmailNotFoundMessage != PasswordMismatchMessage
  {
  }

  /** The header a successful login sets parses back, in the guard, to the
      issued token, provided the token is non-empty and free of spaces (as
      a JWT is). */
  lemma LoginHeaderParsesBack(t: Table, authData: Credentials, matches: Matcher, sign: Signer, now: int)
    requires Login(t, authData, matches, sign, now).Success?
    requires var token := Login(t, authData, matches, sign, now).value.body.data.token;
      token != "" && ' ' !in token
    ensures var reply := Login(t, authData, matches, sign, now).value;
      AuthGuard.ParseAuthorizationHeader(Some(reply.authorization)) == Some(reply.body.data.token)
      && AuthGuard.CarriesToken(Some(reply.authorization))
  {
    var reply := Login(t, authData, matches, sign, now).value;
    AuthGuard.BearerHeaderRoundTrip(reply.body.data.token, "");
  }

  /** End to end: after a successful login, a request to any route carrying
      the returned header is admitted with the login's `{sub, email}`
      claims attached, provided verification recovers what was signed. */
  lemma LoginThenRequestIsAdmitted(t: Table, authData: Credentials, matches: Matcher, sign: Signer,
                                   verify: Verifier, now: int, meta: AuthGuard.RouteMetadata, url: string)
    requires Inverts(sign, verify)
    requires Login(t, authData, matches, sign, now).Success?
    requires var token := Login(t, authData, matches, sign, now).value.body.data.token;
      token != "" && ' ' !in token
    ensures
      var reply := Login(t, authData, matches, sign, now).value;
      var user := reply.body.data.user;
      var req := AuthGuard.Request(url, Some(reply.authorization), None);
      AuthGuard.CanActivate(meta, req, verify) ==
        if AuthGuard.CheckIsPublicRoute(meta) || AuthGuard.CheckIsAuthRoute(url) then AuthGuard.Returned(true, req)
        else AuthGuard.Returned(true, req.(user := Some(SubEmail(user.id, user.email))))
  {
    var reply := Login(t, authData, matches, sign, now).value;
    LoginHeaderParsesBack(t, authData, matches, sign, now);
    var u :| u in t && u.email == authData.email && matches(authData.password, u.password) &&
      reply.body.data == Session(sign(SubEmail(u.id, u.email)), PublicUser(u.id, u.name, u.email));
    assert verify(sign(SubEmail(u.id, u.email))) == Some(SubEmail(u.id, u.email));
  }
}
