/** `AuthService` (src/api/auth/auth.service.ts): email and password login
    producing a signed token and the user's public fields. */
module AuthService {
  import opened Wrappers
  import opened Crypto
  import opened Database
  import UserService

  /** The login body, `Pick<User, 'email' | 'password'>`. */
  datatype Credentials = Credentials(email: string, password: string)

  /** The success payload: the access token and `{id, name, email}`. */
  datatype Session = Session(token: string, user: PublicUser)

  /** `AuthenticationResultType['data']`: two failure tags or a session. */
  datatype AuthenticationResult =
    | UserWithEmailNotFound
    | PasswordNoMatch
    | Authenticated(session: Session)

  /** `generateToken`: signs `{sub: id, email}`. */
  function GenerateToken(id: string, email: string, sign: Signer): (token: string)
    ensures forall verify: Verifier {:trigger verify(token)} ::
      Inverts(sign, verify) ==> verify(token) == Some(SubEmail(id, email))
  {
    sign(SubEmail(id, email))
  }

  /** `authenticate`: looks the user up by email, compares the password with
      the stored hash, and on success returns a token for `{sub, email}`
      with the stored user's public fields. */
  function Authenticate(t: Table, authData: Credentials, matches: Matcher, sign: Signer): (r: AuthenticationResult)
    ensures r.UserWithEmailNotFound? <==> authData.email !in Emails(t)
    ensures r.PasswordNoMatch? <==>
      authData.email in Emails(t) && !matches(authData.password, FindByEmail(t, authData.email).value.password)
    ensures r.Authenticated? ==>
      exists u :: u in t && u.email == authData.email && matches(authData.password, u.password) &&
        r.session == Session(sign(SubEmail(u.id, u.email)), PublicUser(u.id, u.name, u.email))
  {
    match FindByEmail(t, authData.email)
    case None => UserWithEmailNotFound
    case Some(user) =>
      if !matches(authData.password, user.password) then PasswordNoMatch
      else Authenticated(Session(GenerateToken(user.id, user.email, sign), Public(user)))
  }

  /** A user who does not exist is reported without any password
      comparison: the outcome does not depend on the matcher. */
  lemma NotFoundNeverCompares(t: Table, authData: Credentials, m1: Matcher, m2: Matcher, sign: Signer)
    requires authData.email !in Emails(t)
    ensures Authenticate(t, authData, m1, sign) == Authenticate(t, authData, m2, sign) == UserWithEmailNotFound
  {
  }

  /** With unique emails, login succeeds exactly for the stored user with
      that email whose hash the password matches. */
  lemma AuthenticateSucceedsIff(t: Table, authData: Credentials, matches: Matcher, sign: Signer)
    requires UniqueEmails(t)
    ensures Authenticate(t, authData, matches, sign).Authenticated? <==>
      exists i :: 0 <= i < |t| && t[i].email == authData.email && matches(authData.password, t[i].password)
  {
  }

  /** A user created through `UserService.create` can log in with the raw
      password it was created with, provided hashing is sound. */
  lemma CreatedUserCanLogIn(t: Table, dto: UserService.CreateUserDto, id: string,
                            hash: Hasher, matches: Matcher, sign: Signer)
    requires Sound(hash, matches)
    requires UserService.Create(t, dto, id, hash).Success?
    ensures
      var (t', u) := UserService.Create(t, dto, id, hash).value;
      Authenticate(t', Credentials(dto.email, dto.password), matches, sign)
        == Authenticated(Session(sign(SubEmail(id, dto.email)), PublicUser(id, dto.name, dto.email)))
  {
    var (t', u) := UserService.Create(t, dto, id, hash).value;
    FindAppended(t, u);
    assert matches(dto.password, hash(dto.password));
  }
}
