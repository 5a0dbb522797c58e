/** `AuthenticationService` (src/authentication/authentication.service.ts):
    the credential check behind the passport local strategy, token issuance
    with the `{sub, email, name}` payload, and registration. */
module AuthenticationService {
  import opened Wrappers
  import opened Crypto
  import opened Database
  import UserService
  import AuthService

  /** `validateUser`: the stored user's public fields when the email exists
      and the password matches its hash; `undefined` otherwise, the same for
      both failures. */
  function ValidateUser(t: Table, email: string, password: string, matches: Matcher): (r: Option<PublicUser>)
    ensures email !in Emails(t) ==> r.None?
    ensures email in Emails(t) ==>
      var user := FindByEmail(t, email).value;
      r == (if matches(password, user.password) then Some(PublicUser(user.id, user.name, user.email)) else None)
  {
    match FindByEmail(t, email)
    case None => None
    case Some(user) =>
      if !matches(password, user.password) then None
      else Some(PublicUser(user.id, user.name, user.email))
  }

  /** `generateTokens`: signs exactly `{sub: id, email, name}`. */
  function GenerateTokens(user: PublicUser, sign: Signer): (token: string)
    ensures forall verify: Verifier {:trigger verify(token)} ::
      Inverts(sign, verify) ==> verify(token) == Some(SubEmailName(user.id, user.email, user.name))
  {
    sign(SubEmailName(user.id, user.email, user.name))
  }

  /** `register`: the same record `UserService.create` writes, namely the
      dto with its password replaced by the hash; the created row, hash
      included, is returned. */
  function Register(t: Table, registerDto: UserService.CreateUserDto, id: string, hash: Hasher): (r: Result<(Table, User), DbError>)
    ensures r.Success? <==> registerDto.email !in Emails(t)
    ensures r.Failure? ==> r.error == UniqueViolation("email")
    ensures r.Success? ==>
      var (t', u) := r.value;
      && t' == t + [u]
      && u == User(id, registerDto.name, registerDto.email, hash(registerDto.password))
  {
    var createdUser := UserService.HashedRecord(registerDto, id, hash);
    match Insert(t, createdUser)
    case Success(t') => Success((t', createdUser))
    case Failure(e) => Failure(e)
  }

  /** The two credential checks agree: `validateUser` yields a user exactly
      when `AuthService.authenticate` succeeds, and then the same one;
      both of its failures collapse to `undefined`. */
  lemma ValidateUserAgreesWithAuthenticate(t: Table, email: string, password: string, matches: Matcher, sign: Signer)
    ensures
      var outcome := AuthService.Authenticate(t, AuthService.Credentials(email, password), matches, sign);
      ValidateUser(t, email, password, matches) ==
        if outcome.Authenticated? then Some(outcome.session.user) else None
  {
  }

  /** Registering and then validating with the raw password yields the new
      user's public fields, provided hashing is sound. */
  lemma RegisteredUserValidates(t: Table, registerDto: UserService.CreateUserDto, id: string, hash: Hasher, matches: Matcher)
    requires Sound(hash, matches)
    requires Register(t, registerDto, id, hash).Success?
    ensures
      var t' := Register(t, registerDto, id, hash).value.0;
      ValidateUser(t', registerDto.email, registerDto.password, matches)
        == Some(PublicUser(id, registerDto.name, registerDto.email))
  {
    var (t', u) := Register(t, registerDto, id, hash).value;
    FindAppended(t, u);
    assert matches(registerDto.password, hash(registerDto.password));
  }
}
