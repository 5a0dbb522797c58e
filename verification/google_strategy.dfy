/** `GoogleStrategy.validate` (src/authentication/strategies/google.strategy.ts):
    OAuth find-or-create of the local user for a Google profile. Only
    sequential runs are modelled; the code takes no lock around the lookup
    and the creation. */
module GoogleStrategy {
  import opened Wrappers
  import opened Crypto
  import opened Database
  import UserService
  import AuthenticationService
  import AuthService

  /** The parts of the Google profile the strategy reads: the display name
      and the email addresses, in the order the provider lists them. */
  datatype Profile = Profile(displayName: string, emails: seq<string>)

  /** The object handed to `done(null, …)`: the resolved user's id and
      name, the freshly generated raw password and the provider tokens. */
  datatype VerifiedUser = VerifiedUser(
    id: string, username: Option<string>, password: string, accessToken: string, refreshToken: string)

  /** `profile.emails![0].value` throws when the list is missing or empty;
      a store error from `register` would reject the promise. */
  datatype OAuthError = MissingEmail | StoreError(error: DbError)

  /** `findUserByEmail(email) || register({name, email, password})`:
      the existing user as-is, or a newly registered one. `register` hashes
      the password it receives. */
  function FindOrRegister(t: Table, name: string, email: string, password: string, id: string, hash: Hasher)
    : (r: Result<(Table, User), DbError>)
    ensures r.Success?
    ensures email in Emails(t) ==> r.value == (t, FindByEmail(t, email).value)
    ensures email !in Emails(t) ==>
      r.value.1 == User(id, Some(name), email, hash(password)) && r.value.0 == t + [r.value.1]
  {
    match FindByEmail(t, email)
    case Some(user) => Success((t, user))
    case None => AuthenticationService.Register(t, UserService.CreateUserDto(Some(name), email, password), id, hash)
  }

  /** The body of `validate`, with `registered` the password string passed
      to `register`: the first listed email is looked up, an existing user
      is reused as-is, and otherwise one user is registered under the
      display name. `done` gets the resolved user's id and name, the raw
      generated password and the provider tokens. */
  function ValidateWith(t: Table, profile: Profile, registered: string, generated: string, id: string,
                        accessToken: string, refreshToken: string, hash: Hasher)
    : (r: Result<(Table, VerifiedUser), OAuthError>)
    ensures r.Failure? <==> |profile.emails| == 0
    ensures r.Failure? ==> r.error == MissingEmail
    ensures r.Success? ==>
      var email := profile.emails[0];
      var (t', done) := r.value;
      && email in Emails(t')
      && done.password == generated && done.accessToken == accessToken && done.refreshToken == refreshToken
      && if email in Emails(t) then
           var existing := FindByEmail(t, email).value;
           t' == t && done.id == existing.id && done.username == existing.name
         else
           && t' == t + [User(id, Some(profile.displayName), email, hash(registered))]
           && done.id == id && done.username == Some(profile.displayName)
  {
    if |profile.emails| == 0 then Failure(MissingEmail)
    else
      var email := profile.emails[0];
      match FindOrRegister(t, profile.displayName, email, registered, id, hash)
      case Failure(e) => Failure(StoreError(e))
      case Success((t', user)) =>
        assert email in Emails(t') by {
          if email !in Emails(t) { assert t'[|t|].email == email; }
        }
        Success((t', VerifiedUser(user.id, user.name, generated, accessToken, refreshToken)))
  }

  /** `validate` as written: the generated password is hashed before
      `register`, which hashes it again, so the stored hash is the hash of
      the hash. */
  function ValidateAsWritten(t: Table, profile: Profile, generated: string, id: string,
                             accessToken: string, refreshToken: string, hash: Hasher)
    : (r: Result<(Table, VerifiedUser), OAuthError>)
    ensures r.Failure? <==> |profile.emails| == 0
    ensures r.Success? ==>
      var email := profile.emails[0];
      var (t', done) := r.value;
      if email in Emails(t) then
        var existing := FindByEmail(t, email).value;
        t' == t && done == VerifiedUser(existing.id, existing.name, generated, accessToken, refreshToken)
      else
        && t' == t + [User(id, Some(profile.displayName), email, hash(hash(generated)))]
        && done == VerifiedUser(id, Some(profile.displayName), generated, accessToken, refreshToken)
  {
    ValidateWith(t, profile, hash(generated), generated, id, accessToken, refreshToken, hash)
  }

  /** `validate` with a single hashing step, the corrected definition: the
      raw generated password is handed to `register`, which stores its
      hash. */
  function Validate(t: Table, profile: Profile, generated: string, id: string,
                    accessToken: string, refreshToken: string, hash: Hasher)
    : (r: Result<(Table, VerifiedUser), OAuthError>)
    ensures r.Failure? <==> |profile.emails| == 0
    ensures r.Success? ==>
      var email := profile.emails[0];
      var (t', done) := r.value;
      if email in Emails(t) then
        var existing := FindByEmail(t, email).value;
        t' == t && done == VerifiedUser(existing.id, existing.name, generated, accessToken, refreshToken)
      else
        && t' == t + [User(id, Some(profile.displayName), email, hash(generated))]
        && done == VerifiedUser(id, Some(profile.displayName), generated, accessToken, refreshToken)
  {
    ValidateWith(t, profile, generated, generated, id, accessToken, refreshToken, hash)
  }

  /** Find-or-create keeps the email column unique, whatever password is
      handed to `register`: this covers the strategy as written
      (`registered` is the hash of the generated password) and the
      corrected one (`registered` is the generated password). */
  lemma ValidateKeepsEmailsUnique(t: Table, profile: Profile, registered: string, generated: string, id: string,
                                  accessToken: string, refreshToken: string, hash: Hasher)
    requires UniqueEmails(t)
    requires |profile.emails| > 0
    ensures UniqueEmails(ValidateWith(t, profile, registered, generated, id, accessToken, refreshToken, hash).value.0)
  {
  }

  /** Two sequential first-time logins with the same Google email create
      one user: the second run finds the first run's user, leaves the store
      as it was and resolves to the same id and name, whatever provider
      tokens each run carries. As above, this holds
      for any password handed to `register`, so for the code as written. */
  lemma SequentialLoginsCreateOneUser(t: Table, p1: Profile, p2: Profile, r1: string, r2: string,
                                      g1: string, g2: string, id1: string, id2: string,
                                      at1: string, rt1: string, at2: string, rt2: string, hash: Hasher)
    requires UniqueEmails(t)
    requires |p1.emails| > 0 && |p2.emails| > 0 && p1.emails[0] == p2.emails[0]
    requires p1.emails[0] !in Emails(t)
    ensures
      var (t1, d1) := ValidateWith(t, p1, r1, g1, id1, at1, rt1, hash).value;
      var (t2, d2) := ValidateWith(t1, p2, r2, g2, id2, at2, rt2, hash).value;
      && t1 == t + [User(id1, Some(p1.displayName), p1.emails[0], hash(r1))]
      && t2 == t1
      && d2.id == d1.id == id1
      && d2.username == d1.username == Some(p1.displayName)
      && UniqueEmails(t2)
  {
  }

  /** The as-written strategy hands out a password that cannot log in.
      Witness: with the sound hasher `p ↦ "#" + p`, a new user created from
      a Google profile stores `"##" + p`, and `AuthService.authenticate`
      with the password passed to `done` reports `PASSWORD_NO_MATCH`. */
  lemma AsWrittenGeneratedPasswordCannotLogIn(generated: string, sign: Signer)
    ensures
      var hash: Hasher := p => "#" + p;
      var matches: Matcher := (p, h) => h == "#" + p;
      var profile := Profile("Ada", ["ada@example.com"]);
      var (t', done) := ValidateAsWritten([], profile, generated, "u1", "at", "rt", hash).value;
      && Sound(hash, matches)
      && AuthService.Authenticate(t', AuthService.Credentials("ada@example.com", done.password), matches, sign)
           == AuthService.PasswordNoMatch
  {
    var hash: Hasher := p => "#" + p;
    var matches: Matcher := (p, h) => h == "#" + p;
    var profile := Profile("Ada", ["ada@example.com"]);
    var (t', done) := ValidateAsWritten([], profile, generated, "u1", "at", "rt", hash).value;
    assert t'[0].password == "##" + generated;
    assert |"##" + generated| != |"#" + generated|;
    assert FindByEmail(t', "ada@example.com").value == t'[0];
  }

  /** The as-written failure for every exact hasher: when the matcher
      accepts a password against exactly its own hash, and hashing the hash
      gives a different string, the password handed to `done` for a new
      user gets `PASSWORD_NO_MATCH`. */
  lemma AsWrittenPasswordFailsForExactMatcher(t: Table, profile: Profile, generated: string, id: string,
                                              accessToken: string, refreshToken: string,
                                              hash: Hasher, matches: Matcher, sign: Signer)
    requires Exact(hash, matches)
    requires hash(hash(generated)) != hash(generated)
    requires |profile.emails| > 0 && profile.emails[0] !in Emails(t)
    ensures
      var (t', done) := ValidateAsWritten(t, profile, generated, id, accessToken, refreshToken, hash).value;
      AuthService.Authenticate(t', AuthService.Credentials(profile.emails[0], done.password), matches, sign)
        == AuthService.PasswordNoMatch
  {
  }

  /** With the single hashing step, the password passed to `done` for a
      new user logs in, provided hashing is sound. */
  lemma GeneratedPasswordLogsIn(t: Table, profile: Profile, generated: string, id: string,
                                accessToken: string, refreshToken: string, hash: Hasher, matches: Matcher, sign: Signer)
    requires Sound(hash, matches)
    requires |profile.emails| > 0 && profile.emails[0] !in Emails(t)
    ensures
      var (t', done) := Validate(t, profile, generated, id, accessToken, refreshToken, hash).value;
      AuthService.Authenticate(t', AuthService.Credentials(profile.emails[0], done.password), matches, sign).Authenticated?
  {
  }
}
