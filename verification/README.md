# Authentication and request gating of the quotes catalog backend

This project models the security core of a NestJS REST backend for a book-quotes catalog, along with the few pure query-option builders around it:

- **the global request gate** (`AuthGuard.canActivate`). A request is admitted when the route carries a public marker or its URL lies under `/api/auth/`. Otherwise it needs an `Authorization: Bearer <token>` header. A missing or empty token throws `Unauthorized`. A token that verifies attaches its payload to `request.user`, and one that fails makes the guard return `false`;
- **credential checking**. There are two versions, `AuthService.authenticate` and `AuthenticationService.validateUser`, plus the `Bearer <token>` header that `AuthController.login` sets;
- **token payloads** (`{sub, email}` and `{sub, email, name}`);
- **Google OAuth find-or-create** (`GoogleStrategy.validate`), modelled over sequential runs;
- **password handling in the user store** (`UserService.create/update`, `AuthenticationService.register`);
- **the book and author listing options**: the publish-year filter, JavaScript truthiness-based filters, the default `take` of 50, and the connect list of `create`.

bcrypt and JWT appear as function values (`Hasher`, `Matcher`, `Signer`, `Verifier` in module `Crypto`). The user table is a `seq<User>` whose `email` column is unique. `Insert` fails on a taken email, as the unique constraint does. JavaScript `undefined` is `Option.None`. Truthiness is written out: `Js.TruthyNumber` treats `undefined` and `0` as falsy, and `Js.TruthyString` does the same for `undefined` and `""`. `split(' ')` is `Js.Split`, with `Js.Join` as its inverse. The model follows the code, including these behaviours, which a reader might not expect:

- A header with more than two space-separated pieces is accepted. Only the first two pieces are read.
- Verification failure makes the guard return `false`, while a missing token throws `Unauthorized`. The two outcomes are distinguishable.
- `login` reports an unknown email and a wrong password with two different `BadRequest` messages.
- Google find-or-create takes no lock and does no retry on a uniqueness conflict. Only sequential runs are modelled.
- `"gt"` and `"lt"` produce inclusive bounds (`gte`, `lte`).
- Only `/api/auth/` is an exempt prefix.

## Model

| member | source | states |
|---|---|---|
| Js.Split | src/api/auth/auth.guard.ts:68 | `split(' ')` yields at least one piece and no piece contains the separator. The first piece is a prefix of the input and ends at its first separator. There is exactly one piece iff the input has no separator. |
| Js.SplitAfterPiece | src/api/auth/auth.guard.ts:68 | A separator-free piece followed by the separator splits off as the first piece, and the remainder splits independently. |
| Js.JoinSplit | src/api/auth/auth.guard.ts:68 | Joining the pieces of a split restores the original header. |
| Js.SplitJoin | src/api/auth/auth.guard.ts:68 | Splitting a join of separator-free pieces restores the pieces. |
| AuthGuard.GetAllAndOverride | src/api/auth/auth.guard.ts:53-56 | The result is the first defined marker in target order, and it is undefined iff no target defines one. |
| AuthGuard.CheckIsPublicRoute | src/api/auth/auth.guard.ts:52-59 | A route is public iff the handler's marker is true, or the handler has none and the class's marker is true. A handler marker of false overrides the class, and an absent marker means not public. |
| AuthGuard.CheckIsAuthRoute | src/api/auth/auth.guard.ts:61-64 | Exempt iff the first ten characters of the URL are `/api/auth/`. |
| AuthGuard.AuthRoutePrefixExact | src/api/auth/auth.guard.ts:61-64 | Every URL under `/api/auth/` is exempt. `/api/auth` without the slash is not, and neither is `/api/authors`. |
| AuthGuard.ParseAuthorizationHeader | src/api/auth/auth.guard.ts:66-76 | A token is returned iff the header is present and starts with `"Bearer "`. The token is then space-free and follows that prefix, and it runs to the end of the header or to the next space. |
| AuthGuard.BearerPieces | src/api/auth/auth.guard.ts:68-72 | The first piece is exactly `Bearer` and a second piece exists iff the header starts with `"Bearer "`. The pieces are then `Bearer` followed by the pieces of the rest. |
| AuthGuard.BearerHeaderRoundTrip | src/api/auth/auth.guard.ts:68-74 | For a space-free `t`, both `"Bearer " + t` and `"Bearer " + t + " " + anything` parse to `t`: pieces after the second are ignored. |
| AuthGuard.ParseAuthorizationHeaderRejects | src/api/auth/auth.guard.ts:66-74 | These headers yield no token: a missing header, a bare `Bearer`, `bearer …` (case-sensitive) and `Token …`. `"Bearer  x"` yields the empty token. |
| AuthGuard.CanActivate | src/api/auth/auth.guard.ts:17-50 | A public or `/api/auth/` route is admitted unchanged. Any other route throws `Unauthorized` iff the header is not `"Bearer "` followed by a non-space character. Otherwise the guard admits iff verification succeeds. It then attaches exactly the decoded claims, and on failure it returns false and leaves the request untouched. URL and header are never altered. |
| AuthGuard.NoTokenNeverVerifies | src/api/auth/auth.guard.ts:34-43 | Without a usable token the outcome is the same whatever the verifier does, so verification is never consulted. |
| Database.FindByEmail | src/api/auth/auth.service.ts:34 | The lookup finds nothing iff no stored user has the email. A found user is stored and has that email, and with unique emails it is the only such user. |
| Database.FindAppended | src/api/auth/auth.service.ts:34 | After a row with a fresh email is appended, the lookup by that email finds exactly that row, whatever the rest of the table holds. |
| UserService.HashedRecord | src/api/user/user.service.ts:26-32 | The record to store copies id, name and email from the dto. Its password matches the raw password under every sound matcher, and it differs from the raw password whenever the hasher changes it. |
| UserService.Create | src/api/user/user.service.ts:24-36 | Creation succeeds iff the email is free, and otherwise it fails with a uniqueness error. The new row is appended with the given id, name and email and the hash of the raw password. |
| UserService.CreateNeverStoresRawPassword | src/api/user/user.service.ts:26-32 | If the hasher never returns its input, the created row never holds the raw password, and no row of the table does unless one already did. |
| UserService.UpdateData | src/api/user/user.service.ts:75-85 | The update data carries a password iff a non-empty one is supplied, and then it carries that password's hash. Name and email pass through. |
| UserService.Update | src/api/user/user.service.ts:74-93 | The update fails as not-found iff no row has the id. For an existing id it succeeds iff no other row already holds the resulting email, and otherwise it fails with a uniqueness error. On success only that row changes. Its password becomes the hash of a supplied non-empty password and otherwise stays as it was. Supplied name and email replace the old ones, and the returned view is the updated row without its password. |
| UserService.UpdateWithoutPasswordKeepsPasswords | src/api/user/user.service.ts:75-85 | An update without a password, or with an empty one, leaves every stored password as it was. |
| UserService.FindAll | src/api/user/user.service.ts:38-49 | One password-free view per stored user, with id, name and email equal to the row's. |
| UserService.FindOne | src/api/user/user.service.ts:61-72 | Nothing iff no row has the id. Otherwise the view is that row's id, name and email, with no password. |
| AuthService.Authenticate | src/api/auth/auth.service.ts:30-55 | `USER_WITH_EMAIL_NOT_FOUND` iff no user has the email. `PASSWORD_NO_MATCH` iff the user exists and the password does not match the stored hash. On success the result comes from a stored user with that email whose hash matches: a token signed over `{sub: id, email}` and the user's `{id, name, email}`. |
| AuthService.GenerateToken | src/api/auth/auth.service.ts:57-66 | Any verifier that inverts signing decodes the token to exactly `{sub: id, email}`. |
| AuthService.NotFoundNeverCompares | src/api/auth/auth.service.ts:34-37 | For an unknown email the result is not-found, whatever the password matcher does, so no comparison happens. |
| AuthService.AuthenticateSucceedsIff | src/api/auth/auth.service.ts:34-55 | With unique emails, login succeeds iff some stored user has the email and a hash the password matches. |
| AuthService.CreatedUserCanLogIn | src/api/auth/auth.service.ts:34-39 | On every table, a user created by `UserService.create` logs in with its raw password if hashing is sound, and gets the expected token and public fields. |
| AuthController.Login | src/api/auth/auth.controller.ts:14-32 | An unknown email gives `BadRequest` with the email message, and a mismatch gives `BadRequest` with the password message. On success the `Authorization` header is `"Bearer " + token`, the body's data is exactly the authentication data, and the body's timestamp is the clock reading. |
| Http.FormatResponseData | src/lib/formatters.ts:1-12 | The envelope carries the data unchanged, and its timestamp is the clock reading. |
| AuthController.LoginFailuresAreDistinguishable | src/api/auth/auth.controller.ts:21-27 | The not-found message differs from the mismatch message. |
| AuthController.LoginHeaderParsesBack | src/api/auth/auth.controller.ts:29 | For a non-empty space-free token, the header set by login is parsed by the guard back to the same token and reaches verification. |
| AuthController.LoginThenRequestIsAdmitted | src/api/auth/auth.controller.ts:29-31 | If verification inverts signing, a request carrying the login header is admitted on every route. On a guarded route it carries the `{sub, email}` of the logged-in user. |
| AuthenticationService.ValidateUser | src/authentication/authentication.service.ts:18-31 | The result is nothing for an unknown email, and also nothing for a mismatching password, with no difference between the two. Otherwise it is the stored user's `{id, name, email}`. |
| AuthenticationService.ValidateUserAgreesWithAuthenticate | src/authentication/authentication.service.ts:18-31 | `validateUser` returns a user exactly when `AuthService.authenticate` succeeds, and then the same public user. |
| AuthenticationService.GenerateTokens | src/authentication/authentication.service.ts:33-36 | Any verifier that inverts signing decodes the token to exactly `{sub: id, email, name}` of the user. |
| AuthenticationService.Register | src/authentication/authentication.service.ts:38-49 | Registration succeeds iff the email is free. The appended row copies id, name and email and stores the hash of the password in place of the raw value. |
| AuthenticationService.RegisteredUserValidates | src/authentication/authentication.service.ts:38-49 | On every table, if hashing is sound, validating a registered user with the raw password returns that user's public fields. |
| GoogleStrategy.FindOrRegister | src/authentication/strategies/google.strategy.ts:32-36 | Find-or-create never fails. An existing user is returned as-is and the store is unchanged. Otherwise exactly one row is appended, with the display name, the email and the hash of the password handed to `register`. |
| GoogleStrategy.ValidateWith | src/authentication/strategies/google.strategy.ts:26-45 | For any password handed to `register`: the strategy fails iff the profile lists no email. A known first email leaves the store unchanged, and `done` gets that user's id and name. A new one appends exactly one row with the display name, the email and the hash of the password handed to `register`, and `done` gets the new id and the display name. `done` always gets the raw generated password and the provider tokens. |
| GoogleStrategy.ValidateAsWritten | src/authentication/strategies/google.strategy.ts:26-45 | The code as written: a known first email reuses that user, leaves the store unchanged and hands its id and name to `done`. A new email appends one user whose stored password is the hash of the hash of the generated password, and `done` gets the new id and the display name. |
| GoogleStrategy.Validate | src/authentication/strategies/google.strategy.ts:26-45 | The corrected, hash-once definition (see Findings), which differs from the code at line 35. The first listed email is used. An existing user is returned as-is, the store is unchanged and `done` gets that user's id and name. A new email appends exactly one user with the display name, that email and the hash of the generated password. |
| GoogleStrategy.ValidateKeepsEmailsUnique | src/authentication/strategies/google.strategy.ts:32-36 | Find-or-create preserves uniqueness of emails for any password handed to `register`. This includes the code as written. |
| GoogleStrategy.SequentialLoginsCreateOneUser | src/authentication/strategies/google.strategy.ts:26-36 | Two sequential first logins with the same email, each with its own provider tokens, create one user: the second run leaves the store unchanged and resolves to the first run's id and name. This holds for any password handed to `register`, so it holds for the code as written. |
| GoogleStrategy.AsWrittenGeneratedPasswordCannotLogIn | src/authentication/strategies/google.strategy.ts:30-36 | Counterexample: with the witness hasher `p ↦ "#" + p` and its exact matcher (a sound pair), the password the as-written strategy hands to `done` gets `PASSWORD_NO_MATCH` on login. |
| GoogleStrategy.AsWrittenPasswordFailsForExactMatcher | src/authentication/strategies/google.strategy.ts:30-36 | As written, the password handed to `done` for a new user gets `PASSWORD_NO_MATCH`. This holds for every matcher that accepts exactly a password's own hash, whenever hashing the hash changes it. |
| GoogleStrategy.GeneratedPasswordLogsIn | src/authentication/strategies/google.strategy.ts:30-44 | With single hashing and a sound hasher, the password handed to `done` for a new user logs in, on every table where the email is new. |
| BookHelpers.GetFilterOptionsByPublishYear | src/api/book/lib/helpers.ts:3-25 | The result is undefined iff the value is undefined or 0, and `{}` iff no option is given. `gt`, `lt` and `eq` give `gte`, `lte` and `equals` respectively, and every bound equals the input value. |
| BookHelpers.PublishYearFilterMeaning | src/api/book/lib/helpers.ts:6-23 | The filter keeps every row when the value is falsy or no option is given. Otherwise it keeps years at or after the value for `gt`, at or before it for `lt`, and equal to it for `eq`. |
| BookHelpers.PublishYearFilterDeterminesInputs | src/api/book/lib/helpers.ts:9-19 | A produced bound determines both the value and the option it came from. |
| BookService.ContainsIfTruthy | src/api/book/book.service.ts:45-47 | A `contains` filter is present iff the string is non-empty, and then it holds that string. |
| BookService.FindAllArgs | src/api/book/book.service.ts:39-60 | `take` is the limit when it is defined and non-zero, and 50 otherwise, so never 0. The year filter is the helper's output for `(publishYear, pyc)`. House, town and edition filters are present iff non-empty and equal their inputs. Authors and a quote count are included. |
| BookService.FindAllWhereMeaning | src/api/book/book.service.ts:43-48 | A book row passes the `where` iff it passes the year comparison and contains every non-empty string option in its column. |
| BookService.FindAllWithoutOptions | src/api/book/book.service.ts:39-47 | With no options the query takes 50, has every `where` field absent and admits every row. |
| BookService.ConnectList | src/api/book/book.service.ts:24 | One `{id}` per author id, in the same order and length. |
| BookService.ConnectListRoundTrip | src/api/book/book.service.ts:24 | Reading the ids back from the connect list gives the author ids exactly. |
| BookService.CreateArgs | src/api/book/book.service.ts:19-37 | Every scalar field of the dto is copied. The connect list refers to exactly the dto's author ids in order, and the standard include is requested. |
| AuthorService.GetManyAuthorsArgs | src/api/author/author.service.ts:29-52 | `where.name.contains` is present iff the hint is non-empty, and then it equals the hint. `take` is present iff the limit is defined and non-zero, and then it equals the limit. The include counts books and nothing else. |
| AuthorService.GetManyAuthorsWithoutArguments | src/api/author/author.service.ts:31-50 | With no arguments, or with an empty hint and a zero limit, the options hold only the join schema. |
| AuthorService.GetManyAuthorsMeaning | src/api/author/author.service.ts:33-40 | An author passes iff there is no non-empty hint or its name contains the hint. |

## Left out

- Cryptography: bcrypt hashing and comparison (src/lib/passwordHandlers.ts) and JWT signing, verification and expiry are function parameters. Salting, cost factor and token lifetime are therefore not modelled. Lemmas that need the libraries' behaviour assume it through `Crypto.Sound`, where a password matches its own hash, and `Crypto.Inverts`, where verification recovers what was signed. The two JWT modules configure different lifetimes ('1d' and '1h'), which are not modelled.
- `findUserByEmail` and `generateDefaultPasswordForOAuth` are called but are not part of this model. The first is modelled as a lookup in the table. The second is a `generated` parameter.
- Concurrent Google logins: the code takes no lock or transaction around lookup-then-create, so only sequential runs are modelled.
- The ORM: the user table models only row append, lookup, update by id and the unique email column. Ids are supplied by the caller (the database generates them), and id collisions are not checked. For the listing queries, the model gives the meaning of the filters the builders produce (`Query.AdmitsString`, `BookHelpers.AdmitsYear`), not the query execution, paging or joins.
- Query.AdmitsString: `contains` is read as case-sensitive substring containment that excludes rows whose column is NULL, and year bounds also exclude NULL years. The case sensitivity of `contains` depends on the database provider and its collation. It is case-sensitive on PostgreSQL by default, but not under MySQL's default collations, and the code names no provider. On a case-insensitive store, `FindAllWhereMeaning` and `GetManyAuthorsMeaning` admit fewer rows than the database returns, for example `orwell` against `George Orwell`.
- UserService.FindAll: ordering by name and the `_count` join schema are not modelled. Views follow table order.
- UserService.FindOne: the `_count` join schema is not modelled. The same holds for `UserService.Update`.
- UserService.Update: the update body reaches the service without a validation pipe (src/api/user/user.controller.ts:50), and `...updateUserDto` spreads every key into the update data. Extra keys such as `id`, and `null` values such as `"name": null`, are therefore written as sent. The model's three-field dto cannot express either, so its promise that the row keeps its id covers only bodies with the three declared fields, none of them null.
- UserService.Create: the create dto marks `email` optional (src/api/user/user.dto.ts:12-13), so a body without an email passes validation and reaches the ORM, which rejects it because the column is required. The model's dto always carries an email, so this rejection is not modelled.
- AuthService.Authenticate: the login body reaches the service without a validation pipe (src/api/auth/auth.controller.ts:15). The model has only bodies with a string email and a string password. A missing or non-string password makes the bcrypt comparison (src/lib/passwordHandlers.ts:9) reject, so `authenticate` and `login` reject as well. That fourth outcome is not modelled, and neither is the lookup of a missing email.
- User fields other than id, name, email and password (`newsletter`, `newsletterFrequence`) are not modelled.
- AuthGuard.CanActivate: the decoded payload is modelled without its registered claims (`iat`, `exp`), and the `console.log` on failure is left out. `request.user` holds only the payload shape.
- Number inputs are integers. `NaN` and fractional limits or years are not modelled, and a negative `take` is passed through without modelling what the ORM does with it.
- The passport local and JWT strategies, the guard classes, `AuthenticationController` (its login sets the raw token without the `Bearer ` prefix, and its logout only removes a header), and the CRUD controllers are not modelled. The same goes for quotes, categories and the remaining book and user service methods (`getAllQuotes`, `findOne`, `update`, `remove`, `addAuthorToBook`, `removeAuthorFromBook`, `findAllUsersQuotes`).
- DTO validation decorators (email format, strong password, UUID) are not modelled. Their meaning lives in the validation library.
- `formatResponseData` reads the clock. The clock is a `now` parameter.

## Findings

| source | as written | input that shows it | evidently intended | confidence | as-written member | corrected member |
|---|---|---|---|---|---|---|
| src/authentication/strategies/google.strategy.ts:32-36 | The generated password is hashed with `generateSecurePassword` and then passed to `register`, which hashes it again. A new OAuth user is stored with the hash of the hash, so the raw password handed to `done` never matches on login. | A profile with a new email such as `ada@example.com` and any generated password `p`. With the witness hasher `p ↦ "#" + p` and its exact matcher, logging in with `p` gives `PASSWORD_NO_MATCH`. The same holds for every matcher that accepts only a password's own hash, whenever `hash(hash(p)) != hash(p)`. A matcher that accepts everything would hide the bug. | Hash once: pass the raw generated password to `register`, so that the stored hash is `hash(p)`. | medium (not executed) | GoogleStrategy.AsWrittenGeneratedPasswordCannotLogIn | GoogleStrategy.GeneratedPasswordLogsIn |
