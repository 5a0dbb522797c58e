/** Password hashing (bcrypt) and token signing (JWT) as seen by the core.
    Both libraries are outside the model: each operation is a function value
    handed to the operations that use it, and lemmas that need the
    libraries' guarantees state them as predicates over those values. */
module Crypto {
  import opened Wrappers

  /** The two JWT payload shapes the core signs: `{sub, email}` from the
      login service and `{sub, email, name}` from the passport-based service
      (a `null` name is `None`). Registered claims such as `iat` and `exp`
      are added and checked by the library and are not modelled. */
  datatype Claims =
    | SubEmail(sub: string, email: string)
    | SubEmailName(sub: string, email: string, name: Option<string>)

  /** `generateSecurePassword`: raw password to stored hash. */
  type Hasher = string -> string

  /** `doesPasswordsMatch(raw, hashed)`. */
  type Matcher = (string, string) -> bool

  /** `jwtService.signAsync(payload)` with the module's secret and lifetime. */
  type Signer = Claims -> string

  /** `jwtService.verifyAsync(token)`: the decoded payload, or `None` when
      the promise rejects (bad signature, expired, malformed). The clock and
      the secret are part of the function value. */
  type Verifier = string -> Option<Claims>

  /** A raw password always matches its own hash. */
  ghost predicate Sound(hash: Hasher, matches: Matcher) {
    forall p :: matches(p, hash(p))
  }

  /** A raw password matches a stored hash exactly when the hash is its
      own: `Sound`, and no false matches. */
  ghost predicate Exact(hash: Hasher, matches: Matcher) {
    forall p, h :: matches(p, h) <==> h == hash(p)
  }

  /** Verification recovers the payload of every freshly signed token. */
  ghost predicate Inverts(sign: Signer, verify: Verifier) {
    forall c :: verify(sign(c)) == Some(c)
  }
}
