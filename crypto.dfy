/** The two foreign libraries the auth service calls: bcrypt for passwords and jsonwebtoken
    for tokens. They are not reimplemented. The model takes them as a parameter, and the three
    facts the service relies on are stated as the predicate `Lawful`, which only the lemmas
    that need those facts assume. */
module Crypto {
  import opened Js

  /** The random salt bcrypt draws for each new hash. */
  type Salt = nat

  /** The payload the service signs: `{ id, role }`. */
  datatype Claims = Claims(id: int, role: string)

  /** The library entry points the service uses.
      - `hash(password, salt)`: `bcrypt.hash(password, 10)`, with the random salt made explicit.
      - `compare(password, hashed)`: `bcrypt.compare`.
      - `sign(claims, secret, expiresIn, issuedAt)`: `jwt.sign(claims, secret, { expiresIn })`
        at the clock reading `issuedAt`.
      - `verify(token, secret, now)`: `jwt.verify(token, secret)` at the clock reading `now`;
        `None` stands for every way it throws (malformed, bad signature, expired).
      - `lifetime(expiresIn)`: how long a token lives for an `expiresIn` text such as `"24h"`. */
  datatype Primitives = Primitives(
    hash: (string, Salt) -> string,
    compare: (string, string) -> bool,
    sign: (Claims, string, string, Timestamp) -> string,
    verify: (string, string, Timestamp) -> Option<Claims>,
    lifetime: string -> int)

  /** A password always matches its own hash, whatever the salt. A signed token is a compact
      serialization (section 7.1 of RFC 7515: base64url parts joined by dots), so it contains no
      space. A token verified with the secret it was signed with yields exactly the signed
      claims until its expiry instant (the `exp` claim, section 4.1.4 of RFC 7519), and fails
      from then on. */
  ghost predicate Lawful(c: Primitives) {
    && (forall password, salt :: c.compare(password, c.hash(password, salt)))
    && (forall claims, secret, expiresIn, issuedAt :: ' ' !in c.sign(claims, secret, expiresIn, issuedAt))
    && (forall claims, secret, expiresIn, issuedAt, now ::
          c.verify(c.sign(claims, secret, expiresIn, issuedAt), secret, now)
          == if now < issuedAt + c.lifetime(expiresIn) then Some(claims) else None)
  }
}
