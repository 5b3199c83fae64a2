/**
 * Signed identity tokens (`jsonwebtoken`) and password hashes (`bcrypt`).
 * The cryptography is opaque: `Crypto` carries the primitives as functions,
 * and only what the service does around them is modelled.
 */
module Tokens {
  import opened Wrappers

  /** `expiresIn: '1h'`, in seconds. */
  const Lifetime: int := 3600

  /** The payload of a token: what was signed plus the issue and expiry times in seconds. */
  datatype Claims = Claims(userId: string, username: string, iat: int, exp: int)

  /**
   * The opaque primitives: `bcrypt.hash(password, 10)` for a given salt,
   * `bcrypt.compare(password, stored)`, the serialisation and signature of
   * `jwt.sign`, and the signature check and parse of `jwt.verify` (None for
   * a malformed token or a bad signature).
   */
  datatype Crypto = Crypto(
    hash: (string, string) -> string,
    compare: (string, string) -> bool,
    encode: Claims -> string,
    decode: string -> Option<Claims>)

  /** The payload `jwt.sign({userId, username}, secret, {expiresIn: '1h'})` signs at time `nowMs`. */
  function Issue(userId: string, username: string, nowMs: int): (c: Claims)
    ensures c.userId == userId && c.username == username
    ensures c.exp - c.iat == Lifetime
    ensures c.iat * 1000 <= nowMs < c.iat * 1000 + 1000
  {
    Claims(userId, username, nowMs / 1000, nowMs / 1000 + Lifetime)
  }

  /** The token string `jwt.sign` returns. */
  function Sign(crypto: Crypto, userId: string, username: string, nowMs: int): string {
    crypto.encode(Issue(userId, username, nowMs))
  }

  /**
   * `jwt.verify(token, secret)` at time `nowMs`: the payload of a token whose
   * signature checks and whose expiry, compared in whole seconds, is still ahead.
   */
  function Verify(crypto: Crypto, token: string, nowMs: int): (r: Option<Claims>)
    ensures r.Some? ==> crypto.decode(token) == r && nowMs < r.value.exp * 1000
    ensures r.None? <==> crypto.decode(token).None? || crypto.decode(token).value.exp * 1000 <= nowMs
  {
    match crypto.decode(token)
    case None => None
    case Some(c) => if nowMs / 1000 < c.exp then Some(c) else None
  }

  /**
   * Round trip and expiry: when the primitives decode what they encode, a
   * token issued at `issuedMs` verifies to exactly its payload until one hour
   * after the issue second, and never from one hour after `issuedMs` on.
   */
  lemma IssuedTokenLifetime(crypto: Crypto, userId: string, username: string, issuedMs: int, nowMs: int)
    requires crypto.decode(Sign(crypto, userId, username, issuedMs)) == Some(Issue(userId, username, issuedMs))
    ensures var c := Issue(userId, username, issuedMs);
      Verify(crypto, Sign(crypto, userId, username, issuedMs), nowMs)
        == if nowMs < c.iat * 1000 + Lifetime * 1000 then Some(c) else None
    ensures nowMs >= issuedMs + Lifetime * 1000 ==>
      Verify(crypto, Sign(crypto, userId, username, issuedMs), nowMs).None?
    ensures issuedMs <= nowMs < issuedMs + Lifetime * 1000 - 999 ==>
      Verify(crypto, Sign(crypto, userId, username, issuedMs), nowMs) == Some(Issue(userId, username, issuedMs))
  {
  }
}
