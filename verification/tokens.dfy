/** Signed, time-limited tokens as the controllers use `jsonwebtoken`: `sign(payload, key,
    { expiresIn: '30m' })` and `verify(token, key)`. Cryptography is not modelled: a token
    records the secret it was signed with, its claims and its issue time, and verification
    under a secret succeeds exactly when the secrets agree and the token has not expired. */
module Tokens {
  import opened Wrappers

  /** Seconds, as `jsonwebtoken` counts `iat`, `exp` and the clock. */
  type Time = int

  /** `expiresIn: '30m'`. */
  const ExpiresIn: nat := 1800

  /** `JWT_KEY` signs activation tokens, `JWT_RESET_KEY` reset tokens; any other secret stands
      for a forged, tampered or malformed token. */
  datatype Secret = JwtKey | JwtResetKey | OtherSecret(n: nat)

  /** The fields of a decoded payload the controllers read; `None` is an absent field. */
  datatype Claims = Claims(name: Option<string>, email: Option<string>, password: Option<string>, id: Option<string>)

  datatype Token = Token(key: Secret, claims: Claims, issuedAt: Time)

  /** `jwt.sign(claims, key, { expiresIn: '30m' })` at clock `now`: the token verifies under
      `key` and no other secret, for the thirty minutes from `now`, and yields `claims`. */
  function Sign(claims: Claims, key: Secret, now: Time): (t: Token)
    ensures forall k, at :: Verify(t, k, at).Some? <==> k == key && at < now + ExpiresIn
    ensures forall k, at :: Verify(t, k, at).Some? ==> Verify(t, k, at).value == claims
  {
    Token(key, claims, now)
  }

  /** `jwt.verify(t, key)` at clock `now`: the token is expired once the clock reaches
      `iat + 1800`. `None` is the thrown error (bad signature or expired alike). */
  function Verify(t: Token, key: Secret, now: Time): (r: Option<Claims>)
    ensures r.Some? ==> t.key == key && r.value == t.claims
    ensures now >= t.issuedAt + ExpiresIn ==> r.None?
  {
    if t.key == key && now < t.issuedAt + ExpiresIn then Some(t.claims) else None
  }

  /** A token verifies under the secret it was signed with, for thirty minutes, and gives back
      the claims it was signed with; afterwards it fails. */
  lemma VerifySign(claims: Claims, key: Secret, issued: Time, now: Time)
    ensures now < issued + ExpiresIn ==> Verify(Sign(claims, key, issued), key, now) == Some(claims)
    ensures now >= issued + ExpiresIn ==> Verify(Sign(claims, key, issued), key, now) == None
  {
  }

  /** The two purposes never accept each other's tokens. */
  lemma SecretsNotInterchangeable(claims: Claims, issued: Time, now: Time)
    ensures Verify(Sign(claims, JwtKey, issued), JwtResetKey, now) == None
    ensures Verify(Sign(claims, JwtResetKey, issued), JwtKey, now) == None
  {
  }
}
