/** Password hashing hooks, access-token claims and token verification.

    The password hasher and the token signer are foreign code. They enter the model as
    the four function-valued fields of `Crypto`, passed in by the caller, and what the
    model relies on about them is stated as the named assumption predicates at the end
    of this module, each appearing as a `requires` of the lemmas that use it. The wall
    clock enters as the parameter `now`. Instants are whole seconds since the epoch;
    durations are signed whole seconds, like `timedelta`. */
module Auth {
  import opened Common

  /** The fallback token lifetime: 15 minutes. */
  const DefaultExpiry: int := 15 * 60

  /** Process-wide settings: signing secret, signing algorithm, login token lifetime. */
  datatype Config = Config(secretKey: string, algorithm: string, accessTokenExpireMinutes: int)

  /** A value in a token's claim set. */
  datatype Claim = Text(text: string) | Instant(seconds: int) | Null

  type Claims = map<string, Claim>

  /** The foreign primitives. `hash` takes the salt it would draw at random as an input;
      `decode` takes the secret, the accepted algorithm and the current instant, and gives
      `None` for every failure the token library reports. */
  datatype Crypto = Crypto(
    hash: (string, nat) -> string,
    verify: (string, string) -> bool,
    encode: (Claims, string, string) -> string,
    decode: (string, string, string, int) -> Option<Claims>)

  /** Everything the security layer is configured with. */
  datatype Env = Env(settings: Config, crypto: Crypto)

  /** `verify_password`: defers to the hasher's check. Given `HashVerifies`, any hash
      made from the password, with any salt, is accepted. */
  function VerifyPassword(crypto: Crypto, plainPassword: string, hashedPassword: string): (ok: bool)
    ensures HashVerifies(crypto) && (exists salt :: hashedPassword == crypto.hash(plainPassword, salt)) ==> ok
  {
    crypto.verify(plainPassword, hashedPassword)
  }

  /** `get_password_hash`: defers to the hasher. Given `HashVerifies`, the result
      verifies against the password it came from. */
  function GetPasswordHash(crypto: Crypto, password: string, salt: nat): (h: string)
    ensures HashVerifies(crypto) ==> VerifyPassword(crypto, password, h)
  {
    crypto.hash(password, salt)
  }

  /** Python truthiness of `expires_delta: timedelta | None`: `None` and a zero
      duration are both falsy. */
  function Truthy(expiresDelta: Option<int>): (b: bool)
    ensures b <==> expiresDelta != None && expiresDelta != Some(0)
  {
    expiresDelta.Some? && expiresDelta.value != 0
  }

  /** The lifetime a token is issued with. It is never zero: a zero request falls back
      to the default, while a non-zero one, even negative, is kept. */
  function Lifetime(expiresDelta: Option<int>): (d: int)
    ensures d != 0
    ensures Truthy(expiresDelta) ==> d == expiresDelta.value
    ensures !Truthy(expiresDelta) ==> d == 15 * 60
  {
    if Truthy(expiresDelta) then expiresDelta.value else DefaultExpiry
  }

  /** The claims `create_access_token` signs: a copy of `data` with `exp` added (or
      replaced). `data` itself is a value and cannot be changed by the call. */
  function AccessClaims(data: Claims, expiresDelta: Option<int>, now: int): (c: Claims)
    ensures c.Keys == data.Keys + {"exp"}
    ensures forall k :: k in data && k != "exp" ==> c[k] == data[k]
    ensures Truthy(expiresDelta) ==> c["exp"] == Instant(now + expiresDelta.value)
    ensures expiresDelta == None || expiresDelta == Some(0) ==> c["exp"] == Instant(now + 15 * 60)
  {
    data["exp" := Instant(now + Lifetime(expiresDelta))]
  }

  /** `create_access_token`: the signed claims. Given `CodecRoundTrip`, a token over a
      claim set of the issued shape with a non-negative lifetime decodes, at the instant of
      issue, to `data` plus `exp`. */
  function CreateAccessToken(data: Claims, expiresDelta: Option<int>, now: int, env: Env): (token: string)
    ensures CodecRoundTrip(env) && IssuedShape(data) && Lifetime(expiresDelta) >= 0 ==>
      Decode(token, now, env) == Some(AccessClaims(data, expiresDelta, now))
  {
    env.crypto.encode(AccessClaims(data, expiresDelta, now), env.settings.secretKey, env.settings.algorithm)
  }

  /** What the token library hands back for `token`, with this process's secret and algorithm. */
  function Decode(token: string, now: int, env: Env): Option<Claims>
  {
    env.crypto.decode(token, env.settings.secretKey, env.settings.algorithm, now)
  }

  /** `verify_token`: the `sub` claim of a token that decodes, else `None`. A decoding
      failure, a missing `sub` and a null `sub` all give `None`; the library itself refuses
      a subject that is not a string, which also lands in the `None` branch. */
  function VerifyToken(token: string, now: int, env: Env): (r: Option<string>)
    ensures r.Some? <==>
      (Decode(token, now, env).Some? && "sub" in Decode(token, now, env).value
       && Decode(token, now, env).value["sub"].Text?)
    ensures r.Some? ==> Decode(token, now, env).value["sub"] == Text(r.value)
  {
    match Decode(token, now, env)
    case None => None
    case Some(payload) =>
      if "sub" in payload && payload["sub"].Text? then Some(payload["sub"].text) else None
  }

  // ---------------------------------------------------------------- assumptions

  /** Whether the claim set has an `exp` instant strictly before `now`. */
  predicate Expired(claims: Claims, now: int)
  {
    "exp" in claims && claims["exp"].Instant? && claims["exp"].seconds < now
  }

  /** ASSUMPTION (password hasher): a hash verifies against the password it was made from,
      whatever salt was drawn. */
  ghost predicate HashVerifies(crypto: Crypto)
  {
    forall password, salt :: crypto.verify(password, crypto.hash(password, salt))
  }

  /** The shape of the claim sets this program signs: at most a `sub` and an `exp`, the
      subject a string and the expiry an instant. The token library refuses other claim
      sets (a non-string subject, a future `nbf`, an unexpected `aud`, ...) even when their
      signature is good, so the round trip below is assumed only of this shape. */
  predicate IssuedShape(claims: Claims)
  {
    && claims.Keys <= {"sub", "exp"}
    && ("sub" in claims ==> claims["sub"].Text?)
    && ("exp" in claims ==> claims["exp"].Instant?)
  }

  /** ASSUMPTION (token library): a token signed with this process's secret and algorithm,
      over a claim set of the issued shape, decodes to exactly those claims while it has
      not expired, and is refused once `now` is past its `exp`. */
  ghost predicate CodecRoundTrip(env: Env)
  {
    forall claims: Claims, now: int | IssuedShape(claims) ::
      env.crypto.decode(env.crypto.encode(claims, env.settings.secretKey, env.settings.algorithm),
                        env.settings.secretKey, env.settings.algorithm, now)
      == if Expired(claims, now) then None else Some(claims)
  }

  /** ASSUMPTION (token library): a token signed with any other secret is refused. */
  ghost predicate RejectsForeignKey(env: Env)
  {
    forall claims: Claims, key: string, now: int :: key != env.settings.secretKey ==>
      env.crypto.decode(env.crypto.encode(claims, key, env.settings.algorithm),
                        env.settings.secretKey, env.settings.algorithm, now) == None
  }

  // ---------------------------------------------------------------- lemmas

  /** An issued token decodes to its claims until `now + lifetime`, and not after. */
  lemma IssuedTokenDecodes(data: Claims, expiresDelta: Option<int>, issuedAt: int, now: int, env: Env)
    requires CodecRoundTrip(env)
    requires IssuedShape(data)
    ensures Decode(CreateAccessToken(data, expiresDelta, issuedAt, env), now, env)
            == if now <= issuedAt + Lifetime(expiresDelta)
               then Some(AccessClaims(data, expiresDelta, issuedAt)) else None
  {
  }

  /** A token issued for subject `sub` verifies to `sub` until it expires, then to `None`. */
  lemma VerifyIssuedToken(sub: string, expiresDelta: Option<int>, issuedAt: int, now: int, env: Env)
    requires CodecRoundTrip(env)
    ensures VerifyToken(CreateAccessToken(map["sub" := Text(sub)], expiresDelta, issuedAt, env), now, env)
            == if now <= issuedAt + Lifetime(expiresDelta) then Some(sub) else None
  {
  }

  /** A zero lifetime is falsy, so it is replaced by the 15-minute default: the token is
      the one issued with no lifetime at all, and it is still accepted 15 minutes later. */
  lemma ZeroLifetimeMeansDefault(sub: string, issuedAt: int, env: Env)
    requires CodecRoundTrip(env)
    ensures CreateAccessToken(map["sub" := Text(sub)], Some(0), issuedAt, env)
            == CreateAccessToken(map["sub" := Text(sub)], None, issuedAt, env)
    ensures VerifyToken(CreateAccessToken(map["sub" := Text(sub)], Some(0), issuedAt, env),
                        issuedAt + 15 * 60, env) == Some(sub)
  {
  }

  /** A token signed with another secret never yields a subject. */
  lemma ForeignKeyTokenRejected(claims: Claims, key: string, now: int, env: Env)
    requires RejectsForeignKey(env)
    requires key != env.settings.secretKey
    ensures VerifyToken(env.crypto.encode(claims, key, env.settings.algorithm), now, env) == None
  {
  }
}
