/** Access tokens: the claims a token is issued with, the expiry it carries,
    and the check that turns a bearer token back into a user id. Signing and
    signature checking belong to the JWT library and are passed in as a
    `Signer`; only the expiry rule of the decoder is spelled out. */
module Tokens {
  import opened Outcomes

  const ACCESS_TOKEN_EXPIRE_MINUTES: int := 60
  const SECONDS_PER_MINUTE: int := 60
  const INVALID_TOKEN: string := "Invalid token"

  /** A JSON claim value. */
  datatype Claim = Text(text: string) | Number(number: int) | Null

  /** A token payload: claim name to claim value. */
  type Payload = map<string, Claim>

  /** The JWT library configured with the secret key and algorithm: `sign`
      encodes and signs a payload, `verifySignature` yields the payload of a
      token whose signature checks out. */
  datatype Signer = Signer(sign: Payload -> string, verifySignature: string -> Option<Payload>)

  /** A signer whose signature check accepts what it signed, unchanged. */
  ghost predicate Sound(signer: Signer) {
    forall p :: signer.verifySignature(signer.sign(p)) == Some(p)
  }

  /** The instant (in seconds) an access token issued at `issuedAt` expires. */
  function ExpiryFor(issuedAt: int): int {
    issuedAt + ACCESS_TOKEN_EXPIRE_MINUTES * SECONDS_PER_MINUTE
  }

  /** The claims of a new access token: a copy of the caller's claims with
      `exp` set to one hour after issuance. */
  function AccessTokenClaims(data: Payload, now: int): (r: Payload)
    ensures r.Keys == data.Keys + {"exp"}
    ensures r["exp"] == Number(now + ACCESS_TOKEN_EXPIRE_MINUTES * SECONDS_PER_MINUTE)
    ensures forall k :: k in data && k != "exp" ==> r[k] == data[k]
  {
    data["exp" := Number(ExpiryFor(now))]
  }

  /** A signed access token for the given claims, issued at `now`. */
  function CreateAccessToken(data: Payload, now: int, signer: Signer): (token: string)
    ensures Sound(signer) ==> signer.verifySignature(token) == Some(AccessTokenClaims(data, now))
  {
    signer.sign(AccessTokenClaims(data, now))
  }

  /** The decoder's claim check: an `exp` claim must be a number no earlier
      than the current time. */
  predicate Unexpired(p: Payload, now: int) {
    "exp" !in p || (p["exp"].Number? && now <= p["exp"].number)
  }

  /** Decoding a token at time `now`: its signature must check out and its
      expiry must not have passed. */
  function Decode(token: string, signer: Signer, now: int): (r: Option<Payload>)
    ensures r.Some? <==> signer.verifySignature(token).Some? && Unexpired(signer.verifySignature(token).value, now)
    ensures r.Some? ==> Some(r.value) == signer.verifySignature(token)
    ensures r.Some? && "exp" in r.value ==> r.value["exp"].Number? && now <= r.value["exp"].number
  {
    match signer.verifySignature(token)
    case None => None
    case Some(p) => if Unexpired(p, now) then Some(p) else None
  }

  /** A token issued at `issuedAt` decodes to exactly its claims up to and
      including its expiry instant, and fails to decode after it. */
  lemma AccessTokenLifetime(data: Payload, issuedAt: int, now: int, signer: Signer)
    requires Sound(signer)
    ensures Decode(CreateAccessToken(data, issuedAt, signer), signer, now) ==
            if now <= ExpiryFor(issuedAt) then Some(AccessTokenClaims(data, issuedAt)) else None
  {
  }

  /** The decoder's expiry check converts `exp` with `int(...)` and turns only
      a conversion `ValueError` into a claims error; a `null` `exp` makes it
      raise a `TypeError` instead, which is not a JWT error. This happens only
      after the signature has checked out. */
  predicate CrashesDecoder(token: string, signer: Signer) {
    match signer.verifySignature(token)
    case None => false
    case Some(p) => "exp" in p && p["exp"].Null?
  }

  /** The authorisation gate: the `id` claim of a token that decodes, or
      401 when decoding fails or the claim is absent or null. An error the
      decoder raises that is not a JWT error escapes the gate as a 500. */
  function GetCurrentUserId(token: string, signer: Signer, now: int): (r: Result<Claim>)
    ensures CrashesDecoder(token, signer) ==> r == Err(Failure(INTERNAL_SERVER_ERROR, UNHANDLED_ERROR))
    ensures !CrashesDecoder(token, signer) && r.Err? ==> r.failure == Failure(UNAUTHORIZED, INVALID_TOKEN)
    ensures r.Ok? <==> var d := Decode(token, signer, now);
                      d.Some? && "id" in d.value && d.value["id"] != Null
    ensures r.Ok? ==> r.value == Decode(token, signer, now).value["id"]
  {
    if CrashesDecoder(token, signer) then Err(Failure(INTERNAL_SERVER_ERROR, UNHANDLED_ERROR))
    else
      match Decode(token, signer, now)
      case None => Err(Failure(UNAUTHORIZED, INVALID_TOKEN))
      case Some(payload) =>
        var userId := if "id" in payload then payload["id"] else Null;
        if userId == Null then Err(Failure(UNAUTHORIZED, INVALID_TOKEN))
        else Ok(userId)
  }

  /** A token whose signature checks out but whose `exp` is `null` gets a 500,
      not a 401, at every instant. */
  lemma NullExpiryEscapesGate(data: Payload, now: int, signer: Signer)
    requires Sound(signer)
    ensures GetCurrentUserId(signer.sign(data["exp" := Null]), signer, now) ==
            Err(Failure(INTERNAL_SERVER_ERROR, UNHANDLED_ERROR))
  {
    assert signer.verifySignature(signer.sign(data["exp" := Null])) == Some(data["exp" := Null]);
  }

  /** A token issued for claims carrying an `id` authorises that id until it
      expires and is refused afterwards; one issued without an `id` is refused. */
  lemma IssuedTokenAuthorizes(data: Payload, issuedAt: int, now: int, signer: Signer)
    requires Sound(signer)
    ensures var r := GetCurrentUserId(CreateAccessToken(data, issuedAt, signer), signer, now);
            if now <= ExpiryFor(issuedAt) && "id" in data && data["id"] != Null then r == Ok(data["id"])
            else r == Err(Failure(UNAUTHORIZED, INVALID_TOKEN))
  {
    AccessTokenLifetime(data, issuedAt, now, signer);
  }
}
