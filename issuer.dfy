/**
 * Issuing tokens: the encode-side checks and the claim records of
 * `_encode_access_token` and `_encode_refresh_token`, their registration in
 * the blacklist store, and the login flow `authenticate` that issues a pair.
 * Signing the claim record into a string is left to the signature layer and
 * is not part of this module: an issued token is represented by its claims.
 */
module Issuer {
  import opened Values
  import opened Claims
  import opened Ledger

  const UserClaimsNotDictMessage := "user_claims must be a dict"
  const FreshNotBoolMessage := "fresh must be a bool"
  /** The fixed prefix of the message; the serialiser's own exception text follows it in the source. */
  const NotSerializableMessage := "Error json serializing user_claims: "

  /** An access token's claims, or the `JWTEncodeError` its construction raises. */
  datatype Issued = Issued(claims: Payload) | EncodeError(msg: string)

  /** The claim record of an access token, built at `now` under the unique id `jti`. */
  function AccessClaims(identity: Value, now: int, lifetime: int, jti: string,
                        isFresh: bool, userClaims: map<string, Value>): Payload
  {
    map[
      "exp" := JNum(now + lifetime),
      "iat" := JNum(now),
      "nbf" := JNum(now),
      "jti" := JStr(jti),
      "identity" := identity,
      "fresh" := JBool(isFresh),
      "type" := JStr("access"),
      "user_claims" := JDict(userClaims)
    ]
  }

  /**
   * The claim record of a refresh token: the same timestamps, id and
   * identity, typed `refresh`, and without `fresh` or `user_claims`.
   */
  function RefreshClaims(identity: Value, now: int, lifetime: int, jti: string): (p: Payload)
    ensures p.Keys == {"exp", "iat", "nbf", "jti", "identity", "type"}
    ensures "fresh" !in p && "user_claims" !in p
    ensures p["type"] == JStr("refresh") && p["identity"] == identity && p["jti"] == JStr(jti)
    ensures p["iat"] == p["nbf"] == JNum(now) && p["exp"] == JNum(now + lifetime)
  {
    map[
      "exp" := JNum(now + lifetime),
      "iat" := JNum(now),
      "nbf" := JNum(now),
      "jti" := JStr(jti),
      "identity" := identity,
      "type" := JStr("refresh")
    ]
  }

  /**
   * The pure part of `_encode_access_token`. `user_claims` of None counts as
   * an empty dict; anything else that is not a dict, a `fresh` that is not a
   * bool, or claims `json.dumps` refuses are errors, checked in that order.
   * An accepted call yields an access token of the given identity,
   * freshness and claims, issued at `now` and expiring `lifetime` later.
   */
  function BuildAccessToken(identity: Value, now: int, lifetime: int, jti: string,
                            freshArg: Value, userClaims: Value): (r: Issued)
    ensures r.Issued? <==> (userClaims == JNull || userClaims.JDict?) && freshArg.JBool? && Serializable(userClaims)
    ensures !(userClaims == JNull || userClaims.JDict?) ==> r == EncodeError(UserClaimsNotDictMessage)
    ensures (userClaims == JNull || userClaims.JDict?) && !freshArg.JBool? ==> r == EncodeError(FreshNotBoolMessage)
    ensures (userClaims == JNull || userClaims.JDict?) && freshArg.JBool? && !Serializable(userClaims) ==>
              r == EncodeError(NotSerializableMessage)
    ensures r.Issued? ==>
              && r.claims.Keys == {"exp", "iat", "nbf", "jti", "identity", "fresh", "type", "user_claims"}
              && r.claims["type"] == JStr("access")
              && r.claims["iat"] == r.claims["nbf"] == JNum(now)
              && r.claims["exp"] == JNum(now + lifetime)
              && r.claims["jti"] == JStr(jti)
              && r.claims["identity"] == identity
              && r.claims["fresh"] == freshArg
              && r.claims["user_claims"] == (if userClaims == JNull then JDict(map[]) else userClaims)
  {
    var claims := if userClaims == JNull then JDict(map[]) else userClaims;
    if !claims.JDict? then EncodeError(UserClaimsNotDictMessage)
    else if !freshArg.JBool? then EncodeError(FreshNotBoolMessage)
    else if !Serializable(claims) then EncodeError(NotSerializableMessage)
    else Issued(AccessClaims(identity, now, lifetime, jti, freshArg.b, claims.fields))
  }

  /** Every access token that can be issued passes the decoder's claim checks unchanged. */
  lemma AccessTokenDecodes(identity: Value, now: int, lifetime: int, jti: string, freshArg: Value, userClaims: Value)
    requires BuildAccessToken(identity, now, lifetime, jti, freshArg, userClaims).Issued?
    ensures var claims := BuildAccessToken(identity, now, lifetime, jti, freshArg, userClaims).claims;
            ValidateClaims(claims) == Ok(claims) && IsAccess(claims)
  {
  }

  /** Every refresh token passes the decoder's claim checks unchanged. */
  lemma RefreshTokenDecodes(identity: Value, now: int, lifetime: int, jti: string)
    ensures var claims := RefreshClaims(identity, now, lifetime, jti);
            ValidateClaims(claims) == Ok(claims) && !IsAccess(claims)
  {
  }

  /**
   * `_encode_access_token`: on an encode error nothing is stored; otherwise
   * the new token is registered with the blacklist store.
   */
  method EncodeAccessToken(store: Store, cfg: Config, identity: Value, lifetime: int,
                           freshArg: Value, userClaims: Value, now: int, jti: string) returns (r: Issued)
    modifies store
    ensures r == BuildAccessToken(identity, now, lifetime, jti, freshArg, userClaims)
    ensures r.EncodeError? ==> store.entries == old(store.entries)
    ensures r.Issued? ==> store.entries == Registered(old(store.entries), cfg, store.ttlSupport, jti, lifetime, Access)
  {
    r := BuildAccessToken(identity, now, lifetime, jti, freshArg, userClaims);
    if r.Issued? {
      StoreTokenIfBlacklistEnabled(store, cfg, jti, lifetime, Access);
    }
  }

  /** `_encode_refresh_token`: builds the refresh claims and registers the token. */
  method EncodeRefreshToken(store: Store, cfg: Config, identity: Value, lifetime: int,
                            now: int, jti: string) returns (claims: Payload)
    modifies store
    ensures claims == RefreshClaims(identity, now, lifetime, jti)
    ensures store.entries == Registered(old(store.entries), cfg, store.ttlSupport, jti, lifetime, Refresh)
  {
    claims := RefreshClaims(identity, now, lifetime, jti);
    StoreTokenIfBlacklistEnabled(store, cfg, jti, lifetime, Refresh);
  }

  /**
   * The tokens a login issues, or the `JWTEncodeError` that escapes
   * `authenticate` uncaught when the access token cannot be encoded.
   */
  datatype Login = LoggedIn(access: Payload, refresh: Payload) | LoginRaised(msg: string)

  /**
   * `authenticate(identity)`: a fresh access token, then a refresh token.
   * `userClaims` is what the application's user-claims callback returned for
   * `identity`. If the access token cannot be encoded, the error propagates
   * before anything is stored or the refresh token is made.
   */
  method Authenticate(store: Store, cfg: Config, identity: Value, userClaims: Value, now: int,
                      accessLifetime: int, refreshLifetime: int, accessJti: string, refreshJti: string)
    returns (r: Login)
    modifies store
    ensures var access := BuildAccessToken(identity, now, accessLifetime, accessJti, JBool(true), userClaims);
            && (access.EncodeError? ==> r == LoginRaised(access.msg) && store.entries == old(store.entries))
            && (access.Issued? ==>
                  && r == LoggedIn(access.claims, RefreshClaims(identity, now, refreshLifetime, refreshJti))
                  && store.entries == Registered(Registered(old(store.entries), cfg, store.ttlSupport, accessJti, accessLifetime, Access),
                                                 cfg, store.ttlSupport, refreshJti, refreshLifetime, Refresh))
    ensures cfg.checks == "refresh" && accessJti != refreshJti ==>
              (accessJti in store.entries <==> accessJti in old(store.entries))
  {
    var access := EncodeAccessToken(store, cfg, identity, accessLifetime, JBool(true), userClaims, now, accessJti);
    if access.EncodeError? {
      return LoginRaised(access.msg);
    }
    var refresh := EncodeRefreshToken(store, cfg, identity, refreshLifetime, now, refreshJti);
    r := LoggedIn(access.claims, refresh);
  }
}
