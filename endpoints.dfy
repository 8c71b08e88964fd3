/**
 * The per-request decisions of the three protected entry points:
 * `jwt_required`, `fresh_jwt_required` and `refresh`. Each reads the bearer
 * token, decodes it, checks its type, consults the blacklist store and (for
 * the fresh variant) the `fresh` claim, in that order, and either admits the
 * request or names the response it gets.
 */
module Endpoints {
  import opened Values
  import opened Claims
  import opened Header
  import opened Ledger
  import opened Issuer

  const OnlyAccessMessage := "Only access tokens can access this endpoint"
  const OnlyRefreshMessage := "Only refresh tokens can access this endpoint"

  /**
   * What the signature layer (`jwt.decode`) makes of a token string: its
   * payload, an expired signature, or any other invalid token with the
   * exception's text.
   */
  datatype Verification = Verified(payload: Payload) | ExpiredSignature | InvalidToken(msg: string)

  /** Exceptions that no `except` clause of the entry points catches. */
  datatype PyError = IndexError | KeyError

  datatype Outcome =
    | Unauthorized                                // unauthorized_callback: no header
    | Expired                                     // expired_token_callback
    | Invalid(msg: string)                        // invalid_token_callback(msg)
    | Blacklisted                                 // blacklisted_token_callback
    | NeedsFresh                                  // token_needs_refresh_callback
    | Crashed(error: PyError)                     // the exception propagates out of the view
    | Authenticated(identity: Value, userClaims: Value)  // the view runs with these bound
    | MayRefresh(identity: Value)                 // `refresh` goes on to mint an access token

  datatype Extracted = Token(data: Payload) | Rejected(outcome: Outcome)

  /** The header carries a bearer token and the signature layer returns a payload for it. */
  predicate Decodes(header: Option<string>, verify: string -> Verification)
  {
    ParseHeader(header).BearerToken? && verify(ParseHeader(header).token).Verified?
  }

  function PayloadOf(header: Option<string>, verify: string -> Verification): Payload
    requires Decodes(header, verify)
  {
    verify(ParseHeader(header).token).payload
  }

  /** The record of this token is in the store with status active. */
  predicate StoredActive(entries: map<string, Entry>, data: Payload)
    requires WellFormed(data)
  {
    data["jti"].s in entries && entries[data["jti"].s].status == Active
  }

  /**
   * The request presents a well-formed token of the wanted type: access
   * when `access`, refresh otherwise.
   */
  predicate Presents(header: Option<string>, verify: string -> Verification, access: bool)
  {
    && Decodes(header, verify)
    && WellFormed(PayloadOf(header, verify))
    && IsAccess(PayloadOf(header, verify)) == access
  }

  /** It does so, and, when the store is `consulted`, the store holds the token as active. */
  predicate Admitted(header: Option<string>, verify: string -> Verification, access: bool,
                     consulted: bool, entries: map<string, Entry>)
  {
    Presents(header, verify, access) && (consulted ==> StoredActive(entries, PayloadOf(header, verify)))
  }

  /** Whether `jwt_required` and `fresh_jwt_required` look tokens up in the store. */
  predicate ChecksAccessTokens(cfg: Config)
  {
    cfg.enabled && cfg.checks == "all"
  }

  /**
   * The `try` block all three entry points share: `_verify_jwt_from_request`
   * and the mapping of its exceptions to responses. A token comes out
   * exactly when the header carries one whose payload is well formed; an
   * expired signature, a missing header and a blank header are told apart
   * from every other failure, which is reported as invalid with its message.
   */
  function ReadToken(header: Option<string>, verify: string -> Verification): (r: Extracted)
    ensures r.Token? <==> Decodes(header, verify) && WellFormed(PayloadOf(header, verify))
    ensures r.Token? ==> r.data == PayloadOf(header, verify)
    ensures r == Rejected(Unauthorized) <==> ParseHeader(header) == NoAuthHeader
    ensures r == Rejected(Crashed(IndexError)) <==> ParseHeader(header) == HeaderIndexError
    ensures r == Rejected(Expired) <==>
              ParseHeader(header).BearerToken? && verify(ParseHeader(header).token) == ExpiredSignature
    ensures r.Rejected? ==> r.outcome in {Unauthorized, Crashed(IndexError), Expired} || r.outcome.Invalid?
    ensures r.Rejected? && r.outcome.Invalid? ==>
              || ParseHeader(header) == InvalidHeader(r.outcome.msg)
              || (ParseHeader(header).BearerToken? && verify(ParseHeader(header).token) == InvalidToken(r.outcome.msg))
              || (Decodes(header, verify) && ValidateClaims(PayloadOf(header, verify)) == DecodeError(r.outcome.msg))
  {
    match ParseHeader(header)
    case NoAuthHeader => Rejected(Unauthorized)
    case HeaderIndexError => Rejected(Crashed(IndexError))
    case InvalidHeader(msg) => Rejected(Invalid(msg))
    case BearerToken(token) =>
      match verify(token)
      case ExpiredSignature => Rejected(Expired)
      case InvalidToken(msg) => Rejected(Invalid(msg))
      case Verified(payload) =>
        match ValidateClaims(payload)
        case DecodeError(msg) => Rejected(Invalid(msg))
        case Ok(data) => Token(data)
  }

  /**
   * The blacklist step: nothing to say when the store is not consulted or
   * holds the token as active; a revoked status rejects; a token the store
   * has never heard of raises `KeyError` from `store[jti]`.
   */
  function BlacklistStep(consulted: bool, data: Payload, entries: map<string, Entry>): (r: Option<Outcome>)
    requires WellFormed(data)
    ensures r.None? <==> !consulted || StoredActive(entries, data)
    ensures r.Some? ==> r.value in {Blacklisted, Crashed(KeyError)}
    ensures r == Some(Crashed(KeyError)) <==> consulted && data["jti"].s !in entries
  {
    if !consulted then None
    else
      var jti := data["jti"].s;
      if jti !in entries then Some(Crashed(KeyError))
      else if entries[jti].status != Active then Some(Blacklisted)
      else None
  }

  /**
   * `jwt_required`: admits exactly the requests that present an access token
   * that the store, when consulted, holds as active, and binds its identity
   * and user claims. Failures of reading come first, then the type, then the
   * store.
   */
  function JwtRequired(header: Option<string>, verify: string -> Verification,
                       cfg: Config, entries: map<string, Entry>): (o: Outcome)
    ensures o.Authenticated? <==> Admitted(header, verify, true, ChecksAccessTokens(cfg), entries)
    ensures o.Authenticated? ==>
              o.identity == PayloadOf(header, verify)["identity"]
              && o.userClaims == PayloadOf(header, verify)["user_claims"]
    ensures !(Decodes(header, verify) && WellFormed(PayloadOf(header, verify))) ==>
              ReadToken(header, verify) == Rejected(o)
    ensures Presents(header, verify, false) ==> o == Invalid(OnlyAccessMessage)
    ensures o == Blacklisted <==>
              && Presents(header, verify, true) && ChecksAccessTokens(cfg)
              && PayloadOf(header, verify)["jti"].s in entries && !StoredActive(entries, PayloadOf(header, verify))
    ensures o == Crashed(KeyError) <==>
              && Presents(header, verify, true) && ChecksAccessTokens(cfg)
              && PayloadOf(header, verify)["jti"].s !in entries
    ensures o != NeedsFresh && !o.MayRefresh?
  {
    match ReadToken(header, verify)
    case Rejected(outcome) => outcome
    case Token(data) =>
      if data["type"] != JStr("access") then Invalid(OnlyAccessMessage)
      else
        match BlacklistStep(ChecksAccessTokens(cfg), data, entries)
        case Some(rejection) => rejection
        case None => Authenticated(data["identity"], data["user_claims"])
  }

  /**
   * `fresh_jwt_required`: as `jwt_required`, and then a token whose `fresh`
   * claim is false is sent to re-authenticate. Only a fresh, admitted access
   * token gets through.
   */
  function FreshJwtRequired(header: Option<string>, verify: string -> Verification,
                            cfg: Config, entries: map<string, Entry>): (o: Outcome)
    ensures o.Authenticated? <==>
              Admitted(header, verify, true, ChecksAccessTokens(cfg), entries)
              && PayloadOf(header, verify)["fresh"] == JBool(true)
    ensures o == NeedsFresh <==>
              Admitted(header, verify, true, ChecksAccessTokens(cfg), entries)
              && PayloadOf(header, verify)["fresh"] == JBool(false)
  {
    match ReadToken(header, verify)
    case Rejected(outcome) => outcome
    case Token(data) =>
      if data["type"] != JStr("access") then Invalid(OnlyAccessMessage)
      else
        match BlacklistStep(ChecksAccessTokens(cfg), data, entries)
        case Some(rejection) => rejection
        case None =>
          if !data["fresh"].b then NeedsFresh
          else Authenticated(data["identity"], data["user_claims"])
  }

  /**
   * The freshness gate comes last: `fresh_jwt_required` answers exactly as
   * `jwt_required` does, except that a non-fresh token `jwt_required` would
   * admit is sent to re-authenticate. In particular a revoked fresh token is
   * reported as blacklisted, not as needing freshness.
   */
  lemma FreshGateComesLast(header: Option<string>, verify: string -> Verification,
                           cfg: Config, entries: map<string, Entry>)
    ensures var plain := JwtRequired(header, verify, cfg, entries);
            FreshJwtRequired(header, verify, cfg, entries) ==
              if plain.Authenticated? && PayloadOf(header, verify)["fresh"] == JBool(false) then NeedsFresh
              else plain
  {
  }

  /**
   * The decision part of `refresh`: admits exactly the requests that present
   * a refresh token the store, whenever the blacklist is enabled, holds as
   * active; the new access token is minted for that token's identity.
   */
  function RefreshRequired(header: Option<string>, verify: string -> Verification,
                           cfg: Config, entries: map<string, Entry>): (o: Outcome)
    ensures o.MayRefresh? <==> Admitted(header, verify, false, cfg.enabled, entries)
    ensures o.MayRefresh? ==> o.identity == PayloadOf(header, verify)["identity"]
    ensures !(Decodes(header, verify) && WellFormed(PayloadOf(header, verify))) ==>
              ReadToken(header, verify) == Rejected(o)
    ensures Presents(header, verify, true) ==> o == Invalid(OnlyRefreshMessage)
    ensures o == Blacklisted <==>
              && Presents(header, verify, false) && cfg.enabled
              && PayloadOf(header, verify)["jti"].s in entries && !StoredActive(entries, PayloadOf(header, verify))
    ensures o == Crashed(KeyError) <==>
              && Presents(header, verify, false) && cfg.enabled
              && PayloadOf(header, verify)["jti"].s !in entries
    ensures o != NeedsFresh && !o.Authenticated?
  {
    match ReadToken(header, verify)
    case Rejected(outcome) => outcome
    case Token(data) =>
      if data["type"] != JStr("refresh") then Invalid(OnlyRefreshMessage)
      else
        match BlacklistStep(cfg.enabled, data, entries)
        case Some(rejection) => rejection
        case None => MayRefresh(data["identity"])
  }

  /** `refresh` consults the store whenever the blacklist is enabled, whatever the check scope says. */
  lemma RefreshIgnoresCheckScope(header: Option<string>, verify: string -> Verification, enabled: bool,
                                 scope: string, otherScope: string, entries: map<string, Entry>)
    ensures RefreshRequired(header, verify, Config(enabled, scope), entries)
         == RefreshRequired(header, verify, Config(enabled, otherScope), entries)
  {
  }

  /**
   * What `refresh()` ends in: a denial response, a new access token, or the
   * `JWTEncodeError` of encoding it, which escapes the view uncaught.
   */
  datatype RefreshResponse = Denied(outcome: Outcome) | Minted(claims: Payload) | RefreshRaised(msg: string)

  /**
   * `refresh()`: on a denied request nothing is stored; otherwise a non-fresh
   * access token for the same identity is encoded (and registered) with the
   * user claims the application's callback gives for that identity. An
   * encode error stores nothing and propagates.
   */
  method RefreshView(store: Store, cfg: Config, header: Option<string>, verify: string -> Verification,
                 userClaimsFor: Value -> Value, now: int, lifetime: int, jti: string)
    returns (r: RefreshResponse)
    modifies store
    ensures var o := RefreshRequired(header, verify, cfg, old(store.entries));
            && (!o.MayRefresh? ==> r == Denied(o) && store.entries == old(store.entries))
            && (o.MayRefresh? ==>
                  var token := BuildAccessToken(o.identity, now, lifetime, jti, JBool(false), userClaimsFor(o.identity));
                  && (token.EncodeError? ==> r == RefreshRaised(token.msg) && store.entries == old(store.entries))
                  && (token.Issued? ==>
                        && r == Minted(token.claims)
                        && store.entries == Registered(old(store.entries), cfg, store.ttlSupport, jti, lifetime, Access)))
  {
    var o := RefreshRequired(header, verify, cfg, store.entries);
    if !o.MayRefresh? {
      return Denied(o);
    }
    var identity := o.identity;
    var token := EncodeAccessToken(store, cfg, identity, lifetime, JBool(false), userClaimsFor(identity), now, jti);
    r := if token.Issued? then Minted(token.claims) else RefreshRaised(token.msg);
  }

  /**
   * The request-scoped context the protected view reads its identity and
   * user claims from. It is written only when a request is admitted.
   */
  class RequestContext {
    var jwtIdentity: Option<Value>
    var jwtUserClaims: Option<Value>

    constructor ()
      ensures jwtIdentity == None && jwtUserClaims == None
    {
      jwtIdentity := None;
      jwtUserClaims := None;
    }

    /** The wrapper `jwt_required` puts around a view, up to the call of the view. */
    method GuardJwtRequired(header: Option<string>, verify: string -> Verification, cfg: Config, store: Store)
      returns (o: Outcome)
      modifies this
      ensures o == JwtRequired(header, verify, cfg, store.entries)
      ensures o.Authenticated? ==> jwtIdentity == Some(o.identity) && jwtUserClaims == Some(o.userClaims)
      ensures !o.Authenticated? ==> jwtIdentity == old(jwtIdentity) && jwtUserClaims == old(jwtUserClaims)
    {
      o := JwtRequired(header, verify, cfg, store.entries);
      if o.Authenticated? {
        jwtIdentity := Some(o.identity);
        jwtUserClaims := Some(o.userClaims);
      }
    }

    /** The wrapper `fresh_jwt_required` puts around a view, up to the call of the view. */
    method GuardFreshJwtRequired(header: Option<string>, verify: string -> Verification, cfg: Config, store: Store)
      returns (o: Outcome)
      modifies this
      ensures o == FreshJwtRequired(header, verify, cfg, store.entries)
      ensures o.Authenticated? ==> jwtIdentity == Some(o.identity) && jwtUserClaims == Some(o.userClaims)
      ensures !o.Authenticated? ==> jwtIdentity == old(jwtIdentity) && jwtUserClaims == old(jwtUserClaims)
    {
      o := FreshJwtRequired(header, verify, cfg, store.entries);
      if o.Authenticated? {
        jwtIdentity := Some(o.identity);
        jwtUserClaims := Some(o.userClaims);
      }
    }
  }

  /**
   * An access token just issued and registered, presented as
   * `Bearer <token>` and accepted by the signature layer, is admitted by
   * `jwt_required` under every blacklist setting, with the identity and user
   * claims it was issued with; `fresh_jwt_required` admits it exactly when it
   * was issued fresh and otherwise asks for a fresh one.
   */
  lemma IssuedAccessTokenAdmitted(entries: map<string, Entry>, cfg: Config, ttlSupport: bool,
                                  identity: Value, now: int, lifetime: int, jti: string,
                                  freshArg: Value, userClaims: Value,
                                  token: string, verify: string -> Verification)
    requires BuildAccessToken(identity, now, lifetime, jti, freshArg, userClaims).Issued?
    requires IsWord(token)
    requires verify(token) == Verified(BuildAccessToken(identity, now, lifetime, jti, freshArg, userClaims).claims)
    ensures var after := Registered(entries, cfg, ttlSupport, jti, lifetime, Access);
            var header := Some("Bearer " + token);
            var granted := Authenticated(identity, if userClaims == JNull then JDict(map[]) else userClaims);
            && JwtRequired(header, verify, cfg, after) == granted
            && FreshJwtRequired(header, verify, cfg, after) == if freshArg == JBool(true) then granted else NeedsFresh
  {
    BearerRoundTrip(token);
    AccessTokenDecodes(identity, now, lifetime, jti, freshArg, userClaims);
    var after := Registered(entries, cfg, ttlSupport, jti, lifetime, Access);
    assert ChecksAccessTokens(cfg) ==> Registers(cfg, Access);
    FreshGateComesLast(Some("Bearer " + token), verify, cfg, after);
  }

  /**
   * A refresh token just issued and registered, presented as
   * `Bearer <token>` and accepted by the signature layer, lets `refresh`
   * mint a new access token for its identity under every blacklist setting.
   */
  lemma IssuedRefreshTokenAdmitted(entries: map<string, Entry>, cfg: Config, ttlSupport: bool,
                                   identity: Value, now: int, lifetime: int, jti: string,
                                   token: string, verify: string -> Verification)
    requires IsWord(token)
    requires verify(token) == Verified(RefreshClaims(identity, now, lifetime, jti))
    ensures RefreshRequired(Some("Bearer " + token), verify, cfg,
                            Registered(entries, cfg, ttlSupport, jti, lifetime, Refresh)) == MayRefresh(identity)
  {
    BearerRoundTrip(token);
    RefreshTokenDecodes(identity, now, lifetime, jti);
  }
}
