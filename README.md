# flask_jwt_extended token lifecycle, modelled in Dafny

This project models the token-lifecycle logic of `flask_jwt_extended/utils.py`:

- how access and refresh tokens are built and checked before signing;
- how a signed payload's claims are checked after decoding;
- how the `Authorization: Bearer <token>` header is read;
- how new tokens are registered in the blacklist store;
- how the three protected entry points (`jwt_required`, `fresh_jwt_required`,
  `refresh`) decide, in a fixed order, whether a request gets through.

Flask, PyJWT, `uuid` and the clock are abstracted. The signature layer
is a function `verify: string -> Verification` that returns a payload, an
expired signature or an invalid token. The current time `now`, the token id
`jti`, the token lifetime (integer seconds), the blacklist settings
(`Config(enabled, checks)`) and the store's `ttl_support` are parameters.

Files, one module each:

- `values.dfy` — `Value`, a Python value: the JSON kinds plus `Opaque` for objects
  `json.dumps` refuses; `Payload`; `Serializable`.
- `claims.dfy` — the claim checks of `_decode_jwt`, in their order, with their messages.
- `header.dfy` — Python's argument-less `str.split()` and the header parse of
  `_verify_jwt_from_request`.
- `ledger.dfy` — the store (a class whose `entries` map `put` updates) and
  `_store_token_if_blacklist_enabled`.
- `issuer.dfy` — `_encode_access_token`, `_encode_refresh_token` and the login
  flow `authenticate`.
- `endpoints.dfy` — the decisions of the three entry points, as functions
  returning an `Outcome`, and a `RequestContext` class. The wrappers write
  identity and user claims into that context only on success.

Behaviour of the code that the model keeps as it is:

- `store[jti]` raises `KeyError` for a token id the store does not hold.
  The model reports `Crashed(KeyError)`.
- A header of whitespace only is truthy but splits to nothing, so `parts[0]`
  raises `IndexError`. The model reports this as its own outcome
  (`HeaderIndexError`, then `Crashed(IndexError)`).
- The store record written at issue time is the plain string `"active"`,
  with a TTL when the store supports TTLs.
- Only the `Authorization` header is read.
- A `JWTEncodeError` raised while encoding a token in `authenticate` or
  `refresh` is not caught. The model reports it as `LoginRaised` or
  `RefreshRaised`.

## Model

| member | source | states |
|---|---|---|
| `Claims.ValidateClaims` | flask_jwt_extended/utils.py:122-133 | The payload comes back unchanged exactly when it is well formed: string `jti`, `identity` present, `type` access or refresh, and for access tokens a bool `fresh` and a dict `user_claims`. Otherwise the first failing check, in source order, gives the `DecodeError` message. |
| `Claims.RejectionNamesFirstFailure` | flask_jwt_extended/utils.py:122-132 | Every rejected payload has a first failing check, and its message is the one returned. |
| `Claims.RefreshIgnoresAccessClaims` | flask_jwt_extended/utils.py:128-132 | For a refresh token, any value of `fresh` or `user_claims`, or none at all, leaves the verdict unchanged. |
| `Header.Split` | flask_jwt_extended/utils.py:148 | `str.split()`: every piece it returns is non-empty and free of whitespace. |
| `Header.SplitAtSpace` | flask_jwt_extended/utils.py:148 | Any whitespace character separates: the split of `a + c + b` is the split of `a` followed by the split of `b`. With a word splitting to itself and the empty string to nothing, this fixes `split()` on every string. |
| `Header.SplitAfterBlank` | flask_jwt_extended/utils.py:148 | Leading whitespace does not change the split. |
| `Header.SplitBeforeBlank` | flask_jwt_extended/utils.py:148 | Trailing whitespace does not change the split. |
| `Header.SplitJoinSpaces` | flask_jwt_extended/utils.py:148 | Splitting undoes joining with single spaces, for any list of such pieces. |
| `Header.SplitEmptyIffBlank` | flask_jwt_extended/utils.py:148-149 | `split()` returns no pieces exactly when the string is all whitespace. |
| `Header.ParseHeader` | flask_jwt_extended/utils.py:143-156 | An absent or empty header gives NoAuthHeader. A non-empty header of whitespace only gives the IndexError outcome. A token comes out exactly when the header splits into `Bearer` and one more piece, and the token is that piece. Every other header is InvalidHeader with the fixed message. |
| `Header.BearerRoundTrip` | flask_jwt_extended/utils.py:143-156 | A header written as `Bearer ` + token yields exactly that token, and does so only when the token is one non-empty, whitespace-free word. |
| `Header.BearerAnySpacing` | flask_jwt_extended/utils.py:143-156 | `Bearer` and a one-word token, with any whitespace before, between (at least one character) and after, yield exactly that token. |
| `Ledger.Store.Put` | flask_jwt_extended/utils.py:365-367 | A put sets the key's status and TTL and leaves every other key as it was. |
| `Ledger.Registered` | flask_jwt_extended/utils.py:351-367 | The store is unchanged when the blacklist is disabled, or when checks are `'refresh'` and the token is not a refresh token. Otherwise exactly the key `jti` changes, to status `"active"`. Its TTL is lifetime + 900 seconds if the store supports TTLs, and none otherwise. All other keys are untouched. |
| `Ledger.StoreTokenIfBlacklistEnabled` | flask_jwt_extended/utils.py:351-367 | The store's new contents are `Registered` of its old contents. |
| `Issuer.BuildAccessToken` | flask_jwt_extended/utils.py:55-79 | `user_claims` None counts as `{}`. The errors come in order: not a dict, `fresh` not a bool, not serialisable, each with its message. An accepted call yields a token typed `access` with `iat = nbf = now`, `exp = now + lifetime`, and the given `jti`, identity, `fresh` and user claims, and no other claim. Serialisability (utils.py:62-65) is the predicate `Values.Serializable`: no object outside JSON's kinds anywhere inside. The claim record (utils.py:70-79) is built by `Issuer.AccessClaims`. |
| `Issuer.RefreshClaims` | flask_jwt_extended/utils.py:95-104 | A refresh token is typed `refresh`. It has the same timestamps, `jti` and identity, and no `fresh` or `user_claims` claim. |
| `Issuer.AccessTokenDecodes` | flask_jwt_extended/utils.py:68-79 | Every access token that can be issued passes the decoder's claim checks unchanged. |
| `Issuer.RefreshTokenDecodes` | flask_jwt_extended/utils.py:95-104 | Every refresh token passes the decoder's claim checks unchanged. |
| `Issuer.EncodeAccessToken` | flask_jwt_extended/utils.py:44-82 | Returns `BuildAccessToken`'s result. An encode error leaves the store untouched. A built token is registered as `Registered` says. |
| `Issuer.EncodeRefreshToken` | flask_jwt_extended/utils.py:85-107 | Returns the refresh claims and registers the token as `Registered` says. |
| `Issuer.Authenticate` | flask_jwt_extended/utils.py:254-272 | Issues a fresh access token, then a refresh token, each registered. If the access token fails to encode, the error escapes (`LoginRaised`) and nothing is stored. With checks `'refresh'`, the login adds no access entry. |
| `Endpoints.ReadToken` | flask_jwt_extended/utils.py:172-181 | A token comes out exactly when the header carries one whose verified payload is well formed. A missing header, a blank header and an expired signature each get their own outcome. Every other failure is Invalid, carrying the header, signature or claim error's message. |
| `Endpoints.BlacklistStep` | flask_jwt_extended/utils.py:193-198 | When the store is consulted, a token it holds as active passes. A token stored with any other status is blacklisted. An id the store lacks raises KeyError. When the store is not consulted, every token passes. |
| `Endpoints.JwtRequired` | flask_jwt_extended/utils.py:171-204 | Admits exactly the requests that present an access token the store holds as active, when the blacklist is enabled with checks `'all'`. It binds that token's identity and user claims. Reading failures come out unchanged. A refresh token is Invalid. A revoked token is Blacklisted. A token missing from the store is KeyError. It never asks for freshness. |
| `Endpoints.FreshJwtRequired` | flask_jwt_extended/utils.py:218-250 | Admits exactly what `jwt_required` admits when `fresh` is true. The same tokens with `fresh` false get NeedsFresh. |
| `Endpoints.FreshGateComesLast` | flask_jwt_extended/utils.py:229-244 | `fresh_jwt_required` answers exactly as `jwt_required`, except that a non-fresh token it would admit gets NeedsFresh. So a revoked fresh token is reported as Blacklisted. |
| `Endpoints.RefreshRequired` | flask_jwt_extended/utils.py:283-307 | Admits exactly the requests that present a refresh token the store holds as active whenever the blacklist is enabled, for the token's identity. An access token is Invalid. Revoked and unknown ids are rejected as in `jwt_required`. |
| `Endpoints.RefreshIgnoresCheckScope` | flask_jwt_extended/utils.py:297-303 | The refresh decision does not depend on the check scope. |
| `Endpoints.RefreshView` | flask_jwt_extended/utils.py:275-311 | A denied request changes no store entry. An admitted one builds a non-fresh access token for the same identity, with the callback's user claims, and registers it. If that token fails to encode, the error escapes (`RefreshRaised`) and nothing is stored. |
| `Endpoints.RequestContext.GuardJwtRequired` | flask_jwt_extended/utils.py:170-204 | The outcome is `JwtRequired`'s. Identity and user claims are written to the context only when the request is admitted. |
| `Endpoints.RequestContext.GuardFreshJwtRequired` | flask_jwt_extended/utils.py:217-250 | The outcome is `FreshJwtRequired`'s. Identity and user claims are written to the context only when the request is admitted. |
| `Endpoints.IssuedAccessTokenAdmitted` | flask_jwt_extended/utils.py:68-81 | A just-issued, registered access token, sent as `Bearer <token>`, is admitted by `jwt_required` under every blacklist setting, with its identity and user claims. `fresh_jwt_required` admits it exactly when it was issued fresh. |
| `Endpoints.IssuedRefreshTokenAdmitted` | flask_jwt_extended/utils.py:95-106 | A just-issued, registered refresh token lets `refresh` proceed for its identity under every blacklist setting. |

## Left out

- Flask plumbing is not modelled: `request`, `current_app.config`, `jsonify`, the `jwt_manager` callbacks' responses, and the call of the wrapped view. The callbacks are the constructors of `Outcome`. The view runs exactly on `Authenticated`.
- The `getattr` defaults of `_get_identity` and `_get_user_claims` are not modelled. `RequestContext` holds `None` until a request is admitted.
- PyJWT is not modelled: signing, signature checks, and its `exp`/`nbf`/`iat` checks are foreign cryptographic code. `verify` stands for `jwt.decode`. An issued token is its claim record, not a signed string. `jwt.encode` is taken to succeed, although an identity it cannot serialise would make it raise before the store is written.
- `uuid.uuid4()` and `datetime.utcnow()` are parameters (`jti`, `now`). Durations and timestamps are integer seconds, where the source uses `timedelta` and `total_seconds()`.
- `_get_secret_key`, `_blacklist_enabled`, `_get_blacklist_store` and `_blacklist_checks` are parameters. The missing-secret `RuntimeError` is not modelled. The enabled flag is plain, whatever configuration key sets it.
- An enabled blacklist with no store configured is not modelled. `_get_blacklist_store()` can return `None`, and then `store.put` (utils.py:365, 367) and `store[jti]` (utils.py:196, 238, 301) raise. The model always has a `Store`.
- `fresh_authenticate` (utils.py:314-325) is a single `EncodeAccessToken` call with `fresh=True` plus a JSON response, so it has no member of its own.
- `Issuer.BuildAccessToken`: the serialisation error message is only its fixed prefix. The `json.dumps` exception text that the source appends is not modelled.
- `Values.Value` has no floats, and its dicts have string keys only.
- Revocation, un-revocation and token listing live in modules that are not part of this model. So does the TTL helper. Cookies and CSRF are not in this code.
- Concurrency and the store backend's consistency are out of scope. The store is one sequential map.
