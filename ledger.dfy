/**
 * The blacklist store and the registration of freshly issued tokens in it
 * (`_store_token_if_blacklist_enabled`, `_store_supports_ttl`).
 */
module Ledger {
  import opened Values

  /** The stored status string of a registered, not revoked token. */
  const Active := "active"

  /** `timedelta(minutes=15)`: how long a record outlives its token. */
  const TtlGraceSecs := 15 * 60

  datatype TokenType = Access | Refresh

  /** What the store holds under one jti: a status and the TTL it was put with, if any. */
  datatype Entry = Entry(status: string, ttlSecs: Option<int>)

  /**
   * The blacklist settings: whether it is enabled, and which tokens it
   * covers (`'all'`, `'refresh'`, or any other string the application set).
   */
  datatype Config = Config(enabled: bool, checks: string)

  /** A key-value store; `ttlSupport` is the `ttl_support` attribute, absent meaning false. */
  class Store {
    var entries: map<string, Entry>
    const ttlSupport: bool

    constructor (ttlSupport: bool)
      ensures this.ttlSupport == ttlSupport && entries == map[]
    {
      this.ttlSupport := ttlSupport;
      entries := map[];
    }

    /** `store.put(key=..., value=..., ttl_secs=...)`: last write wins. */
    method Put(key: string, value: string, ttlSecs: Option<int>)
      modifies this
      ensures entries == old(entries)[key := Entry(value, ttlSecs)]
    {
      entries := entries[key := Entry(value, ttlSecs)];
    }
  }

  /** Whether a newly issued token of this type is written to the store. */
  predicate Registers(cfg: Config, tokenType: TokenType)
  {
    cfg.enabled && !(cfg.checks == "refresh" && tokenType != Refresh)
  }

  /**
   * The store's contents after registering a token. Out of scope (blacklist
   * disabled, or refresh-only checks and a non-refresh token) nothing
   * changes; otherwise exactly the key `jti` changes, to an active record
   * that lives 15 minutes longer than the token when the store has TTLs and
   * forever when it has none.
   */
  function Registered(entries: map<string, Entry>, cfg: Config, ttlSupport: bool,
                      jti: string, lifetime: int, tokenType: TokenType): (after: map<string, Entry>)
    ensures !Registers(cfg, tokenType) ==> after == entries
    ensures Registers(cfg, tokenType) ==>
              && jti in after && after[jti].status == Active
              && after[jti].ttlSecs == (if ttlSupport then Some(lifetime + TtlGraceSecs) else None)
    ensures after.Keys == entries.Keys + (if Registers(cfg, tokenType) then {jti} else {})
    ensures forall k | k in entries && k != jti :: after[k] == entries[k]
  {
    if !cfg.enabled then entries
    else if cfg.checks == "refresh" && tokenType != Refresh then entries
    else if ttlSupport then entries[jti := Entry(Active, Some(lifetime + TtlGraceSecs))]
    else entries[jti := Entry(Active, None)]
  }

  /** `_store_token_if_blacklist_enabled(jti, token_expire_delta, token_type)`. */
  method StoreTokenIfBlacklistEnabled(store: Store, cfg: Config, jti: string, lifetime: int, tokenType: TokenType)
    modifies store
    ensures store.entries == Registered(old(store.entries), cfg, store.ttlSupport, jti, lifetime, tokenType)
  {
    if !cfg.enabled {
      return;
    }
    if cfg.checks == "refresh" && tokenType != Refresh {
      return;
    }
    if store.ttlSupport {
      store.Put(jti, Active, Some(lifetime + TtlGraceSecs));
    } else {
      store.Put(jti, Active, None);
    }
  }
}
