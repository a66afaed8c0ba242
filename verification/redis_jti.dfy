/**
 * The token revocation blocklist (src/redis/redis_jti.py): an expiring
 * key-value store in which a revoked token's jti maps to an empty string for
 * JTI_EXPIRY seconds. The store is a map from key to value and expiry time;
 * the clock is an explicit `now`.
 */
module RedisJti {
  import opened Common
  import AuthUtils

  const JTI_EXPIRY: nat := 60 * 60

  /** A stored value and the moment at which the store evicts it. */
  datatype Entry = Entry(value: string, expiresAt: nat)

  type Store = map<string, Entry>

  /** `GET key` at time `now`: the stored value while the key has not expired, else nil. */
  function Get(store: Store, key: string, now: nat): Option<string>
  {
    if key in store && now < store[key].expiresAt then Some(store[key].value) else None
  }

  /**
   * The answer of `token_in_blocklist`: the jti is listed while its key is
   * present and not yet expired, which is exactly when `GET` returns a value.
   */
  function InBlocklist(store: Store, jti: string, now: nat): (r: bool)
    ensures r <==> Get(store, jti, now) != None
    ensures r ==> jti in store && store[jti].expiresAt > now
  {
    jti in store && now < store[jti].expiresAt
  }

  /** The store after `SET jti "" EX JTI_EXPIRY` at time `now`. */
  function WithJti(store: Store, jti: string, now: nat): (r: Store)
    ensures r.Keys == store.Keys + {jti}
    ensures r[jti] == Entry("", now + 3600)
    ensures forall k :: k in store && k != jti ==> r[k] == store[k]
  {
    store[jti := Entry("", now + JTI_EXPIRY)]
  }

  /** The connection to the store, reduced to the keys it holds. */
  class Blocklist {
    var store: Store

    constructor ()
      ensures store == map[]
    {
      store := map[];
    }

    /** `add_jti_to_blocklist(jti)` at time `now`. */
    method AddJtiToBlocklist(jti: string, now: nat)
      modifies this
      ensures store == WithJti(old(store), jti, now)
    {
      store := store[jti := Entry("", now + JTI_EXPIRY)];
    }

    /** `token_in_blocklist(jti)` at time `now`; it only reads the store. */
    method TokenInBlocklist(jti: string, now: nat) returns (b: bool)
      ensures b == InBlocklist(store, jti, now)
    {
      var found := Get(store, jti, now);
      b := found != None;
    }
  }

  /** After adding `jti` at time t, it is blocklisted exactly until t + JTI_EXPIRY. */
  lemma BlockedUntilExpiry(store: Store, jti: string, t: nat, now: nat)
    ensures InBlocklist(WithJti(store, jti, t), jti, now) <==> now < t + JTI_EXPIRY
  {
  }

  /** Adding a jti changes the answer for no other jti. */
  lemma AddLeavesOthers(store: Store, jti: string, t: nat, other: string, now: nat)
    requires other != jti
    ensures InBlocklist(WithJti(store, jti, t), other, now) == InBlocklist(store, other, now)
  {
  }

  /** Adding a jti twice is adding it once at the later time: only the expiry is reset. */
  lemma AddTwiceResetsExpiry(store: Store, jti: string, t1: nat, t2: nat)
    ensures WithJti(WithJti(store, jti, t1), jti, t2) == WithJti(store, jti, t2)
  {
  }

  /** A blocklist entry lives exactly as long as an access token. */
  lemma EntryLifetimeIsAccessLifetime()
    ensures JTI_EXPIRY == AuthUtils.ACCESS_TOKEN_EXPIRY
  {
  }
}
