/**
 * `TtlCache` (crates/sdkwork-web-core/src/policy_cache.rs) and the authorization-scope provider on
 * top of it (crates/sdkwork-web-core/src/authz_scope.rs). The clock and the source's answer are
 * parameters.
 */
module ScopeCache {
  import opened Sorting
  import opened Text
  import opened ScopeKeys

  datatype CacheEntry<T> = CacheEntry(value: T, expiresAt: nat)

  type Entries<T> = map<string, CacheEntry<T>>

  predicate Live<T>(entries: Entries<T>, key: string, now: nat) {
    key in entries && entries[key].expiresAt > now
  }

  function Lookup<T>(entries: Entries<T>, key: string, now: nat): Option<T> {
    if Live(entries, key, now) then Some(entries[key].value) else None
  }

  /** `get_valid` drops an entry it finds expired. */
  function AfterLookup<T>(entries: Entries<T>, key: string, now: nat): Entries<T> {
    if Live(entries, key, now) then entries else entries - {key}
  }

  function AfterInsert<T>(entries: Entries<T>, key: string, value: T, now: nat, ttl: nat): Entries<T> {
    entries[key := CacheEntry(value, now + ttl)]
  }

  function AfterInvalidate<T>(entries: Entries<T>, prefix: string): Entries<T> {
    map k | k in entries && !StartsWith(k, prefix) :: entries[k]
  }

  class TtlCache<T> {
    const ttl: nat
    var entries: Entries<T>

    constructor (ttl: nat)
      ensures entries == map[] && this.ttl == ttl
    {
      this.ttl := ttl;
      entries := map[];
    }

    method GetValid(key: string, now: nat) returns (r: Option<T>)
      modifies this
      ensures r == Lookup(old(entries), key, now) && entries == AfterLookup(old(entries), key, now)
    {
      var isValid := if key in entries then entries[key].expiresAt > now else false;
      if isValid { return Some(entries[key].value); }
      entries := entries - {key};
      r := None;
    }

    method Insert(key: string, value: T, now: nat)
      modifies this
      ensures entries == AfterInsert(old(entries), key, value, now, ttl)
    {
      entries := entries[key := CacheEntry(value, now + ttl)];
    }

    /** Exactly the keys with the prefix go; every other entry stays as it is. */
    method InvalidatePrefix(prefix: string)
      modifies this
      ensures forall k :: k in entries <==> k in old(entries) && !StartsWith(k, prefix)
      ensures forall k :: k in entries ==> entries[k] == old(entries)[k]
      ensures entries == AfterInvalidate(old(entries), prefix)
    {
      entries := map k | k in entries && !StartsWith(k, prefix) :: entries[k];
    }
  }

  // -- the provider ----------------------------------------------------------------------------

  datatype Scope = Scope(data: seq<string>, permissions: seq<string>, revision: Option<string>)

  datatype Fallback = Deny | CredentialClaims

  /** What the authoritative source says: a scope, no record, or an error. */
  datatype Answer = Known(scope: Scope) | NoRecord | Broken

  datatype Outcome = Granted(scope: Scope) | Forbidden | SourceError

  function ApplyFallback(fallback: Fallback, credential: Scope): Outcome {
    if fallback == Deny then Forbidden else Granted(credential)
  }

  /** What a cached or freshly resolved value means for the caller. */
  function Served(fallback: Fallback, credential: Scope, value: Option<Scope>): Outcome {
    if value.Some? then Granted(value.value) else ApplyFallback(fallback, credential)
  }

  function Cached(answer: Answer): Option<Scope> {
    if answer.Known? then Some(answer.scope) else None
  }

  class Provider {
    const cache: TtlCache<Option<Scope>>
    const fallback: Fallback

    constructor (ttl: nat, fallback: Fallback)
      ensures cache.ttl == ttl && cache.entries == map[] && this.fallback == fallback && fresh(cache)
    {
      this.fallback := fallback;
      cache := new TtlCache(ttl);
    }

    /** `materialize`; `answer` is looked at only when the cache has no live entry. */
    method Materialize(subject: Subject, credential: Scope, answer: Answer, now: nat) returns (r: Outcome)
      modifies cache
      ensures var key, e := CacheKey(subject), old(cache.entries);
              if Live(e, key, now) then
                r == Served(fallback, credential, e[key].value) && cache.entries == e
              else if answer == Broken then
                r == SourceError && cache.entries == e - {key}
              else
                && r == Served(fallback, credential, Cached(answer))
                && cache.entries == e[key := CacheEntry(Cached(answer), now + cache.ttl)]
      ensures var key, e := CacheKey(subject), old(cache.entries);
              var live := key in e && e[key].expiresAt > now;
              && (live && e[key].value.Some? ==> r == Granted(e[key].value.value))
              && (!live && answer.Known? ==> r == Granted(answer.scope))
              && ((if live then e[key].value.None? else answer.NoRecord?) ==>
                   r == match fallback case CredentialClaims => Granted(credential) case Deny => Forbidden)
    {
      var key := CacheKey(subject);
      var cached := cache.GetValid(key, now);
      match cached
      case Some(Some(scope)) => return Granted(scope);
      case Some(None) => return ApplyFallback(fallback, credential);
      case None =>
        match answer
        case Broken => r := SourceError;
        case Known(scope) =>
          cache.Insert(key, Some(scope), now);
          r := Granted(scope);
        case NoRecord =>
          cache.Insert(key, None, now);
          r := ApplyFallback(fallback, credential);
    }

    /**
     * The subject's key is used as a prefix: of the subjects without bars exactly those with the same key
     * lose their entry.
     */
    method InvalidateSubject(subject: Subject)
      modifies cache
      ensures cache.entries == AfterInvalidate(old(cache.entries), CacheKey(subject))
      ensures forall t :: CacheKey(t) in cache.entries <==>
        CacheKey(t) in old(cache.entries) && !Begins(Pieces(Fields(subject)), Pieces(Fields(t)))
      ensures forall t :: Separable(t) ==>
        (CacheKey(t) in cache.entries <==> CacheKey(t) in old(cache.entries) && CacheKey(t) != CacheKey(subject))
      ensures Plain(subject) ==> forall t :: Separable(t) && Plain(t) ==>
        (CacheKey(t) in cache.entries <==> CacheKey(t) in old(cache.entries) && t != subject)
    {
      cache.InvalidatePrefix(CacheKey(subject));
      forall t
        ensures StartsWith(CacheKey(t), CacheKey(subject)) <==> Begins(Pieces(Fields(subject)), Pieces(Fields(t)))
      {
        SubjectSelectsExactly(t, subject);
      }
      forall t | Separable(t)
        ensures StartsWith(CacheKey(t), CacheKey(subject)) <==> CacheKey(t) == CacheKey(subject)
        ensures Plain(t) && Plain(subject) ==> (StartsWith(CacheKey(t), CacheKey(subject)) <==> t == subject)
      {
        SubjectSelects(t, subject);
      }
    }

    /** The entries of the same user, in the same organization only. */
    method InvalidateUser(subject: Subject)
      modifies cache
      ensures cache.entries == AfterInvalidate(old(cache.entries), UserPrefix(subject))
      ensures forall t :: CacheKey(t) in cache.entries <==>
        CacheKey(t) in old(cache.entries) && !Leads(Pieces(Fields(subject)[..3]), Pieces(Fields(t)))
      ensures UserSeparable(subject) ==>
        forall t :: UserSeparable(t) ==>
          (CacheKey(t) in cache.entries <==> CacheKey(t) in old(cache.entries) && !SameUser(t, subject))
    {
      cache.InvalidatePrefix(UserPrefix(subject));
      forall t
        ensures StartsWith(CacheKey(t), UserPrefix(subject)) <==> Leads(Pieces(Fields(subject)[..3]), Pieces(Fields(t)))
      {
        UserSelectsExactly(t, subject);
      }
      forall t | UserSeparable(subject) && UserSeparable(t)
        ensures StartsWith(CacheKey(t), UserPrefix(subject)) <==> SameUser(t, subject)
      {
        UserSelects(t, subject);
      }
    }

    /** The tenant's entries, and those of a tenant whose id continues it behind a bar. */
    method InvalidateTenant(tenant: string)
      modifies cache
      ensures cache.entries == AfterInvalidate(old(cache.entries), TenantPrefix(tenant))
      ensures forall t :: CacheKey(t) in cache.entries <==>
        CacheKey(t) in old(cache.entries) && !Leads(Pieces([tenant]), Pieces(Fields(t)))
      ensures BarFree(tenant) ==>
        forall t :: CacheKey(t) in cache.entries <==>
          CacheKey(t) in old(cache.entries) && !TenantCovers(tenant, t.tenant)
    {
      cache.InvalidatePrefix(TenantPrefix(tenant));
      forall t
        ensures StartsWith(CacheKey(t), TenantPrefix(tenant)) <==> Leads(Pieces([tenant]), Pieces(Fields(t)))
      {
        TenantSelectsExactly(t, tenant);
      }
      forall t | BarFree(tenant)
        ensures StartsWith(CacheKey(t), TenantPrefix(tenant)) <==> TenantCovers(tenant, t.tenant)
      {
        TenantSelects(t, tenant);
      }
    }
  }
}
