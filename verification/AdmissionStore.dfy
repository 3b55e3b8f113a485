/**
 * The in-process counting store behind concurrency leases and tenant admission slots
 * (`MemoryConcurrentAdmissionStore`, crates/sdkwork-web-core/src/stores.rs).
 */
module AdmissionStore {
  /** Live counts; a key whose count reaches zero is removed. */
  type Active = m: map<string, nat> | forall k :: k in m ==> m[k] > 0 witness map[]

  /** `Unavailable` is a distributed store that cannot be reached; the in-process one never is. */
  datatype AcquireResult = Acquired | LimitReached | Unavailable

  function Count(active: Active, key: string): nat {
    if key in active then active[key] else 0
  }

  /** A zero limit means "unlimited": the acquire succeeds and nothing is counted. */
  function AcquireOutcome(active: Active, key: string, limit: nat): AcquireResult {
    if limit == 0 || Count(active, key) < limit then Acquired else LimitReached
  }

  function AfterAcquire(active: Active, key: string, limit: nat): (r: Active)
    ensures forall k ::
      Count(r, k) == Count(active, k) + (if k == key && limit > 0 && Count(active, k) < limit then 1 else 0)
  {
    if limit > 0 && Count(active, key) < limit then active[key := Count(active, key) + 1] else active
  }

  function AfterRelease(active: Active, key: string): (r: Active)
    ensures forall k ::
      Count(r, k) == (if k == key && Count(active, k) > 0 then Count(active, k) - 1 else Count(active, k))
  {
    if key !in active then active
    else if active[key] == 1 then map k | k in active && k != key :: active[k]
    else active[key := active[key] - 1]
  }

  /** `release_keys`: the leases go back in reverse order of acquisition. */
  function AfterReleaseAll(active: Active, keys: seq<string>): Active {
    if keys == [] then active
    else AfterReleaseAll(AfterRelease(active, keys[|keys| - 1]), keys[..|keys| - 1])
  }

  lemma {:induction false} ReleaseAllCounts(active: Active, keys: seq<string>, k: string)
    ensures Count(AfterReleaseAll(active, keys), k) ==
      if Count(active, k) <= multiset(keys)[k] then 0 else Count(active, k) - multiset(keys)[k]
    decreases |keys|
  {
    if keys != [] {
      var n := |keys| - 1;
      assert keys == keys[..n] + [keys[n]];
      ReleaseAllCounts(AfterRelease(active, keys[n]), keys[..n], k);
    }
  }

  class Store {
    var active: Active

    constructor ()
      ensures active == map[]
    {
      active := map[];
    }

    method TryAcquire(key: string, limit: nat, reachable: bool) returns (r: AcquireResult)
      modifies this
      ensures !reachable ==> r == Unavailable && active == old(active)
      ensures reachable ==> r == AcquireOutcome(old(active), key, limit)
      ensures reachable ==> r == if limit == 0 || Count(old(active), key) < limit then Acquired else LimitReached
      ensures forall k ::
        Count(active, k) == Count(old(active), k)
          + (if k == key && reachable && Count(old(active), k) < limit then 1 else 0)
      ensures reachable ==> active == AfterAcquire(old(active), key, limit)
    {
      if !reachable { return Unavailable; }
      if limit == 0 { return Acquired; }
      var count := if key in active then active[key] else 0;
      if count >= limit { return LimitReached; }
      active := active[key := count + 1];
      r := Acquired;
    }

    method Release(key: string)
      modifies this
      ensures active == AfterRelease(old(active), key)
    {
      if key in active {
        var count := active[key] - 1;
        if count == 0 {
          active := map k | k in active && k != key :: active[k];
        } else {
          active := active[key := count];
        }
      }
    }

    method ReleaseKeys(keys: seq<string>)
      modifies this
      ensures active == AfterReleaseAll(old(active), keys)
    {
      var i := |keys|;
      assert keys[..i] == keys;
      while i > 0
        invariant 0 <= i <= |keys|
        invariant AfterReleaseAll(active, keys[..i]) == AfterReleaseAll(old(active), keys)
      {
        i := i - 1;
        assert keys[..i + 1][..i] == keys[..i] && keys[..i + 1][i] == keys[i];
        Release(keys[i]);
      }
      assert keys[..0] == [];
    }
  }
}
