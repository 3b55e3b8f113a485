/**
 * What the bounded map of request series holds after any observations, counted directly on the
 * observations (crates/sdkwork-web-core/src/metrics.rs): which keys have a series, what each series
 * shows, and what was dropped.
 */
module MetricsSeries {
  import opened Sorting
  import opened Metrics

  /** How many observations satisfy the condition. */
  function Tally(os: seq<Observation>, p: Observation -> bool): nat {
    if os == [] then 0 else Tally(os[..|os| - 1], p) + (if p(os[|os| - 1]) then 1 else 0)
  }

  function OfKey(key: Key): Observation -> bool {
    (o: Observation) => o.key == key
  }

  function Timed(key: Key): Observation -> bool {
    (o: Observation) => o.key == key && o.elapsed.Some?
  }

  function InBucket(key: Key, b: Bucket): Observation -> bool {
    (o: Observation) => o.key == key && o.elapsed.Some? && o.elapsed.value.bucket == b
  }

  /** The microseconds of the key's observations. */
  function Micros(os: seq<Observation>, key: Key): nat {
    if os == [] then 0
    else
      var o := os[|os| - 1];
      Micros(os[..|os| - 1], key) + (if o.key == key && o.elapsed.Some? then o.elapsed.value.micros else 0)
  }

  lemma {:induction false} TallyNone(os: seq<Observation>, p: Observation -> bool)
    requires forall o :: o in os ==> !p(o)
    ensures Tally(os, p) == 0
    decreases |os|
  {
    if os != [] { TallyNone(os[..|os| - 1], p); }
  }

  lemma {:induction false} MicrosNone(os: seq<Observation>, key: Key)
    requires forall o :: o in os ==> o.key != key
    ensures Micros(os, key) == 0
    decreases |os|
  {
    if os != [] { MicrosNone(os[..|os| - 1], key); }
  }

  lemma {:induction false} TallySame(os: seq<Observation>, p: Observation -> bool, q: Observation -> bool)
    requires forall o :: o in os ==> p(o) == q(o)
    ensures Tally(os, p) == Tally(os, q)
    decreases |os|
  {
    if os != [] { TallySame(os[..|os| - 1], p, q); }
  }

  // -- which keys have a series --------------------------------------------------------------------

  /** The keys observed so far that are not too long. */
  function ShortKeys(os: seq<Observation>): set<Key> {
    set i | 0 <= i < |os| && |os[i].key| <= MAX_KEY_BYTES :: os[i].key
  }

  lemma ShortNext(os: seq<Observation>)
    requires os != []
    ensures var n := |os| - 1;
            ShortKeys(os) == ShortKeys(os[..n]) + (if |os[n].key| <= MAX_KEY_BYTES then {os[n].key} else {})
  {
    var n := |os| - 1;
    forall k | k in ShortKeys(os)
      ensures k in ShortKeys(os[..n]) || (k == os[n].key && |k| <= MAX_KEY_BYTES)
    {
      var i :| 0 <= i < |os| && |os[i].key| <= MAX_KEY_BYTES && os[i].key == k;
      if i < n { assert os[..n][i] == os[i]; }
    }
    forall k | k in ShortKeys(os[..n]) ensures k in ShortKeys(os) {
      var i :| 0 <= i < n && |os[..n][i].key| <= MAX_KEY_BYTES && os[..n][i].key == k;
      assert os[i] == os[..n][i];
    }
  }

  /** Every short key is stored as long as they fit, and from then on the maximum of them. */
  ghost predicate Fills(max: nat, stored: set<Key>, short: set<Key>) {
    stored <= short && (|short| <= max ==> stored == short) && (|short| > max ==> |stored| == max)
  }

  lemma FillsNext(max: nat, stored: set<Key>, short: set<Key>, key: Key)
    requires Fills(max, stored, short)
    ensures key in stored ==> short + {key} == short
    ensures key !in stored && |stored| < max ==> Fills(max, stored + {key}, short + {key})
    ensures key !in stored && |stored| >= max ==> Fills(max, stored, short + {key})
  {
    if key !in stored && stored == short { assert |short + {key}| == |short| + 1; }
    if key !in stored && stored != short {
      var longer := short + {key};
      assert longer == if key in short then short else short + {key};
      assert |longer| == if key in short then |short| else |short| + 1;
    }
  }

  /** Until the maximum is reached every short key has a series, and from then on no key is added. */
  lemma {:induction false} SeriesKeys(max: nat, os: seq<Observation>)
    ensures Fills(max, Replay(max, os).series.Keys, ShortKeys(os))
    decreases |os|
  {
    if os != [] {
      var n := |os| - 1;
      SeriesKeys(max, os[..n]);
      ShortNext(os);
      var before, after, key := Replay(max, os[..n]).series, Replay(max, os).series, os[n].key;
      FillsNext(max, before.Keys, ShortKeys(os[..n]), key);
      assert |before| == |before.Keys|;
      if |key| > MAX_KEY_BYTES || key in before {
        assert after.Keys == before.Keys;
      } else if |before| < max {
        assert after.Keys == before.Keys + {key};
      } else {
        assert after == before;
      }
    }
  }

  /** A short key without a series was not observed, unless the map is full. */
  lemma UnseenKey(max: nat, os: seq<Observation>, key: Key)
    requires key !in Replay(max, os).series && |key| <= MAX_KEY_BYTES && |Replay(max, os).series| < max
    ensures forall o :: o in os ==> o.key != key
  {
    SeriesKeys(max, os);
    forall i | 0 <= i < |os| ensures os[i].key != key {
      assert |os[i].key| <= MAX_KEY_BYTES ==> os[i].key in ShortKeys(os);
    }
  }

  /** The position at which a key is first observed. */
  ghost predicate FirstAt(os: seq<Observation>, key: Key, i: nat) {
    i < |os| && os[i].key == key && forall j :: 0 <= j < i ==> os[j].key != key
  }

  lemma FirstLonger(os: seq<Observation>, key: Key, i: nat)
    requires os != []
    ensures var n := |os| - 1;
            FirstAt(os, key, i) <==>
              FirstAt(os[..n], key, i) || (i == n && os[n].key == key && forall o :: o in os[..n] ==> o.key != key)
  {
    var n := |os| - 1;
    assert forall j :: 0 <= j < n ==> os[..n][j] == os[j];
  }

  /** The key is short, and fewer than `max` short keys came before its first observation. */
  ghost predicate Admitted(max: nat, os: seq<Observation>, key: Key) {
    |key| <= MAX_KEY_BYTES && exists i: nat :: FirstAt(os, key, i) && |ShortKeys(os[..i])| < max
  }

  lemma AdmittedLonger(max: nat, os: seq<Observation>, key: Key)
    requires os != []
    ensures var n := |os| - 1;
            Admitted(max, os, key) <==>
              Admitted(max, os[..n], key) ||
              (|key| <= MAX_KEY_BYTES && os[n].key == key && |ShortKeys(os[..n])| < max
               && forall o :: o in os[..n] ==> o.key != key)
  {
    var n := |os| - 1;
    assert forall i :: 0 <= i <= n ==> os[..n][..i] == os[..i];
    forall i: nat
      ensures FirstAt(os, key, i) <==>
        FirstAt(os[..n], key, i) || (i == n && os[n].key == key && forall o :: o in os[..n] ==> o.key != key)
    {
      FirstLonger(os, key, i);
    }
    if Admitted(max, os[..n], key) {
      var i: nat :| FirstAt(os[..n], key, i) && |ShortKeys(os[..n][..i])| < max;
      assert FirstAt(os, key, i);
    }
    if Admitted(max, os, key) {
      var i: nat :| FirstAt(os, key, i) && |ShortKeys(os[..i])| < max;
      if i < n { assert FirstAt(os[..n], key, i); }
    }
    if |ShortKeys(os[..n])| < max && FirstAt(os, key, n) { assert |ShortKeys(os[..n])| < max; }
  }

  /** A key has a series exactly when it is among the first `max` short keys observed. */
  lemma {:induction false} StoredExactly(max: nat, os: seq<Observation>, key: Key)
    ensures key in Replay(max, os).series <==> Admitted(max, os, key)
    decreases |os|
  {
    if os != [] {
      var n := |os| - 1;
      StoredExactly(max, os[..n], key);
      AdmittedLonger(max, os, key);
      SeriesKeys(max, os[..n]);
      if os[n].key == key && key !in Replay(max, os[..n]).series && |key| <= MAX_KEY_BYTES {
        if |Replay(max, os[..n]).series| < max { UnseenKey(max, os[..n], key); }
      }
    }
  }

  // -- what a series shows -----------------------------------------------------------------------------

  /** The series shows the key's observations: each number is the true one, stopped at the largest `u64`. */
  ghost predicate Shows(s: Stats, os: seq<Observation>, key: Key) {
    && s.count == Clamp(Tally(os, OfKey(key)))
    && s.durationCount == Clamp(Tally(os, Timed(key)))
    && s.durationSumMicros == Clamp(Micros(os, key))
    && forall b: Bucket :: s.buckets[b] == Clamp(Tally(os, InBucket(key, b)))
  }

  lemma ShowsNothing(os: seq<Observation>, key: Key)
    requires forall o :: o in os ==> o.key != key
    ensures Shows(FRESH, os, key)
  {
    TallyNone(os, OfKey(key));
    TallyNone(os, Timed(key));
    MicrosNone(os, key);
    forall b: Bucket ensures FRESH.buckets[b] == Clamp(Tally(os, InBucket(key, b))) {
      TallyNone(os, InBucket(key, b));
      ZerosAre(BUCKETS, b);
    }
  }

  lemma {:induction false} ZerosAre(n: nat, i: nat)
    requires i < n
    ensures Zeros(n)[i] == 0
    decreases n
  {
    if i < n - 1 { ZerosAre(n - 1, i); }
  }

  lemma ShowsMore(s: Stats, os: seq<Observation>, key: Key, o: Observation)
    requires Shows(s, os, key)
    ensures o.key == key ==> forall t :: Grows(s, t, o.elapsed) ==> Shows(t, os + [o], key)
    ensures o.key != key ==> Shows(s, os + [o], key)
  {
    assert (os + [o])[..|os|] == os;
  }

  /**
   * After any observations, a series shows exactly the observations of its key: their number, how many
   * had a duration, how many fell into each bucket, and the sum of their microseconds.
   */
  lemma {:induction false} SeriesShows(max: nat, os: seq<Observation>, key: Key)
    requires key in Replay(max, os).series
    ensures Shows(Replay(max, os).series[key], os, key)
    decreases |os|
  {
    var n := |os| - 1;
    var before := Replay(max, os[..n]);
    assert os == os[..n] + [os[n]];
    if key in before.series {
      SeriesKeys(max, os[..n]);
      KeyIsShort(os[..n], key);
      SeriesShows(max, os[..n], key);
      ShowsMore(before.series[key], os[..n], key, os[n]);
      RecordedGrows(before.series[key], os[n].elapsed);
    } else {
      UnseenKey(max, os[..n], key);
      ShowsNothing(os[..n], key);
      ShowsMore(FRESH, os[..n], key, os[n]);
      RecordedGrows(FRESH, os[n].elapsed);
    }
  }

  // -- what was dropped ----------------------------------------------------------------------------------

  function Outside(keys: set<Key>): Observation -> bool {
    (o: Observation) => o.key !in keys
  }

  /** Exactly the observations of keys that ended up without a series were dropped. */
  lemma {:induction false} DroppedExactly(max: nat, os: seq<Observation>)
    ensures Replay(max, os).dropped == Clamp(Tally(os, Outside(Replay(max, os).series.Keys)))
    decreases |os|
  {
    if os != [] {
      var n := |os| - 1;
      var before, after, o := Replay(max, os[..n]), Replay(max, os), os[n];
      DroppedExactly(max, os[..n]);
      if after.series.Keys != before.series.Keys {
        UnseenKey(max, os[..n], o.key);
        assert after.series.Keys == before.series.Keys + {o.key};
        TallySame(os[..n], Outside(before.series.Keys), Outside(after.series.Keys));
      }
      if o.key in before.series { SeriesKeys(max, os[..n]); KeyIsShort(os[..n], o.key); }
    }
  }

  lemma KeyIsShort(os: seq<Observation>, key: Key)
    requires key in ShortKeys(os)
    ensures |key| <= MAX_KEY_BYTES
  {
  }
}
