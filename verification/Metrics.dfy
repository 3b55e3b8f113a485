/**
 * The bounded request-series registry (crates/sdkwork-web-core/src/metrics.rs): saturating
 * counters, duration histograms, one bounded map as the specification, and the 64-shard registry
 * that implements it for one caller at a time. Concurrent recorders are in MetricsRecorders.
 */
module Metrics {
  import opened Bits
  import opened Sorting

  /** A rendered label set, as its UTF-8 bytes. */
  type Key = seq<byte>

  const U64_MAX: nat := 0xFFFF_FFFF_FFFF_FFFF
  const BUCKETS: nat := 13
  const SHARDS: nat := 64
  const MAX_KEY_BYTES: nat := 2048
  const DEFAULT_MAX_SERIES: nat := 4096

  function Clamp(n: nat): (r: nat)
    ensures r <= U64_MAX && r <= n && (r == n || r == U64_MAX)
  {
    if n > U64_MAX then U64_MAX else n
  }

  function SaturatingAdd(a: nat, b: nat): nat {
    Clamp(a + b)
  }

  type Bucket = b: nat | b < BUCKETS

  /** A duration: the bucket its seconds fall into, and its microseconds. */
  datatype Elapsed = Elapsed(bucket: Bucket, micros: nat)

  datatype Observation = Observation(key: Key, elapsed: Option<Elapsed>)

  type Histogram = s: seq<nat> | |s| == BUCKETS witness Zeros(BUCKETS)

  datatype Stats = Stats(count: nat, durationCount: nat, durationSumMicros: nat, buckets: Histogram)

  function Zeros(n: nat): (r: seq<nat>)
    ensures |r| == n && Sum(r) == 0
  {
    if n == 0 then [] else
      var r := Zeros(n - 1) + [0];
      assert r[..n - 1] == Zeros(n - 1);
      r
  }

  const FRESH: Stats := Stats(0, 0, 0, Zeros(BUCKETS))

  function Sum(s: seq<nat>): nat {
    if s == [] then 0 else Sum(s[..|s| - 1]) + s[|s| - 1]
  }

  lemma {:induction false} SumUpdate(s: seq<nat>, i: nat, x: nat)
    requires i < |s|
    ensures Sum(s[i := x]) == Sum(s) - s[i] + x && Sum(s) >= s[i]
    decreases |s|
  {
    var n := |s| - 1;
    if i < n {
      assert s[i := x][..n] == s[..n][i := x];
      SumUpdate(s[..n], i, x);
    } else {
      assert s[i := x][..n] == s[..n];
    }
  }

  /** `RequestSeriesStats::record`. */
  function Recorded(s: Stats, elapsed: Option<Elapsed>): Stats
  {
    var counted := s.(count := SaturatingAdd(s.count, 1));
    if elapsed.None? then counted
    else
      var b := elapsed.value.bucket;
      counted.(durationCount := SaturatingAdd(s.durationCount, 1),
               durationSumMicros := SaturatingAdd(s.durationSumMicros, Clamp(elapsed.value.micros)),
               buckets := s.buckets[b := SaturatingAdd(s.buckets[b], 1)])
  }

  /** The bucket counts add up to the duration count, saturation included. */
  ghost predicate Coherent(s: Stats) {
    && s.durationCount == Clamp(Sum(s.buckets)) && s.durationCount <= s.count <= U64_MAX
    && s.durationSumMicros <= U64_MAX
    && (forall i :: 0 <= i < BUCKETS ==> s.buckets[i] <= U64_MAX)
  }

  lemma FreshCoherent()
    ensures Coherent(FRESH)
  {
    forall i | 0 <= i < BUCKETS ensures FRESH.buckets[i] <= U64_MAX { SumUpdate(FRESH.buckets, i, 0); }
  }

  /** Recording keeps the histogram coherent for every stats value, even at saturation. */
  lemma RecordedCoherent(s: Stats, elapsed: Option<Elapsed>)
    requires Coherent(s)
    ensures Coherent(Recorded(s, elapsed))
  {
    if elapsed.Some? {
      var b := elapsed.value.bucket;
      SumUpdate(s.buckets, b, SaturatingAdd(s.buckets[b], 1));
    }
  }

  /**
   * What one observation does to a series: one more request, and, when it carries a duration, one more in
   * the total and in its own bucket and its microseconds on the sum; nothing else moves.
   */
  ghost predicate Grows(before: Stats, after: Stats, elapsed: Option<Elapsed>) {
    && after.count == Clamp(before.count + 1)
    && after.durationCount == Clamp(before.durationCount + if elapsed.Some? then 1 else 0)
    && after.durationSumMicros == Clamp(before.durationSumMicros + if elapsed.Some? then elapsed.value.micros else 0)
    && forall b: Bucket ::
         after.buckets[b] == Clamp(before.buckets[b] + if elapsed.Some? && elapsed.value.bucket == b then 1 else 0)
  }

  ghost predicate Bounded(s: Stats) {
    && s.count <= U64_MAX && s.durationCount <= U64_MAX && s.durationSumMicros <= U64_MAX
    && forall b: Bucket :: s.buckets[b] <= U64_MAX
  }

  lemma RecordedGrows(s: Stats, elapsed: Option<Elapsed>)
    requires Bounded(s)
    ensures Grows(s, Recorded(s, elapsed), elapsed) && Bounded(Recorded(s, elapsed))
  {
  }

  lemma {:induction false} SumMonotone(s: seq<nat>, i: nat, j: nat)
    requires i <= j <= |s|
    ensures Sum(s[..i]) <= Sum(s[..j])
    decreases j - i
  {
    if i < j {
      SumMonotone(s, i, j - 1);
      assert s[..j][..j - 1] == s[..j - 1];
    }
  }

  /**
   * `render_request_series`: the cumulative bucket lines never decrease and the `+Inf` line is the
   * duration count, with no bound on the number of observations.
   */
  method RenderBuckets(s: Stats) returns (lines: seq<nat>)
    requires Coherent(s)
    ensures |lines| == BUCKETS
    ensures forall i :: 0 <= i < BUCKETS ==> lines[i] == Clamp(Sum(s.buckets[..i + 1]))
    ensures forall i, j :: 0 <= i <= j < BUCKETS ==> lines[i] <= lines[j]
    ensures lines[BUCKETS - 1] == s.durationCount
  {
    var cumulative := 0;
    lines := [];
    for index := 0 to BUCKETS
      invariant |lines| == index && cumulative == Clamp(Sum(s.buckets[..index]))
      invariant forall i :: 0 <= i < index ==> lines[i] == Clamp(Sum(s.buckets[..i + 1]))
    {
      assert s.buckets[..index + 1][..index] == s.buckets[..index];
      cumulative := SaturatingAdd(cumulative, s.buckets[index]);
      lines := lines + [cumulative];
    }
    forall i, j | 0 <= i <= j < BUCKETS ensures lines[i] <= lines[j] { SumMonotone(s.buckets, i + 1, j + 1); }
    assert s.buckets[..BUCKETS] == s.buckets;
  }

  // -- the specification: one bounded map ------------------------------------------------------

  datatype Ledger = Ledger(series: map<Key, Stats>, dropped: nat)

  const EMPTY_LEDGER := Ledger(map[], 0)

  ghost predicate ValidSeries(m: map<Key, Stats>) {
    forall k :: k in m ==> Coherent(m[k])
  }

  /** What one observation does to the series and the drop counter. */
  function Settle(l: Ledger, max: nat, o: Observation): Ledger
  {
    if |o.key| > MAX_KEY_BYTES then l.(dropped := SaturatingAdd(l.dropped, 1))
    else if o.key in l.series then l.(series := l.series[o.key := Recorded(l.series[o.key], o.elapsed)])
    else if |l.series| < max then l.(series := l.series[o.key := Recorded(FRESH, o.elapsed)])
    else l.(dropped := SaturatingAdd(l.dropped, 1))
  }

  ghost function Replay(max: nat, os: seq<Observation>): Ledger
  {
    if os == [] then EMPTY_LEDGER else Settle(Replay(max, os[..|os| - 1]), max, os[|os| - 1])
  }

  // -- conservation ----------------------------------------------------------------------------

  ghost function SumCounts(m: map<Key, Stats>): nat {
    if m == map[] then 0 else
      var k :| k in m;
      m[k].count + SumCounts(m - {k})
  }

  lemma {:induction false} SumCountsRemove(m: map<Key, Stats>, k: Key)
    requires k in m
    ensures SumCounts(m) == m[k].count + SumCounts(m - {k})
    decreases |m|
  {
    var x :| x in m && SumCounts(m) == m[x].count + SumCounts(m - {x});
    if x != k {
      SumCountsRemove(m - {x}, k);
      SumCountsRemove(m - {k}, x);
      assert m - {x} - {k} == m - {k} - {x};
    }
  }

  lemma SumCountsSet(m: map<Key, Stats>, k: Key, s: Stats)
    ensures SumCounts(m[k := s]) == SumCounts(m - {k}) + s.count
  {
    SumCountsRemove(m[k := s], k);
    assert m[k := s] - {k} == m - {k};
  }

  /** Writing one series changes the sum by the change of that series. */
  lemma SumCountsWrite(m: map<Key, Stats>, k: Key, s: Stats)
    ensures SumCounts(m[k := s]) == SumCounts(m) - (if k in m then m[k].count else 0) + s.count
  {
    SumCountsSet(m, k, s);
    if k in m { SumCountsRemove(m, k); } else { assert m - {k} == m; }
  }

  /** The series an observation lands in, before and after. */
  function Landing(m: map<Key, Stats>, key: Key): Stats {
    if key in m then m[key] else FRESH
  }

  lemma LandingCounts(m: map<Key, Stats>, o: Observation, dropped: nat)
    ensures Clamp(SumCounts(m[o.key := Recorded(Landing(m, o.key), o.elapsed)]) + dropped) ==
      Clamp(SumCounts(m) + dropped + 1)
  {
    SumCountsWrite(m, o.key, Recorded(Landing(m, o.key), o.elapsed));
    if o.key in m { SumCountsRemove(m, o.key); }
  }

  lemma SettleShape(l: Ledger, max: nat, o: Observation)
    ensures var t := Settle(l, max, o);
            || t == l.(dropped := SaturatingAdd(l.dropped, 1))
            || (t == l.(series := l.series[o.key := Recorded(Landing(l.series, o.key), o.elapsed)])
                && (o.key in l.series || |l.series| < max))
  {
  }

  /** What the request total should show: every recorded series count and every drop. */
  ghost function Accounted(l: Ledger): nat {
    Clamp(SumCounts(l.series) + l.dropped)
  }

  /** One observation adds one to the series counts or to the drops, up to saturation. */
  lemma SettleCounts(l: Ledger, max: nat, o: Observation)
    ensures Accounted(Settle(l, max, o)) == SaturatingAdd(Accounted(l), 1)
  {
    SettleShape(l, max, o);
    LandingCounts(l.series, o, l.dropped);
  }

  /** The observation's own series grew, and nothing else changed. */
  ghost predicate OneGrows(before: Ledger, after: Ledger, o: Observation) {
    && after.dropped == before.dropped && after.series.Keys == before.series.Keys + {o.key}
    && Grows(Landing(before.series, o.key), after.series[o.key], o.elapsed)
    && forall k :: k in before.series && k != o.key ==> after.series[k] == before.series[k]
  }

  lemma SettleGrows(l: Ledger, max: nat, o: Observation)
    requires ValidSeries(l.series)
    ensures if |o.key| <= MAX_KEY_BYTES && (o.key in l.series || |l.series| < max)
            then OneGrows(l, Settle(l, max, o), o)
            else Settle(l, max, o) == l.(dropped := Clamp(l.dropped + 1))
  {
    FreshCoherent();
    assert Coherent(Landing(l.series, o.key));
    RecordedGrows(Landing(l.series, o.key), o.elapsed);
  }

  lemma SettleValid(l: Ledger, max: nat, o: Observation)
    requires ValidSeries(l.series) && |l.series| <= max
    ensures ValidSeries(Settle(l, max, o).series) && |Settle(l, max, o).series| <= max
  {
    SettleShape(l, max, o);
    FreshCoherent();
    RecordedCoherent(Landing(l.series, o.key), o.elapsed);
  }

  /**
   * After any number of observations the series counts and the drops together account for all of
   * them, and saturate exactly as a single u64 counter of the observations would.
   */
  lemma {:induction false} ReplayConserves(max: nat, os: seq<Observation>)
    ensures ValidSeries(Replay(max, os).series) && |Replay(max, os).series| <= max
    ensures Accounted(Replay(max, os)) == Clamp(|os|)
    decreases |os|
  {
    if os != [] {
      var n := |os| - 1;
      ReplayConserves(max, os[..n]);
      var l := Replay(max, os[..n]);
      SettleCounts(l, max, os[n]);
      SettleValid(l, max, os[n]);
    }
  }

  // -- the sharded registry --------------------------------------------------------------------

  /** The key hasher is a parameter: any function will do. */
  function Home(hash: Key -> nat, key: Key): (i: nat)
    ensures i < SHARDS
  {
    hash(key) % SHARDS
  }

  type Shards = s: seq<map<Key, Stats>> | |s| == SHARDS witness seq(SHARDS, i => map[])

  /** Every series lives in the shard of its key. */
  ghost predicate AtHome(hash: Key -> nat, shards: Shards) {
    forall i, k :: 0 <= i < SHARDS && k in shards[i] ==> Home(hash, k) == i
  }

  function AllKeys(shards: Shards): set<Key> {
    set i, k | 0 <= i < SHARDS && k in shards[i] :: k
  }

  /** The single map the shards stand for. */
  ghost function Merged(hash: Key -> nat, shards: Shards): map<Key, Stats>
    requires AtHome(hash, shards)
  {
    map k | k in AllKeys(shards) :: shards[Home(hash, k)][k]
  }

  lemma MergedAt(hash: Key -> nat, shards: Shards, k: Key)
    requires AtHome(hash, shards)
    ensures k in Merged(hash, shards) <==> k in shards[Home(hash, k)]
    ensures k in Merged(hash, shards) ==> Merged(hash, shards)[k] == shards[Home(hash, k)][k]
  {
  }

  /** Writing a series in its own shard writes it in the merged map. */
  lemma MergedWrite(hash: Key -> nat, shards: Shards, key: Key, stats: Stats)
    requires AtHome(hash, shards)
    ensures var h := Home(hash, key);
            var after: Shards := shards[h := shards[h][key := stats]];
            AtHome(hash, after) && Merged(hash, after) == Merged(hash, shards)[key := stats]
  {
    var h := Home(hash, key);
    var after: Shards := shards[h := shards[h][key := stats]];
    forall k ensures k in Merged(hash, after) <==> k in Merged(hash, shards)[key := stats] {
      MergedAt(hash, after, k);
      MergedAt(hash, shards, k);
    }
    forall k | k in Merged(hash, after) ensures Merged(hash, after)[k] == Merged(hash, shards)[key := stats][k] {
      MergedAt(hash, after, k);
      MergedAt(hash, shards, k);
    }
  }

  class Registry {
    const hash: Key -> nat
    const maxSeries: nat
    var total: nat
    var shards: Shards
    var seriesCount: nat
    var dropped: nat

    ghost predicate Valid()
      reads this
    {
      && AtHome(hash, shards)
      && seriesCount == |Merged(hash, shards)| <= maxSeries
      && total == Accounted(Contents()) && ValidSeries(Merged(hash, shards))
    }

    ghost function Contents(): Ledger
      requires AtHome(hash, shards)
      reads this
    {
      Ledger(Merged(hash, shards), dropped)
    }

    constructor (hash: Key -> nat, maxSeries: nat)
      ensures Valid() && Contents() == EMPTY_LEDGER && total == 0 && this.hash == hash
      ensures this.maxSeries == if maxSeries <= DEFAULT_MAX_SERIES then maxSeries else DEFAULT_MAX_SERIES
    {
      this.hash := hash;
      this.maxSeries := if maxSeries <= DEFAULT_MAX_SERIES then maxSeries else DEFAULT_MAX_SERIES;
      total, seriesCount, dropped := 0, 0, 0;
      shards := seq(SHARDS, i => map[]);
      new;
      assert Merged(this.hash, shards) == map[];
    }

    /** Writes one series into its shard. */
    method Write(h: nat, key: Key, stats: Stats)
      requires AtHome(hash, shards) && h == Home(hash, key)
      modifies this`shards
      ensures AtHome(hash, shards) && Merged(hash, shards) == old(Merged(hash, shards))[key := stats]
    {
      MergedWrite(hash, shards, key, stats);
      shards := shards[h := shards[h][key := stats]];
    }

    /** The shard part: record in place, or reserve a place and insert; false means no room. */
    method RecordSeries(o: Observation) returns (recorded: bool)
      requires AtHome(hash, shards) && seriesCount == |Merged(hash, shards)|
      modifies this`shards, this`seriesCount
      ensures AtHome(hash, shards) && seriesCount == |Merged(hash, shards)|
      ensures recorded <==> o.key in old(Merged(hash, shards)) || old(seriesCount) < maxSeries
      ensures !recorded ==> Merged(hash, shards) == old(Merged(hash, shards))
      ensures recorded ==>
        var before := old(Merged(hash, shards));
        Merged(hash, shards) == before[o.key := Recorded(Landing(before, o.key), o.elapsed)]
    {
      var h := Home(hash, o.key);
      MergedAt(hash, shards, o.key);
      if o.key in shards[h] {
        Write(h, o.key, Recorded(shards[h][o.key], o.elapsed));
        return true;
      }
      if seriesCount >= maxSeries { return false; }
      seriesCount := seriesCount + 1;
      Write(h, o.key, Recorded(FRESH, o.elapsed));
      recorded := true;
    }

    /** `record_request_observation`: the sharded registry does what the single bounded map does. */
    method RecordRequestObservation(o: Observation)
      requires Valid()
      modifies this
      ensures Valid() && Contents() == Settle(old(Contents()), maxSeries, o)
      ensures total == Clamp(old(total) + 1)
      ensures if |o.key| <= MAX_KEY_BYTES && (o.key in old(Contents()).series || |old(Contents()).series| < maxSeries)
              then OneGrows(old(Contents()), Contents(), o)
              else Contents() == old(Contents()).(dropped := Clamp(old(Contents()).dropped + 1))
    {
      ghost var before := Contents();
      SettleGrows(before, maxSeries, o);
      SettleCounts(before, maxSeries, o);
      SettleValid(before, maxSeries, o);
      Account(o);
    }

    /** The counters and the shards: what one observation does to them. */
    method Account(o: Observation)
      requires AtHome(hash, shards) && seriesCount == |Merged(hash, shards)| <= maxSeries
      modifies this
      ensures AtHome(hash, shards) && seriesCount == |Merged(hash, shards)| <= maxSeries
      ensures Contents() == Settle(old(Contents()), maxSeries, o) && total == Clamp(old(total) + 1)
    {
      total := SaturatingAdd(total, 1);
      if |o.key| > MAX_KEY_BYTES {
        dropped := SaturatingAdd(dropped, 1);
        return;
      }
      var recorded := RecordSeries(o);
      if !recorded { dropped := SaturatingAdd(dropped, 1); }
    }
  }
}
