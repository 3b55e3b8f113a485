/**
 * Any number of recorders interleaved over the sharded registry: atomic counters, one lock per
 * shard, and a place reserved in the shared counter before the series is inserted. Every run
 * does what some one-at-a-time order of the same observations does on the single bounded map.
 */
module MetricsRecorders {
  import opened Sorting
  import opened Metrics

  datatype Phase = Arrived | Counted | Locked | Missed | Reserved | Full | Done

  datatype Recorder = Recorder(o: Observation, phase: Phase)

  datatype State = State(
    total: nat,
    dropped: nat,
    count: nat,                  // request_series_count
    shards: Shards,
    locks: seq<Option<nat>>,     // who holds each shard
    recorders: seq<Recorder>)

  datatype Config = Config(hash: Key -> nat, max: nat)

  datatype Step =
    | Spawn(o: Observation)      // a call begins
    | Count(id: nat)             // requests_total += 1
    | Oversize(id: nat)          // the key is too long: dropped += 1
    | Lock(id: nat)              // take the shard's lock
    | Hit(id: nat)               // the series exists: record and unlock
    | Miss(id: nat)              // it does not
    | Reserve(id: nat)           // try to take one place of the counter
    | Insert(id: nat)            // store the new series and unlock
    | Refuse(id: nat)            // no place: dropped += 1 and unlock

  const INITIAL := State(0, 0, 0, seq(SHARDS, i => map[]), seq(SHARDS, i => None), [])

  function ShardOf(c: Config, r: Recorder): nat {
    Home(c.hash, r.o.key)
  }

  ghost predicate In(s: State, id: nat, phase: Phase) {
    id < |s.recorders| && s.recorders[id].phase == phase
  }

  ghost predicate Enabled(c: Config, s: State, step: Step) {
    |s.locks| == SHARDS &&
    match step
    case Spawn(o) => true
    case Count(id) => In(s, id, Arrived)
    case Oversize(id) => In(s, id, Counted) && |s.recorders[id].o.key| > MAX_KEY_BYTES
    case Lock(id) =>
      In(s, id, Counted) && |s.recorders[id].o.key| <= MAX_KEY_BYTES && s.locks[ShardOf(c, s.recorders[id])].None?
    case Hit(id) => In(s, id, Locked) && s.recorders[id].o.key in s.shards[ShardOf(c, s.recorders[id])]
    case Miss(id) => In(s, id, Locked) && s.recorders[id].o.key !in s.shards[ShardOf(c, s.recorders[id])]
    case Reserve(id) => In(s, id, Missed)
    case Insert(id) => In(s, id, Reserved)
    case Refuse(id) => In(s, id, Full)
  }

  function Moved(rs: seq<Recorder>, id: nat, phase: Phase): seq<Recorder>
    requires id < |rs|
  {
    rs[id := rs[id].(phase := phase)]
  }

  function Written(shards: Shards, h: nat, key: Key, stats: Stats): Shards
    requires h < SHARDS
  {
    shards[h := shards[h][key := stats]]
  }

  ghost function Next(c: Config, s: State, step: Step): State
    requires Enabled(c, s, step)
  {
    match step
    case Spawn(o) => s.(recorders := s.recorders + [Recorder(o, Arrived)])
    case Count(id) => s.(total := SaturatingAdd(s.total, 1), recorders := Moved(s.recorders, id, Counted))
    case Oversize(id) => s.(dropped := SaturatingAdd(s.dropped, 1), recorders := Moved(s.recorders, id, Done))
    case Lock(id) => s.(locks := s.locks[ShardOf(c, s.recorders[id]) := Some(id)],
                        recorders := Moved(s.recorders, id, Locked))
    case Hit(id) =>
      var r := s.recorders[id];
      var h := ShardOf(c, r);
      s.(shards := Written(s.shards, h, r.o.key, Recorded(s.shards[h][r.o.key], r.o.elapsed)),
         locks := s.locks[h := None], recorders := Moved(s.recorders, id, Done))
    case Miss(id) => s.(recorders := Moved(s.recorders, id, Missed))
    case Reserve(id) =>
      if s.count < c.max then s.(count := s.count + 1, recorders := Moved(s.recorders, id, Reserved))
      else s.(recorders := Moved(s.recorders, id, Full))
    case Insert(id) =>
      var r := s.recorders[id];
      var h := ShardOf(c, r);
      s.(shards := Written(s.shards, h, r.o.key, Recorded(FRESH, r.o.elapsed)),
         locks := s.locks[h := None], recorders := Moved(s.recorders, id, Done))
    case Refuse(id) =>
      s.(dropped := SaturatingAdd(s.dropped, 1), locks := s.locks[ShardOf(c, s.recorders[id]) := None],
         recorders := Moved(s.recorders, id, Done))
  }

  // -- what every step keeps -------------------------------------------------------------------

  predicate InShard(r: Recorder) {
    r.phase == Locked || r.phase == Missed || r.phase == Reserved || r.phase == Full
  }

  predicate SawNothing(r: Recorder) {
    r.phase == Missed || r.phase == Reserved || r.phase == Full
  }

  /** A recorder inside its shard holds the lock; what it looked up in vain is still absent. */
  ghost predicate Inside(c: Config, s: State, id: nat)
    requires |s.locks| == SHARDS && id < |s.recorders|
  {
    var r := s.recorders[id];
    && (InShard(r) ==> |r.o.key| <= MAX_KEY_BYTES && s.locks[ShardOf(c, r)] == Some(id))
    && (SawNothing(r) ==> r.o.key !in s.shards[ShardOf(c, r)])
    && (r.phase == Full ==> s.count >= c.max)
  }

  ghost predicate Sound(c: Config, s: State) {
    |s.locks| == SHARDS && AtHome(c.hash, s.shards) && forall id :: 0 <= id < |s.recorders| ==> Inside(c, s, id)
  }

  /** Two recorders are never inside the same shard. */
  lemma MutualExclusion(c: Config, s: State, i: nat, j: nat)
    requires Sound(c, s) && i < |s.recorders| && j < |s.recorders|
    requires InShard(s.recorders[i]) && InShard(s.recorders[j])
    requires ShardOf(c, s.recorders[i]) == ShardOf(c, s.recorders[j])
    ensures i == j
  {
    assert Inside(c, s, i) && Inside(c, s, j);
  }

  predicate Pending(r: Recorder, k: Key) {
    r.phase == Reserved && r.o.key == k
  }

  /** The series of the single map: those stored, and those a recorder reserved a place for. */
  ghost predicate Represents(c: Config, s: State, m: map<Key, Stats>) {
    && (forall k :: k in s.shards[Home(c.hash, k)] ==> k in m && m[k] == s.shards[Home(c.hash, k)][k])
    && (forall i :: 0 <= i < |s.recorders| && s.recorders[i].phase == Reserved ==>
         s.recorders[i].o.key in m && m[s.recorders[i].o.key] == Recorded(FRESH, s.recorders[i].o.elapsed))
    && (forall k :: k in m ==> Known(c, s, k))
  }

  ghost predicate Known(c: Config, s: State, k: Key) {
    k in s.shards[Home(c.hash, k)] || exists i :: 0 <= i < |s.recorders| && Pending(s.recorders[i], k)
  }

  /** The step at which a recorder's observation takes effect. */
  ghost predicate TakesEffect(c: Config, s: State, step: Step) {
    step.Oversize? || step.Hit? || step.Refuse? || (step.Reserve? && s.count < c.max)
  }

  function Id(step: Step): nat
    requires !step.Spawn?
  {
    step.id
  }

  // The recorders other than the one that moves keep their place in the invariant.
  lemma OthersInside(c: Config, s: State, step: Step, i: nat)
    requires Sound(c, s) && Enabled(c, s, step) && i < |s.recorders| && (step.Spawn? || i != Id(step))
    ensures i < |Next(c, s, step).recorders| && |Next(c, s, step).locks| == SHARDS && Inside(c, Next(c, s, step), i)
  {
    assert Inside(c, s, i);
    if !step.Spawn? { assert Inside(c, s, Id(step)); }
  }

  lemma MoverInside(c: Config, s: State, step: Step)
    requires Sound(c, s) && Enabled(c, s, step) && !step.Spawn?
    ensures |Next(c, s, step).locks| == SHARDS && Inside(c, Next(c, s, step), Id(step))
  {
    assert Inside(c, s, Id(step));
  }

  lemma SoundNext(c: Config, s: State, step: Step)
    requires Sound(c, s) && Enabled(c, s, step)
    ensures Sound(c, Next(c, s, step))
  {
    var t := Next(c, s, step);
    forall i | 0 <= i < |t.recorders| ensures Inside(c, t, i) {
      if i == |s.recorders| { assert t.recorders[i].phase == Arrived; }
      else if !step.Spawn? && i == Id(step) { MoverInside(c, s, step); }
      else { OthersInside(c, s, step, i); }
    }
  }

  /** The insert never overwrites a series. */
  lemma InsertIsFresh(c: Config, s: State, id: nat)
    requires Sound(c, s) && Enabled(c, s, Insert(id))
    ensures s.recorders[id].o.key !in s.shards[ShardOf(c, s.recorders[id])]
  {
    assert Inside(c, s, id);
  }

  // -- refinement ------------------------------------------------------------------------------

  /** The single map after the step. */
  ghost function Effect(c: Config, s: State, step: Step, l: Ledger): Ledger
    requires Enabled(c, s, step)
  {
    if TakesEffect(c, s, step) then Settle(l, c.max, s.recorders[Id(step)].o) else l
  }

  ghost predicate Refines(c: Config, s: State, l: Ledger) {
    Represents(c, s, l.series) && s.count == |l.series| <= c.max && s.dropped == l.dropped
  }

  lemma KnownStays(c: Config, s: State, step: Step, k: Key)
    requires Sound(c, s) && Enabled(c, s, step) && Known(c, s, k)
    ensures Known(c, Next(c, s, step), k)
  {
    var t := Next(c, s, step);
    if k !in s.shards[Home(c.hash, k)] {
      var i :| 0 <= i < |s.recorders| && Pending(s.recorders[i], k);
      if t.recorders[i] == s.recorders[i] { assert Pending(t.recorders[i], k); }
    }
  }

  /** A step that leaves the map alone, stored series and reservations alike. */
  lemma QuietRefines(c: Config, s: State, step: Step, l: Ledger)
    requires Sound(c, s) && Enabled(c, s, step) && Refines(c, s, l)
    requires step.Spawn? || step.Count? || step.Lock? || step.Miss? || (step.Reserve? && s.count >= c.max)
    ensures Refines(c, Next(c, s, step), l)
  {
    var t := Next(c, s, step);
    forall k | k in l.series ensures Known(c, t, k) { KnownStays(c, s, step, k); }
  }

  lemma DropRefines(c: Config, s: State, step: Step, l: Ledger)
    requires Sound(c, s) && Enabled(c, s, step) && Refines(c, s, l) && (step.Oversize? || step.Refuse?)
    ensures Refines(c, Next(c, s, step), Effect(c, s, step, l))
  {
    var t := Next(c, s, step);
    assert Inside(c, s, Id(step));
    if step.Refuse? { NotYetKnown(c, s, Id(step)); }
    forall k | k in l.series ensures Known(c, t, k) { KnownStays(c, s, step, k); }
  }

  /** A recorder that missed, and holds no reservation, is alone on its key: the map lacks it. */
  lemma NotYetKnown(c: Config, s: State, id: nat)
    requires Sound(c, s) && (In(s, id, Missed) || In(s, id, Full))
    ensures !Known(c, s, s.recorders[id].o.key)
  {
    assert Inside(c, s, id);
    forall i | 0 <= i < |s.recorders| ensures !Pending(s.recorders[i], s.recorders[id].o.key) {
      assert Inside(c, s, i);
    }
  }

  lemma HitRefines(c: Config, s: State, id: nat, l: Ledger)
    requires Sound(c, s) && Enabled(c, s, Hit(id)) && Refines(c, s, l)
    ensures Refines(c, Next(c, s, Hit(id)), Effect(c, s, Hit(id), l))
  {
    var t := Next(c, s, Hit(id));
    var r := s.recorders[id];
    var m := Effect(c, s, Hit(id), l).series;
    assert Inside(c, s, id);
    forall i | 0 <= i < |t.recorders| && t.recorders[i].phase == Reserved
      ensures t.recorders[i].o.key in m && m[t.recorders[i].o.key] == Recorded(FRESH, t.recorders[i].o.elapsed)
    {
      assert Inside(c, s, i);
      assert t.recorders[i].o.key != r.o.key;
    }
    forall k | k in m ensures Known(c, t, k) { KnownStays(c, s, Hit(id), k); }
  }

  lemma ReserveRefines(c: Config, s: State, id: nat, l: Ledger)
    requires Sound(c, s) && Enabled(c, s, Reserve(id)) && s.count < c.max && Refines(c, s, l)
    ensures Refines(c, Next(c, s, Reserve(id)), Effect(c, s, Reserve(id), l))
  {
    var t := Next(c, s, Reserve(id));
    var r := s.recorders[id];
    var m := Effect(c, s, Reserve(id), l).series;
    assert Inside(c, s, id);
    NotYetKnown(c, s, id);
    assert Pending(t.recorders[id], r.o.key);
    forall i | 0 <= i < |t.recorders| && t.recorders[i].phase == Reserved
      ensures t.recorders[i].o.key in m && m[t.recorders[i].o.key] == Recorded(FRESH, t.recorders[i].o.elapsed)
    {
      if i != id { assert Pending(s.recorders[i], s.recorders[i].o.key); }
    }
    forall k | k in m ensures Known(c, t, k) {
      if k != r.o.key { KnownStays(c, s, Reserve(id), k); }
    }
  }

  lemma InsertRefines(c: Config, s: State, id: nat, l: Ledger)
    requires Sound(c, s) && Enabled(c, s, Insert(id)) && Refines(c, s, l)
    ensures Refines(c, Next(c, s, Insert(id)), l)
  {
    var t := Next(c, s, Insert(id));
    forall k | k in l.series ensures Known(c, t, k) { KnownStays(c, s, Insert(id), k); }
  }

  /** Every step either leaves the single map alone or settles one observation on it. */
  lemma StepRefines(c: Config, s: State, step: Step, l: Ledger)
    requires Sound(c, s) && Enabled(c, s, step) && Refines(c, s, l)
    ensures Refines(c, Next(c, s, step), Effect(c, s, step, l))
  {
    match step
    case Oversize(_) => DropRefines(c, s, step, l);
    case Refuse(_) => DropRefines(c, s, step, l);
    case Hit(id) => HitRefines(c, s, id, l);
    case Insert(id) => InsertRefines(c, s, id, l);
    case Reserve(id) => if s.count < c.max { ReserveRefines(c, s, id, l); } else { QuietRefines(c, s, step, l); }
    case Spawn(_) => QuietRefines(c, s, step, l);
    case Count(_) => QuietRefines(c, s, step, l);
    case Lock(_) => QuietRefines(c, s, step, l);
    case Miss(_) => QuietRefines(c, s, step, l);
  }

  // -- whole runs --------------------------------------------------------------------------------

  ghost predicate Executable(c: Config, s: State, steps: seq<Step>)
    decreases |steps|
  {
    steps == [] || (Enabled(c, s, steps[0]) && Executable(c, Next(c, s, steps[0]), steps[1..]))
  }

  ghost function Final(c: Config, s: State, steps: seq<Step>): State
    requires Executable(c, s, steps)
    decreases |steps|
  {
    if steps == [] then s else Final(c, Next(c, s, steps[0]), steps[1..])
  }

  predicate HasSettled(r: Recorder) {
    r.phase == Reserved || r.phase == Done
  }

  predicate InFlight(r: Recorder) {
    r.phase == Counted || r.phase == Locked || r.phase == Missed || r.phase == Full
  }

  ghost function CountIf(rs: seq<Recorder>, p: Recorder -> bool): nat {
    if rs == [] then 0 else CountIf(rs[..|rs| - 1], p) + (if p(rs[|rs| - 1]) then 1 else 0)
  }

  /** Requests already in the total whose observation has not taken effect yet. */
  ghost function InFlightOf(rs: seq<Recorder>): nat {
    CountIf(rs, InFlight)
  }

  /** Recorders between their reservation and their insert. */
  ghost function ReservedOf(rs: seq<Recorder>): nat {
    CountIf(rs, (r: Recorder) => r.phase == Reserved)
  }

  lemma {:induction false} CountIfMoved(rs: seq<Recorder>, id: nat, phase: Phase, p: Recorder -> bool)
    requires id < |rs|
    ensures CountIf(Moved(rs, id, phase), p) ==
      CountIf(rs, p) - (if p(rs[id]) then 1 else 0) + (if p(rs[id].(phase := phase)) then 1 else 0)
    decreases |rs|
  {
    var n := |rs| - 1;
    if id < n {
      assert Moved(rs, id, phase)[..n] == Moved(rs[..n], id, phase);
      CountIfMoved(rs[..n], id, phase, p);
    } else {
      assert Moved(rs, id, phase)[..n] == rs[..n];
    }
  }

  /** How many recorders' observations equal to `o` have taken effect. */
  ghost function SettledOf(rs: seq<Recorder>, o: Observation): nat {
    CountIf(rs, (r: Recorder) => HasSettled(r) && r.o == o)
  }

  lemma SettledMoved(rs: seq<Recorder>, id: nat, phase: Phase, o: Observation)
    requires id < |rs|
    ensures SettledOf(Moved(rs, id, phase), o) == SettledOf(rs, o)
      + (if rs[id].o == o && HasSettled(rs[id].(phase := phase)) then 1 else 0)
      - (if rs[id].o == o && HasSettled(rs[id]) then 1 else 0)
  {
    CountIfMoved(rs, id, phase, (r: Recorder) => HasSettled(r) && r.o == o);
  }

  /** `settled` lists, in order of effect, the observations that have taken effect. */
  ghost predicate Explains(c: Config, s: State, settled: seq<Observation>) {
    && Sound(c, s) && Refines(c, s, Replay(c.max, settled))
    && Tallied(s.recorders, settled, s.total)
    && Placed(c, s)
  }

  ghost predicate Tallied(rs: seq<Recorder>, settled: seq<Observation>, total: nat) {
    (forall o :: multiset(settled)[o] == SettledOf(rs, o)) && total == Clamp(|settled| + InFlightOf(rs))
  }

  ghost function Extended(c: Config, s: State, step: Step, settled: seq<Observation>): seq<Observation>
    requires Enabled(c, s, step)
  {
    if TakesEffect(c, s, step) then settled + [s.recorders[Id(step)].o] else settled
  }

  lemma SpawnCounts(rs: seq<Recorder>, o: Observation)
    ensures forall x :: SettledOf(rs + [Recorder(o, Arrived)], x) == SettledOf(rs, x)
    ensures InFlightOf(rs + [Recorder(o, Arrived)]) == InFlightOf(rs)
      && ReservedOf(rs + [Recorder(o, Arrived)]) == ReservedOf(rs)
  {
    assert (rs + [Recorder(o, Arrived)])[..|rs|] == rs;
  }

  /** A recorder takes effect: one fewer in flight, one more settled. */
  lemma EffectTallied(rs: seq<Recorder>, id: nat, phase: Phase, settled: seq<Observation>, total: nat)
    requires Tallied(rs, settled, total) && id < |rs| && InFlight(rs[id]) && (phase == Reserved || phase == Done)
    ensures Tallied(Moved(rs, id, phase), settled + [rs[id].o], total)
  {
    CountIfMoved(rs, id, phase, InFlight);
    forall o { SettledMoved(rs, id, phase, o); }
  }

  /** A recorder goes on without taking effect; `counted` says whether it enters the total. */
  lemma MoveTallied(rs: seq<Recorder>, id: nat, phase: Phase, settled: seq<Observation>, total: nat)
    requires Tallied(rs, settled, total) && id < |rs|
    requires
      || rs[id].phase == Arrived
      || (InFlight(rs[id]) && InFlight(rs[id].(phase := phase)))
      || (rs[id].phase == Reserved && phase == Done)
    requires rs[id].phase == Arrived ==> phase == Counted
    ensures Tallied(Moved(rs, id, phase), settled, if rs[id].phase == Arrived then SaturatingAdd(total, 1) else total)
  {
    CountIfMoved(rs, id, phase, InFlight);
    forall o { SettledMoved(rs, id, phase, o); }
  }

  lemma StepTallied(c: Config, s: State, step: Step, settled: seq<Observation>)
    requires Enabled(c, s, step) && Tallied(s.recorders, settled, s.total)
    ensures Tallied(Next(c, s, step).recorders, Extended(c, s, step, settled), Next(c, s, step).total)
  {
    var t := Next(c, s, step);
    if step.Spawn? { SpawnCounts(s.recorders, step.o); }
    else if TakesEffect(c, s, step) {
      EffectTallied(s.recorders, Id(step), t.recorders[Id(step)].phase, settled, s.total);
    }
    else { MoveTallied(s.recorders, Id(step), t.recorders[Id(step)].phase, settled, s.total); }
  }

  lemma ReplayLonger(max: nat, settled: seq<Observation>, o: Observation)
    ensures Replay(max, settled + [o]) == Settle(Replay(max, settled), max, o)
  {
    assert (settled + [o])[..|settled|] == settled;
  }

  /** The counter is the number of stored series plus the reservations not yet inserted. */
  ghost predicate Placed(c: Config, s: State)
    requires AtHome(c.hash, s.shards)
  {
    s.count == |Merged(c.hash, s.shards)| + ReservedOf(s.recorders)
  }

  lemma StepPlaced(c: Config, s: State, step: Step)
    requires Sound(c, s) && Enabled(c, s, step) && Sound(c, Next(c, s, step)) && Placed(c, s)
    ensures Placed(c, Next(c, s, step))
  {
    var t := Next(c, s, step);
    if step.Spawn? { SpawnCounts(s.recorders, step.o); }
    else {
      var r := s.recorders[Id(step)];
      CountIfMoved(s.recorders, Id(step), t.recorders[Id(step)].phase, (x: Recorder) => x.phase == Reserved);
      if step.Hit? || step.Insert? {
        assert Inside(c, s, Id(step));
        MergedAt(c.hash, s.shards, r.o.key);
        MergedWrite(c.hash, s.shards, r.o.key, t.shards[ShardOf(c, r)][r.o.key]);
      }
    }
  }

  lemma StepExplained(c: Config, s: State, step: Step, settled: seq<Observation>)
    requires Enabled(c, s, step) && Explains(c, s, settled)
    ensures Explains(c, Next(c, s, step), Extended(c, s, step, settled))
  {
    SoundNext(c, s, step);
    StepRefines(c, s, step, Replay(c.max, settled));
    StepTallied(c, s, step, settled);
    StepPlaced(c, s, step);
    if TakesEffect(c, s, step) { ReplayLonger(c.max, settled, s.recorders[Id(step)].o); }
  }

  /**
   * Refinement over whole runs: whatever the interleaving, some order of the observations that
   * took effect, played one at a time on the single bounded map, gives the registry's contents.
   */
  lemma {:induction false} RunRefines(c: Config, s: State, steps: seq<Step>, settled: seq<Observation>)
    returns (longer: seq<Observation>)
    requires Executable(c, s, steps) && Explains(c, s, settled)
    ensures Explains(c, Final(c, s, steps), longer) && settled <= longer
    decreases |steps|
  {
    if steps == [] {
      longer := settled;
    } else {
      StepExplained(c, s, steps[0], settled);
      longer := RunRefines(c, Next(c, s, steps[0]), steps[1..], Extended(c, s, steps[0], settled));
    }
  }

  lemma InitialExplained(c: Config)
    ensures Explains(c, INITIAL, [])
  {
    assert Merged(c.hash, INITIAL.shards) == map[];
  }

  /** The total of a reachable registry accounts for every series, drop and request in flight. */
  lemma Accounting(c: Config, steps: seq<Step>) returns (settled: seq<Observation>)
    requires Executable(c, INITIAL, steps)
    ensures var s := Final(c, INITIAL, steps); var l := Replay(c.max, settled);
            && Explains(c, s, settled)
            && s.total == SaturatingAdd(Accounted(l), InFlightOf(s.recorders)) && l.dropped == s.dropped
  {
    InitialExplained(c);
    settled := RunRefines(c, INITIAL, steps, []);
    ReplayConserves(c.max, settled);
  }

  /** Once every recorder is done, the shards hold exactly the single map. */
  lemma QuiescentMap(c: Config, s: State, m: map<Key, Stats>)
    requires Sound(c, s) && Represents(c, s, m) && forall i :: 0 <= i < |s.recorders| ==> s.recorders[i].phase == Done
    ensures Merged(c.hash, s.shards) == m
  {
    forall k ensures k in Merged(c.hash, s.shards) <==> k in m {
      MergedAt(c.hash, s.shards, k);
      if k in m { assert Known(c, s, k); }
    }
    forall k | k in m ensures Merged(c.hash, s.shards)[k] == m[k] { MergedAt(c.hash, s.shards, k); }
  }

  lemma {:induction false} CountNone(rs: seq<Recorder>, p: Recorder -> bool)
    requires forall i :: 0 <= i < |rs| ==> !p(rs[i])
    ensures CountIf(rs, p) == 0
    decreases |rs|
  {
    if rs != [] { CountNone(rs[..|rs| - 1], p); }
  }

  /**
   * When every call has returned, shards, counter, drops and total are those of the single bounded
   * map after the same observations in some order.
   */
  lemma QuiescentRun(c: Config, steps: seq<Step>) returns (settled: seq<Observation>)
    requires Executable(c, INITIAL, steps)
    requires forall i :: 0 <= i < |Final(c, INITIAL, steps).recorders| ==>
      Final(c, INITIAL, steps).recorders[i].phase == Done
    ensures var s := Final(c, INITIAL, steps);
            && Sound(c, s) && Ledger(Merged(c.hash, s.shards), s.dropped) == Replay(c.max, settled)
            && s.count == |Merged(c.hash, s.shards)| && s.total == Accounted(Replay(c.max, settled))
            && (forall o :: multiset(settled)[o] == SettledOf(s.recorders, o))
  {
    var s := Final(c, INITIAL, steps);
    settled := Accounting(c, steps);
    QuiescentMap(c, s, Replay(c.max, settled).series);
    CountNone(s.recorders, InFlight);
    CountNone(s.recorders, (r: Recorder) => r.phase == Reserved);
  }
}
