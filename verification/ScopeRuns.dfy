/**
 * Any number of `materialize` calls interleaved over one scope cache with a ticking clock and
 * invalidations. A call is three atomic steps: look in the cache, ask the source, store the answer.
 * The log records what the source answered and when an invalidation happened.
 */
module ScopeRuns {
  import opened Sorting
  import opened Text
  import opened ScopeKeys
  import opened ScopeCache

  /** What happened at the source and at the invalidation interface, in order. */
  datatype Event = Resolved(subject: Subject, answer: Answer, at: nat) | Invalidated(prefix: string)

  datatype Phase =
    | Started
    | Missing                                             // no live entry; about to ask the source
    | Answered(answer: Answer, origin: nat)               // the source answered, as event `origin`
    | Finished(outcome: Outcome, source: Option<Proof>)   // `source` when the outcome is the source's scope

  /** Which resolution a served scope is, when it was cached, and when it was served. */
  datatype Proof = Proof(origin: nat, cachedAt: nat, servedAt: nat)

  datatype Call = Call(subject: Subject, credential: Scope, phase: Phase)

  datatype Birth = Birth(origin: nat, cachedAt: nat)

  datatype State = State(
    now: nat,
    entries: Entries<Option<Scope>>,
    births: map<string, Birth>,      // which resolution each cached value is
    log: seq<Event>,
    calls: seq<Call>)

  datatype Config = Config(ttl: nat, fallback: Fallback)

  datatype Step =
    | Tick(d: nat)
    | Spawn(subject: Subject, credential: Scope)
    | Get(id: nat)
    | Resolve(id: nat, answer: Answer)
    | Put(id: nat)
    | Invalidate(prefix: string)

  const INITIAL := State(0, map[], map[], [], [])

  ghost predicate Enabled(s: State, step: Step) {
    match step
    case Tick(_) => true
    case Spawn(_, _) => true
    case Get(id) => id < |s.calls| && s.calls[id].phase == Started
    case Resolve(id, _) => id < |s.calls| && s.calls[id].phase == Missing
    case Put(id) => id < |s.calls| && s.calls[id].phase.Answered?
    case Invalidate(_) => true
  }

  function Moved(calls: seq<Call>, id: nat, phase: Phase): seq<Call>
    requires id < |calls|
  {
    calls[id := calls[id].(phase := phase)]
  }

  function ProofOf(value: Option<Scope>, origin: nat, cachedAt: nat, now: nat): Option<Proof> {
    if value.Some? then Some(Proof(origin, cachedAt, now)) else None
  }

  function BirthOf(s: State, key: string): Birth {
    if key in s.births then s.births[key] else Birth(0, 0)
  }

  ghost function Next(c: Config, s: State, step: Step): State
    requires Enabled(s, step)
  {
    match step
    case Tick(d) => s.(now := s.now + d)
    case Spawn(subject, credential) => s.(calls := s.calls + [Call(subject, credential, Started)])
    case Get(id) =>
      var call := s.calls[id];
      var key := CacheKey(call.subject);
      s.(entries := AfterLookup(s.entries, key, s.now),
         calls := Moved(s.calls, id,
           if Live(s.entries, key, s.now)
           then Finished(Served(c.fallback, call.credential, s.entries[key].value),
                         ProofOf(s.entries[key].value, BirthOf(s, key).origin, BirthOf(s, key).cachedAt, s.now))
           else Missing))
    case Resolve(id, answer) =>
      s.(log := s.log + [Resolved(s.calls[id].subject, answer, s.now)],
         calls := Moved(s.calls, id,
                         if answer == Broken then Finished(SourceError, None) else Answered(answer, |s.log|)))
    case Put(id) =>
      var call := s.calls[id];
      var key := CacheKey(call.subject);
      s.(entries := AfterInsert(s.entries, key, Cached(call.phase.answer), s.now, c.ttl),
         births := s.births[key := Birth(call.phase.origin, s.now)],
         calls := Moved(s.calls, id,
           Finished(Served(c.fallback, call.credential, Cached(call.phase.answer)),
                    ProofOf(Cached(call.phase.answer), call.phase.origin, s.now, s.now))))
    case Invalidate(prefix) => s.(entries := AfterInvalidate(s.entries, prefix), log := s.log + [Invalidated(prefix)])
  }

  /** The event behind a cached value or a resolved call: an answer for a subject with this key. */
  ghost predicate Backed(s: State, key: string, value: Option<Scope>, origin: nat) {
    && origin < |s.log| && s.log[origin].Resolved? && CacheKey(s.log[origin].subject) == key
    && s.log[origin].answer != Broken && Cached(s.log[origin].answer) == value
  }

  ghost predicate EntryBacked(c: Config, s: State, key: string)
    requires key in s.entries
  {
    && key in s.births && Backed(s, key, s.entries[key].value, s.births[key].origin)
    && s.log[s.births[key].origin].at <= s.births[key].cachedAt <= s.now
    && s.entries[key].expiresAt == s.births[key].cachedAt + c.ttl
  }

  /** The source has given the answer for a subject with the key. */
  ghost predicate Said(s: State, key: string, answer: Answer) {
    exists i :: 0 <= i < |s.log| && SaidAt(s.log, i, key, answer)
  }

  ghost predicate SaidAt(log: seq<Event>, i: int, key: string, answer: Answer)
    requires 0 <= i < |log|
  {
    log[i].Resolved? && CacheKey(log[i].subject) == key && log[i].answer == answer
  }

  /** A finished call either shows the source's scope for its key, cached less than one TTL ago, or fell back. */
  ghost predicate CallBacked(c: Config, s: State, call: Call) {
    match call.phase
    case Started => true
    case Missing => true
    case Answered(answer, origin) =>
      origin < |s.log| && s.log[origin].Resolved? && s.log[origin].subject == call.subject
      && s.log[origin].answer == answer != Broken && s.log[origin].at <= s.now
    case Finished(outcome, None) =>
      if outcome == SourceError then Said(s, CacheKey(call.subject), Broken)
      else Said(s, CacheKey(call.subject), NoRecord) && outcome == ApplyFallback(c.fallback, call.credential)
    case Finished(outcome, Some(p)) =>
      && outcome.Granted? && Backed(s, CacheKey(call.subject), Some(outcome.scope), p.origin)
      && s.log[p.origin].at <= p.cachedAt <= p.servedAt <= s.now
      && ((p.servedAt == p.cachedAt && s.log[p.origin].subject == call.subject) || p.servedAt < p.cachedAt + c.ttl)
  }

  ghost predicate Coherent(c: Config, s: State) {
    && (forall k :: k in s.entries ==> EntryBacked(c, s, k))
    && (forall i :: 0 <= i < |s.calls| ==> CallBacked(c, s, s.calls[i]))
  }

  /** Logs only grow and clocks only advance, so what was backed stays backed. */
  ghost predicate Later(s: State, t: State) {
    s.now <= t.now && s.log <= t.log
  }

  lemma CallStays(c: Config, s: State, t: State, call: Call)
    requires Later(s, t) && CallBacked(c, s, call)
    ensures CallBacked(c, t, call)
  {
    forall key, answer, i | 0 <= i < |s.log| && SaidAt(s.log, i, key, answer) ensures Said(t, key, answer) {
      assert SaidAt(t.log, i, key, answer);
    }
  }

  lemma EntryStays(c: Config, s: State, t: State, key: string)
    requires Later(s, t) && key in s.entries && EntryBacked(c, s, key)
    requires key in t.entries && t.entries[key] == s.entries[key] && key in t.births && t.births[key] == s.births[key]
    ensures EntryBacked(c, t, key)
  {
  }

  lemma MoverBacked(c: Config, s: State, step: Step)
    requires Coherent(c, s) && Enabled(s, step) && (step.Get? || step.Resolve? || step.Put?)
    ensures CallBacked(c, Next(c, s, step), Next(c, s, step).calls[step.id])
  {
    var key := CacheKey(s.calls[step.id].subject);
    var t := Next(c, s, step);
    assert CallBacked(c, s, s.calls[step.id]);
    if step.Get? && Live(s.entries, key, s.now) {
      assert EntryBacked(c, s, key);
      var origin := s.births[key].origin;
      assert s.entries[key].value.None? ==> SaidAt(t.log, origin, key, NoRecord);
    } else if step.Resolve? {
      assert SaidAt(t.log, |s.log|, key, step.answer);
    } else if step.Put? {
      var origin := s.calls[step.id].phase.origin;
      assert SaidAt(t.log, origin, key, s.calls[step.id].phase.answer);
    }
  }

  lemma EntriesKept(c: Config, s: State, step: Step, k: string)
    requires Coherent(c, s) && Enabled(s, step) && k in Next(c, s, step).entries
    ensures EntryBacked(c, Next(c, s, step), k)
  {
    var t := Next(c, s, step);
    if step.Put? && k == CacheKey(s.calls[step.id].subject) {
      assert CallBacked(c, s, s.calls[step.id]);
    } else {
      assert EntryBacked(c, s, k);
      EntryStays(c, s, t, k);
    }
  }

  lemma CoherentNext(c: Config, s: State, step: Step)
    requires Coherent(c, s) && Enabled(s, step)
    ensures Coherent(c, Next(c, s, step))
  {
    var t := Next(c, s, step);
    forall k | k in t.entries ensures EntryBacked(c, t, k) { EntriesKept(c, s, step, k); }
    forall i | 0 <= i < |t.calls| ensures CallBacked(c, t, t.calls[i]) {
      if (step.Get? || step.Resolve? || step.Put?) && i == step.id { MoverBacked(c, s, step); }
      else if i < |s.calls| { CallStays(c, s, t, s.calls[i]); }
    }
  }

  ghost predicate Executable(c: Config, s: State, steps: seq<Step>)
    decreases |steps|
  {
    steps == [] || (Enabled(s, steps[0]) && Executable(c, Next(c, s, steps[0]), steps[1..]))
  }

  ghost function Final(c: Config, s: State, steps: seq<Step>): State
    requires Executable(c, s, steps)
    decreases |steps|
  {
    if steps == [] then s else Final(c, Next(c, s, steps[0]), steps[1..])
  }

  lemma {:induction false} CoherentFinal(c: Config, s: State, steps: seq<Step>)
    requires Coherent(c, s) && Executable(c, s, steps)
    ensures Coherent(c, Final(c, s, steps))
    decreases |steps|
  {
    if steps != [] {
      CoherentNext(c, s, steps[0]);
      CoherentFinal(c, Next(c, s, steps[0]), steps[1..]);
    }
  }

  lemma {:induction false} RunLonger(c: Config, s: State, steps: seq<Step>, step: Step)
    requires Executable(c, s, steps) && Enabled(Final(c, s, steps), step)
    ensures Executable(c, s, steps + [step]) && Final(c, s, steps + [step]) == Next(c, Final(c, s, steps), step)
    decreases |steps|
  {
    var longer := steps + [step];
    if steps == [] {
      assert longer == [step] && longer[1..] == [];
    } else {
      assert longer[0] == steps[0] && longer[1..] == steps[1..] + [step];
      RunLonger(c, Next(c, s, steps[0]), steps[1..], step);
    }
  }

  // -- what a granted scope is ---------------------------------------------------------------------

  /**
   * The source gave this scope for `resolved`, a subject with the caller's key; it was served by the
   * call that resolved it, or from the cache less than one TTL after it was stored.
   */
  ghost predicate FromSource(c: Config, s: State, caller: Subject, resolved: Subject, scope: Scope, p: Proof) {
    && p.origin < |s.log| && s.log[p.origin].Resolved?
    && s.log[p.origin].subject == resolved && s.log[p.origin].answer == Known(scope)
    && CacheKey(resolved) == CacheKey(caller)
    && s.log[p.origin].at <= p.cachedAt <= p.servedAt
    && ((p.servedAt == p.cachedAt && resolved == caller) || p.servedAt < p.cachedAt + c.ttl)
  }

  /** The subjects of the run's calls. */
  ghost function Callers(steps: seq<Step>): iset<Subject> {
    iset i | 0 <= i < |steps| && steps[i].Spawn? :: steps[i].subject
  }

  ghost predicate OnlyAbout(s: State, subjects: iset<Subject>) {
    && (forall i :: 0 <= i < |s.log| && s.log[i].Resolved? ==> s.log[i].subject in subjects)
    && (forall i :: 0 <= i < |s.calls| ==> s.calls[i].subject in subjects)
  }

  lemma {:induction false} OnlyCallers(c: Config, s: State, steps: seq<Step>, subjects: iset<Subject>)
    requires OnlyAbout(s, subjects) && Executable(c, s, steps) && Callers(steps) <= subjects
    ensures OnlyAbout(Final(c, s, steps), subjects)
    decreases |steps|
  {
    if steps != [] {
      assert steps[0].Spawn? ==> steps[0].subject in Callers(steps);
      forall u | u in Callers(steps[1..]) ensures u in subjects {
        var i :| 0 <= i < |steps[1..]| && steps[1..][i].Spawn? && steps[1..][i].subject == u;
        assert steps[i + 1].subject in Callers(steps);
      }
      OnlyCallers(c, Next(c, s, steps[0]), steps[1..], subjects);
    }
  }

  /**
   * In every run a granted scope is the source's answer for one of the run's callers with the same
   * key, served less than one TTL after it was cached, or the credential's scope under the claims
   * fallback; under `Deny` it is never the credential's.
   */
  lemma GrantedFromSource(c: Config, steps: seq<Step>, id: nat)
    requires Executable(c, INITIAL, steps) && id < |Final(c, INITIAL, steps).calls|
    requires Final(c, INITIAL, steps).calls[id].phase.Finished?
    requires Final(c, INITIAL, steps).calls[id].phase.outcome.Granted?
    ensures var s := Final(c, INITIAL, steps);
            var call := s.calls[id];
            if call.phase.source.None? then
              c.fallback == CredentialClaims && call.phase.outcome.scope == call.credential
            else
              exists u ::
                && u in Callers(steps)
                && FromSource(c, s, call.subject, u, call.phase.outcome.scope, call.phase.source.value)
  {
    CoherentFinal(c, INITIAL, steps);
    OnlyCallers(c, INITIAL, steps, Callers(steps));
    var s := Final(c, INITIAL, steps);
    var call := s.calls[id];
    assert CallBacked(c, s, call);
    if call.phase.source.Some? {
      var p := call.phase.source.value;
      assert FromSource(c, s, call.subject, s.log[p.origin].subject, call.phase.outcome.scope, p);
    }
  }

  /**
   * In every run a finished call without a scope of the source was told by it that there is no record, for its
   * own key, and then the claims fallback grants the credential's scope and `Deny` grants nothing; or the source
   * was broken.
   */
  lemma FallbackDecides(c: Config, steps: seq<Step>, id: nat)
    requires Executable(c, INITIAL, steps) && id < |Final(c, INITIAL, steps).calls|
    requires Final(c, INITIAL, steps).calls[id].phase.Finished?
    requires Final(c, INITIAL, steps).calls[id].phase.source.None?
    ensures var s := Final(c, INITIAL, steps);
            var call := s.calls[id];
            match call.phase.outcome
            case SourceError => Said(s, CacheKey(call.subject), Broken)
            case Granted(scope) =>
              c.fallback == CredentialClaims && scope == call.credential && Said(s, CacheKey(call.subject), NoRecord)
            case Forbidden => c.fallback == Deny && Said(s, CacheKey(call.subject), NoRecord)
  {
    CoherentFinal(c, INITIAL, steps);
    assert CallBacked(c, Final(c, INITIAL, steps), Final(c, INITIAL, steps).calls[id]);
  }

  /** Some run serves the caller a scope that the source gave for `resolved`. */
  ghost predicate CanBeServed(c: Config, caller: Subject, resolved: Subject) {
    exists steps, id: nat :: Executable(c, INITIAL, steps) && ServedIn(Final(c, INITIAL, steps), id, caller, resolved)
  }

  ghost predicate ServedIn(s: State, id: nat, caller: Subject, resolved: Subject) {
    && id < |s.calls| && s.calls[id].subject == caller
    && s.calls[id].phase.Finished? && s.calls[id].phase.source.Some?
    && s.calls[id].phase.source.value.origin < |s.log|
    && s.log[s.calls[id].phase.source.value.origin].Resolved?
    && s.log[s.calls[id].phase.source.value.origin].subject == resolved
  }

  /** The state after one call resolved and stored its scope at time zero. */
  function Cached0(c: Config, subject: Subject, credential: Scope, scope: Scope): State {
    State(0, map[CacheKey(subject) := CacheEntry(Some(scope), c.ttl)], map[CacheKey(subject) := Birth(0, 0)],
          [Resolved(subject, Known(scope), 0)],
          [Call(subject, credential, Finished(Granted(scope), Some(Proof(0, 0, 0))))])
  }

  lemma ResolveRun(c: Config, subject: Subject, credential: Scope, scope: Scope)
    ensures var steps := [Spawn(subject, credential), Get(0), Resolve(0, Known(scope))];
            && Executable(c, INITIAL, steps)
            && Final(c, INITIAL, steps) ==
               State(0, map[], map[], [Resolved(subject, Known(scope), 0)],
                     [Call(subject, credential, Answered(Known(scope), 0))])
  {
    var s1 := Next(c, INITIAL, Spawn(subject, credential));
    assert s1 == State(0, map[], map[], [], [Call(subject, credential, Started)]);
    RunLonger(c, INITIAL, [], Spawn(subject, credential));
    assert [] + [Spawn(subject, credential)] == [Spawn(subject, credential)];
    RunLonger(c, INITIAL, [Spawn(subject, credential)], Get(0));
    assert [Spawn(subject, credential)] + [Get(0)] == [Spawn(subject, credential), Get(0)];
    var s2 := Next(c, s1, Get(0));
    assert s2.entries == map[] && s2.calls == [Call(subject, credential, Missing)];
    RunLonger(c, INITIAL, [Spawn(subject, credential), Get(0)], Resolve(0, Known(scope)));
    assert [Spawn(subject, credential), Get(0)] + [Resolve(0, Known(scope))] ==
        [Spawn(subject, credential), Get(0), Resolve(0, Known(scope))];
  }

  lemma StoreRun(c: Config, subject: Subject, credential: Scope, scope: Scope) returns (steps: seq<Step>)
    ensures Executable(c, INITIAL, steps) && Final(c, INITIAL, steps) == Cached0(c, subject, credential, scope)
  {
    var before := [Spawn(subject, credential), Get(0), Resolve(0, Known(scope))];
    ResolveRun(c, subject, credential, scope);
    RunLonger(c, INITIAL, before, Put(0));
    steps := before + [Put(0)];
    assert Final(c, INITIAL, steps).calls == Cached0(c, subject, credential, scope).calls;
  }

  /** A second caller with the same key finds the entry. */
  lemma HitRun(c: Config, s: State, steps: seq<Step>, caller: Subject, credential: Scope, scope: Scope)
    requires Executable(c, INITIAL, steps) && Final(c, INITIAL, steps) == s && |s.calls| == 1 && c.ttl > 0 && s.now == 0
    requires CacheKey(caller) in s.entries && s.entries[CacheKey(caller)] == CacheEntry(Some(scope), c.ttl)
    requires CacheKey(caller) in s.births && s.births[CacheKey(caller)] == Birth(0, 0)
    ensures var longer := steps + [Spawn(caller, credential)] + [Get(1)];
            && Executable(c, INITIAL, longer) && Final(c, INITIAL, longer).log == s.log
            && Final(c, INITIAL, longer).entries == s.entries && Final(c, INITIAL, longer).births == s.births
            && Final(c, INITIAL, longer).calls ==
               s.calls + [Call(caller, credential, Finished(Granted(scope), Some(Proof(0, 0, 0))))]
  {
    RunLonger(c, INITIAL, steps, Spawn(caller, credential));
    RunLonger(c, INITIAL, steps + [Spawn(caller, credential)], Get(1));
  }

  lemma Confused(c: Config, caller: Subject, resolved: Subject)
    requires CacheKey(caller) == CacheKey(resolved) && (caller == resolved || c.ttl > 0)
    ensures CanBeServed(c, caller, resolved)
  {
    var scope := Scope([], [], None);
    var steps := StoreRun(c, resolved, scope, scope);
    if caller == resolved {
      assert ServedIn(Final(c, INITIAL, steps), 0, caller, resolved);
    } else {
      HitRun(c, Cached0(c, resolved, scope, scope), steps, caller, scope, scope);
      var longer := steps + [Spawn(caller, scope)] + [Get(1)];
      assert ServedIn(Final(c, INITIAL, longer), 1, caller, resolved);
    }
  }

  /** Over all runs: a caller can be served exactly the scopes of the subjects that share its key. */
  lemma ServedExactly(c: Config, caller: Subject, resolved: Subject)
    ensures CanBeServed(c, caller, resolved) <==>
      CacheKey(caller) == CacheKey(resolved) && (caller == resolved || c.ttl > 0)
  {
    if CanBeServed(c, caller, resolved) {
      var steps, id: nat :| Executable(c, INITIAL, steps) && ServedIn(Final(c, INITIAL, steps), id, caller, resolved);
      CoherentFinal(c, INITIAL, steps);
      var s := Final(c, INITIAL, steps);
      assert Coherent(c, s);
      assert CallBacked(c, s, s.calls[id]);
    }
    if CacheKey(caller) == CacheKey(resolved) && (caller == resolved || c.ttl > 0) { Confused(c, caller, resolved); }
  }

  /**
   * With caching on, no run ever serves a caller another subject's scope exactly when no field has a bar
   * and no optional shows as a dash.
   */
  lemma ServedOwnExactly(c: Config, caller: Subject)
    requires c.ttl > 0
    ensures (forall u :: CanBeServed(c, caller, u) ==> u == caller) <==> Separable(caller) && Dashless(caller)
  {
    KeyIsAloneExactly(caller);
    forall u ensures CanBeServed(c, caller, u) <==> CacheKey(u) == CacheKey(caller) { ServedExactly(c, caller, u); }
  }

  // -- invalidation against answers in flight ---------------------------------------------------

  /** A matching invalidation came after this resolution. */
  ghost predicate Superseded(log: seq<Event>, key: string, origin: nat) {
    exists j :: origin < j < |log| && log[j].Invalidated? && StartsWith(key, log[j].prefix)
  }

  /** Nothing in the cache was resolved before an invalidation that covers it. */
  ghost predicate Current(s: State) {
    forall k :: k in s.entries && k in s.births ==> !Superseded(s.log, k, s.births[k].origin)
  }

  /** A call stores an answer that an invalidation has overtaken. */
  ghost predicate StoresStale(s: State, step: Step)
    requires Enabled(s, step)
  {
    step.Put? && Superseded(s.log, CacheKey(s.calls[step.id].subject), s.calls[step.id].phase.origin)
  }

  lemma SupersededLonger(log: seq<Event>, e: Event, key: string, origin: nat)
    requires origin < |log|
    ensures Superseded(log + [e], key, origin) <==>
      Superseded(log, key, origin) || (e.Invalidated? && StartsWith(key, e.prefix))
  {
    var longer := log + [e];
    if Superseded(log, key, origin) {
      var j :| origin < j < |log| && log[j].Invalidated? && StartsWith(key, log[j].prefix);
      assert longer[j] == log[j];
    }
    if e.Invalidated? && StartsWith(key, e.prefix) { assert longer[|log|] == e; }
  }

  /** The exact condition, step by step: the cache stays current unless an overtaken answer is stored. */
  lemma StepCurrent(c: Config, s: State, step: Step)
    requires Coherent(c, s) && Current(s) && Enabled(s, step)
    ensures Current(Next(c, s, step)) <==> !StoresStale(s, step)
  {
    var t := Next(c, s, step);
    if step.Put? {
      var key := CacheKey(s.calls[step.id].subject);
      assert key in t.entries && t.births[key].origin == s.calls[step.id].phase.origin;
    } else {
      forall k | k in t.entries && k in t.births ensures !Superseded(t.log, k, t.births[k].origin) {
        assert EntryBacked(c, s, k);
        if step.Resolve? {
          SupersededLonger(s.log, Resolved(s.calls[step.id].subject, step.answer, s.now), k, s.births[k].origin);
        }
        if step.Invalidate? { SupersededLonger(s.log, Invalidated(step.prefix), k, s.births[k].origin); }
      }
    }
  }

  ghost predicate CurrentThroughout(c: Config, s: State, steps: seq<Step>)
    requires Executable(c, s, steps)
    decreases |steps|
  {
    Current(s) && (steps == [] || CurrentThroughout(c, Next(c, s, steps[0]), steps[1..]))
  }

  ghost predicate NeverStale(c: Config, s: State, steps: seq<Step>)
    requires Executable(c, s, steps)
    decreases |steps|
  {
    steps == [] || (!StoresStale(s, steps[0]) && NeverStale(c, Next(c, s, steps[0]), steps[1..]))
  }

  /** Over whole runs: invalidation is never undone exactly when no overtaken answer is stored. */
  lemma {:induction false} RunCurrent(c: Config, s: State, steps: seq<Step>)
    requires Coherent(c, s) && Current(s) && Executable(c, s, steps)
    ensures CurrentThroughout(c, s, steps) <==> NeverStale(c, s, steps)
    ensures NeverStale(c, s, steps) ==> Current(Final(c, s, steps))
    decreases |steps|
  {
    if steps != [] {
      StepCurrent(c, s, steps[0]);
      CoherentNext(c, s, steps[0]);
      if !StoresStale(s, steps[0]) { RunCurrent(c, Next(c, s, steps[0]), steps[1..]); }
      else { assert !CurrentThroughout(c, Next(c, s, steps[0]), steps[1..]); }
    }
  }

  // -- what later callers are served ------------------------------------------------------------------

  /** This lookup finds a live entry resolved before an invalidation that covers it. */
  ghost predicate HitsStale(s: State, id: nat)
    requires Enabled(s, Get(id))
  {
    var key := CacheKey(s.calls[id].subject);
    Live(s.entries, key, s.now) && key in s.births && Superseded(s.log, key, s.births[key].origin)
  }

  /** Whatever happens next, short of storing another overtaken answer, no lookup is served a stale entry. */
  ghost predicate ServesCurrent(c: Config, s: State) {
    forall more, id: nat :: Executable(c, s, more) && NeverStale(c, s, more) && Enabled(Final(c, s, more), Get(id)) ==>
      !HitsStale(Final(c, s, more), id)
  }

  lemma CurrentServes(c: Config, s: State)
    requires Coherent(c, s) && Current(s)
    ensures ServesCurrent(c, s)
  {
    forall more, id: nat | Executable(c, s, more) && NeverStale(c, s, more) && Enabled(Final(c, s, more), Get(id))
      ensures !HitsStale(Final(c, s, more), id)
    {
      RunCurrent(c, s, more);
    }
  }

  /** A stored answer that was overtaken is served to the next caller with its key. */
  lemma StaleServes(c: Config, s: State, step: Step)
    requires Coherent(c, s) && Enabled(s, step) && StoresStale(s, step) && c.ttl > 0
    ensures !ServesCurrent(c, Next(c, s, step))
  {
    var t := Next(c, s, step);
    var subject, n := s.calls[step.id].subject, |t.calls|;
    var again := Spawn(subject, s.calls[step.id].credential);
    assert [again][1..] == [];
    var u := Next(c, t, again);
    assert u.calls[n].subject == subject && Executable(c, u, []) && NeverStale(c, u, []);
    assert Executable(c, t, [again]) && NeverStale(c, t, [again]) && Final(c, t, [again]) == u;
    assert Live(u.entries, CacheKey(subject), u.now) && u.log == s.log;
    assert HitsStale(u, n);
  }

  /** Step by step: callers go on being served current scopes exactly unless an overtaken answer is stored. */
  lemma StepServesCurrent(c: Config, s: State, step: Step)
    requires Coherent(c, s) && Current(s) && Enabled(s, step) && c.ttl > 0
    ensures ServesCurrent(c, Next(c, s, step)) <==> !StoresStale(s, step)
  {
    CoherentNext(c, s, step);
    StepCurrent(c, s, step);
    if StoresStale(s, step) { StaleServes(c, s, step); } else { CurrentServes(c, Next(c, s, step)); }
  }

  ghost predicate ServesCurrentThroughout(c: Config, s: State, steps: seq<Step>)
    requires Executable(c, s, steps)
    decreases |steps|
  {
    ServesCurrent(c, s) && (steps == [] || ServesCurrentThroughout(c, Next(c, s, steps[0]), steps[1..]))
  }

  /** Over whole runs: no lookup can be served a stale entry exactly when no overtaken answer is stored. */
  lemma {:induction false} RunServesCurrent(c: Config, s: State, steps: seq<Step>)
    requires Coherent(c, s) && Current(s) && Executable(c, s, steps) && c.ttl > 0
    ensures ServesCurrentThroughout(c, s, steps) <==> NeverStale(c, s, steps)
    decreases |steps|
  {
    CurrentServes(c, s);
    if steps != [] {
      StepServesCurrent(c, s, steps[0]);
      StepCurrent(c, s, steps[0]);
      CoherentNext(c, s, steps[0]);
      if !StoresStale(s, steps[0]) { RunServesCurrent(c, Next(c, s, steps[0]), steps[1..]); }
      else { assert !ServesCurrentThroughout(c, Next(c, s, steps[0]), steps[1..]); }
    }
  }

  /**
   * Asking, invalidating the tenant, then storing: a caller who looks up afterwards is served the
   * scope from before the invalidation.
   */
  lemma StaleAfterInvalidation(c: Config, subject: Subject, credential: Scope, scope: Scope)
    requires c.ttl > 0
    ensures var stored := [Spawn(subject, credential), Get(0), Resolve(0, Known(scope))]
                          + [Invalidate(TenantPrefix(subject.tenant))] + [Put(0)];
            var steps := stored + [Spawn(subject, credential)] + [Get(1)];
            && Executable(c, INITIAL, stored) && !Current(Final(c, INITIAL, stored))
            && Executable(c, INITIAL, steps)
            && Final(c, INITIAL, steps).log ==
               [Resolved(subject, Known(scope), 0), Invalidated(TenantPrefix(subject.tenant))]
            && |Final(c, INITIAL, steps).calls| == 2
            && Final(c, INITIAL, steps).calls[1] ==
               Call(subject, credential, Finished(Granted(scope), Some(Proof(0, 0, 0))))
            && Superseded(Final(c, INITIAL, steps).log, CacheKey(subject), 0)
  {
    var key, prefix := CacheKey(subject), TenantPrefix(subject.tenant);
    var asked := [Spawn(subject, credential), Get(0), Resolve(0, Known(scope))];
    ResolveRun(c, subject, credential, scope);
    RunLonger(c, INITIAL, asked, Invalidate(prefix));
    RunLonger(c, INITIAL, asked + [Invalidate(prefix)], Put(0));
    var stored := asked + [Invalidate(prefix)] + [Put(0)];
    var s := Final(c, INITIAL, stored);
    assert s.log == [Resolved(subject, Known(scope), 0), Invalidated(prefix)];
    OwnPrefix(subject);
    assert s.log[1].Invalidated? && StartsWith(key, s.log[1].prefix);
    assert Superseded(s.log, key, 0) && s.births[key].origin == 0;
    HitRun(c, s, stored, subject, credential, scope);
  }

  lemma OwnPrefix(subject: Subject)
    ensures StartsWith(CacheKey(subject), TenantPrefix(subject.tenant))
  {
    var key, f := CacheKey(subject), Fields(subject);
    assert key == subject.tenant + "|" + Join(f[1..]);
    assert [subject.tenant][1..] == [];
    assert Prefix([subject.tenant]) == subject.tenant + "|" + "";
    assert key[..|subject.tenant| + 1] == subject.tenant + "|";
  }
}
