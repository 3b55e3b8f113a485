/**
 * The guard call chain (crates/sdkwork-web-chain/src/chain.rs) with its concurrency stage
 * (crates/sdkwork-web-chain/src/concurrency.rs), as one request runs it.
 *
 * Stages other than the concurrency stage are application code: their verdicts and hook failures
 * are arbitrary inputs (`Script`), and they leave the lease state of the context alone.
 */
module CallChain {
  import opened Sorting
  import opened ChainPolicy
  import opened AdmissionStore

  datatype Stage = Stage(name: string, order: nat)

  /** The concurrency stage is the one with its fixed name; names are unique in a built chain. */
  predicate Leasing(s: Stage) {
    s.name == "concurrency"
  }

  datatype Verdict = Pass | Reject | Fail

  datatype Event = Before(stage: Stage) | After(stage: Stage) | OnError(stage: Stage)

  datatype Outcome = Passed | Rejected | Failed

  datatype Result<+T> = Ok(value: T) | Duplicate(name: string)

  // -- building -----------------------------------------------------------------------------

  /** `(stage_order, name)` ordering. */
  predicate StageLeq(a: Stage, b: Stage) {
    a.order < b.order || (a.order == b.order && StringLeq(a.name, b.name))
  }

  ghost predicate DistinctNames(stages: seq<Stage>) {
    forall i, j :: 0 <= i < j < |stages| ==> stages[i].name != stages[j].name
  }

  lemma StageOrder()
    ensures TotalPreorder(StageLeq)
  {
    forall a: Stage, b: Stage ensures StageLeq(a, b) || StageLeq(b, a) {
      StringTotal(a.name, b.name);
    }
    forall a: Stage, b: Stage, c: Stage | StageLeq(a, b) && StageLeq(b, c) ensures StageLeq(a, c) {
      if a.order == b.order && b.order == c.order { StringTransitive(a.name, b.name, c.name); }
    }
  }

  /** A lower order runs first, and names decide between equal orders. */
  ghost predicate RunsFirst(a: Stage, b: Stage) {
    a.order < b.order || (a.order == b.order && StringBefore(a.name, b.name))
  }

  ghost predicate InRunOrder(stages: seq<Stage>) {
    forall i, j :: 0 <= i < j < |stages| ==> RunsFirst(stages[i], stages[j])
  }

  /** Stages with different names are sorted exactly when they stand in run order. */
  lemma SortedIsRunOrder(stages: seq<Stage>)
    requires DistinctNames(stages)
    ensures Sorted(StageLeq, stages) <==> InRunOrder(stages)
  {
    forall i, j | 0 <= i < j < |stages|
      ensures StageLeq(stages[i], stages[j]) <==> RunsFirst(stages[i], stages[j])
    {
      StringLeqMeaning(stages[i].name, stages[j].name);
    }
    forall i | 0 <= i < |stages| ensures StageLeq(stages[i], stages[i]) {
      StringTotal(stages[i].name, stages[i].name);
    }
  }

  lemma DistinctPermuted(stages: seq<Stage>, permuted: seq<Stage>)
    requires DistinctNames(stages) && multiset(stages) == multiset(permuted)
    ensures DistinctNames(permuted)
  {
    forall i, j | 0 <= i < j < |permuted| ensures permuted[i].name != permuted[j].name {
      if permuted[i].name == permuted[j].name {
        assert permuted[i] in multiset(stages) && permuted[j] in multiset(stages);
        var k :| 0 <= k < |stages| && stages[k] == permuted[i];
        var l :| 0 <= l < |stages| && stages[l] == permuted[j];
        SingleCount(stages, k);
        TwiceIn(permuted, i, j);
      }
    }
  }

  lemma TwiceIn(stages: seq<Stage>, i: nat, j: nat)
    requires i < j < |stages| && stages[i] == stages[j]
    ensures multiset(stages)[stages[i]] >= 2
  {
    assert stages == stages[..j] + stages[j..];
    assert stages[i] in stages[..j] && stages[j] in stages[j..];
  }

  lemma SingleCount(stages: seq<Stage>, k: nat)
    requires DistinctNames(stages) && k < |stages|
    ensures multiset(stages)[stages[k]] == 1
  {
    var p, q := stages[..k], stages[k + 1..];
    assert stages == p + [stages[k]] + q;
    assert stages[k] !in p && stages[k] !in q;
  }

  lemma DistinctNoTies(stages: seq<Stage>)
    requires DistinctNames(stages)
    ensures NoTies(StageLeq, multiset(stages))
  {
    forall x, y | x in multiset(stages) && y in multiset(stages) && StageLeq(x, y) && StageLeq(y, x) ensures x == y {
      StringTotal(x.name, y.name);
      var i :| 0 <= i < |stages| && stages[i] == x;
      var j :| 0 <= j < |stages| && stages[j] == y;
      assert i == j;
    }
  }

  /** `CallChainBuilder::build`: reject duplicate names, then sort. */
  method Build(stages: seq<Stage>) returns (r: Result<seq<Stage>>)
    ensures r.Ok? <==> DistinctNames(stages)
    ensures r.Ok? ==> multiset(r.value) == multiset(stages) && InRunOrder(r.value)
    ensures r.Ok? ==> r.value == Sort(StageLeq, stages)
    ensures r.Duplicate? ==> exists i, j :: 0 <= i < j < |stages| && stages[i].name == stages[j].name == r.name
  {
    var seen: set<string> := {};
    for i := 0 to |stages|
      invariant seen == set j | 0 <= j < i :: stages[j].name
      invariant DistinctNames(stages[..i])
    {
      if stages[i].name in seen {
        return Duplicate(stages[i].name);
      }
      seen := seen + {stages[i].name};
    }
    assert stages[..|stages|] == stages;
    StageOrder();
    SortSorted(StageLeq, stages);
    DistinctPermuted(stages, Sort(StageLeq, stages));
    SortedIsRunOrder(Sort(StageLeq, stages));
    r := Ok(Sort(StageLeq, stages));
  }

  /** Two lists of stages build the same sorted chain exactly when they are permutations of each other. */
  lemma BuildCanonical(stages: seq<Stage>, permuted: seq<Stage>)
    requires DistinctNames(stages)
    ensures Sort(StageLeq, stages) == Sort(StageLeq, permuted) <==> multiset(stages) == multiset(permuted)
    ensures Sorted(StageLeq, Sort(StageLeq, stages)) && InRunOrder(Sort(StageLeq, stages))
  {
    StageOrder();
    DistinctNoTies(stages);
    SortCanonical(StageLeq, stages, permuted);
    SortSorted(StageLeq, stages);
    DistinctPermuted(stages, Sort(StageLeq, stages));
    SortedIsRunOrder(Sort(StageLeq, stages));
  }

  // -- hook sequences -----------------------------------------------------------------------

  /** The stages that take part in a run. */
  function Enabled(stages: seq<Stage>, policy: ResolvedPolicy): (r: seq<Stage>)
    ensures forall s :: s in r <==> s in stages && IsEnabled(policy.stages, s.name)
  {
    if stages == [] then []
    else
      assert stages == [stages[0]] + stages[1..];
      (if IsEnabled(policy.stages, stages[0].name) then [stages[0]] else []) + Enabled(stages[1..], policy)
  }

  lemma {:induction false} EnabledSnoc(stages: seq<Stage>, s: Stage, policy: ResolvedPolicy)
    ensures Enabled(stages + [s], policy) ==
      Enabled(stages, policy) + (if IsEnabled(policy.stages, s.name) then [s] else [])
    decreases |stages|
  {
    var last := if IsEnabled(policy.stages, s.name) then [s] else [];
    if stages == [] {
      assert Enabled([s], policy) == last + Enabled([], policy);
      assert stages + [s] == [s];
    } else {
      var head := if IsEnabled(policy.stages, stages[0].name) then [stages[0]] else [];
      assert (stages + [s])[0] == stages[0] && (stages + [s])[1..] == stages[1..] + [s];
      EnabledSnoc(stages[1..], s, policy);
      assert head + (Enabled(stages[1..], policy) + last) == (head + Enabled(stages[1..], policy)) + last;
    }
  }

  lemma {:induction false} EnabledInOrder(stages: seq<Stage>, policy: ResolvedPolicy)
    requires InRunOrder(stages)
    ensures InRunOrder(Enabled(stages, policy))
    decreases |stages|
  {
    if stages != [] {
      var rest := Enabled(stages[1..], policy);
      EnabledInOrder(stages[1..], policy);
      forall j | 0 <= j < |rest| ensures RunsFirst(stages[0], rest[j]) {
        assert rest[j] in stages[1..];
      }
    }
  }

  /** Before the hook of any stage, every stage of lower order that takes part has had its own. */
  ghost predicate LowerOrdersFirst(stages: seq<Stage>, policy: ResolvedPolicy, trace: seq<Event>) {
    forall q, s ::
      && 0 <= q < |trace| && trace[q].Before?
      && s in stages && IsEnabled(policy.stages, s.name) && s.order < trace[q].stage.order
      ==> Before(s) in trace[..q]
  }

  /** In a trace of hooks in run order, with no such hooks behind them, a stage of lower order has had its own. */
  lemma LowerBefore(on: seq<Stage>, k: nat, rest: seq<Event>, s: Stage, q: nat)
    requires InRunOrder(on) && k <= |on| && forall e :: e in rest ==> !e.Before?
    requires s in on && q < k + |rest|
    ensures var trace := Befores(on[..k]) + rest;
            trace[q].Before? && s.order < trace[q].stage.order ==> Before(s) in trace[..q]
  {
    var trace := Befores(on[..k]) + rest;
    if q < k {
      var p :| 0 <= p < |on| && on[p] == s;
      assert p < q ==> trace[..q][p] == Before(s);
    } else {
      assert trace[q] in rest;
    }
  }

  /** A trace that begins with the hooks of the first `k` enabled stages and goes on without such hooks. */
  lemma LowerFirst(stages: seq<Stage>, policy: ResolvedPolicy, k: nat, rest: seq<Event>)
    requires InRunOrder(stages) && k <= |Enabled(stages, policy)| && forall e :: e in rest ==> !e.Before?
    ensures LowerOrdersFirst(stages, policy, Befores(Enabled(stages, policy)[..k]) + rest)
  {
    var on := Enabled(stages, policy);
    var trace := Befores(on[..k]) + rest;
    EnabledInOrder(stages, policy);
    forall q, s | 0 <= q < |trace| && trace[q].Before?
        && s in stages && IsEnabled(policy.stages, s.name) && s.order < trace[q].stage.order
      ensures Before(s) in trace[..q]
    {
      LowerBefore(on, k, rest, s, q);
    }
  }

  lemma StoppedLowerFirst(stages: seq<Stage>, policy: ResolvedPolicy, failing: bool, trace: seq<Event>)
    requires InRunOrder(stages) && StoppedAtSome(Enabled(stages, policy), failing, trace)
    ensures LowerOrdersFirst(stages, policy, trace)
  {
    var on := Enabled(stages, policy);
    var k: nat :| StoppedAt(on, k, failing, trace);
    LowerFirst(stages, policy, k + 1, Cleanups(Reverse(on[..k]), failing));
  }

  lemma PassedLowerFirst(stages: seq<Stage>, policy: ResolvedPolicy)
    requires InRunOrder(stages)
    ensures LowerOrdersFirst(stages, policy, Befores(Enabled(stages, policy)))
  {
    var on := Enabled(stages, policy);
    LowerFirst(stages, policy, |on|, []);
    assert on[..|on|] == on && Befores(on) + [] == Befores(on);
  }

  /**
   * Which stages take part under the merged policy: those on the whitelist of the most specific layer
   * that has one, and not on the denylist of the most specific layer that has one.
   */
  lemma EnabledUnderLayers(stages: seq<Stage>, defaults: PolicyLayer, global: PolicyLayer, perKey: Option<PolicyLayer>,
                           only: Option<seq<string>>, off: Option<seq<string>>, s: Stage)
    requires FirstSet(Layers(defaults, global, perKey), EnabledOnlyIn, only)
    requires FirstSet(Layers(defaults, global, perKey), DisabledIn, off)
    ensures s in Enabled(stages, Merge(defaults, global, perKey)) <==>
      s in stages && (only.Some? ==> s.name in only.value) && (off.Some? ==> s.name !in off.value)
  {
    var layers, merged := Layers(defaults, global, perKey), Merge(defaults, global, perKey);
    MostSpecificWins(defaults, global, perKey);
    FirstSetUnique(layers, EnabledOnlyIn, only, merged.stages.enabledOnly);
    FirstSetUnique(layers, DisabledIn, off, merged.stages.disabled);
  }

  function Reverse<T>(s: seq<T>): (r: seq<T>)
    ensures |r| == |s|
  {
    if s == [] then [] else [s[|s| - 1]] + Reverse(s[..|s| - 1])
  }

  predicate HasLease(stages: seq<Stage>) {
    exists i :: 0 <= i < |stages| && Leasing(stages[i])
  }

  /** The concurrency stage takes part. */
  ghost predicate Bulkheads(stages: seq<Stage>, policy: ResolvedPolicy) {
    exists s :: s in stages && s.name == "concurrency" && IsEnabled(policy.stages, "concurrency")
  }

  lemma BulkheadLeases(stages: seq<Stage>, policy: ResolvedPolicy)
    ensures HasLease(Enabled(stages, policy)) <==> Bulkheads(stages, policy)
  {
    var on := Enabled(stages, policy);
    if Bulkheads(stages, policy) {
      var s :| s in stages && s.name == "concurrency" && IsEnabled(policy.stages, "concurrency");
      assert s in on && Leasing(s);
    }
    if HasLease(on) {
      var i :| 0 <= i < |on| && Leasing(on[i]);
      assert on[i] in on;
    }
  }

  lemma HasLeaseSnoc(stages: seq<Stage>, s: Stage)
    ensures HasLease(stages + [s]) <==> HasLease(stages) || Leasing(s)
  {
    var longer := stages + [s];
    assert longer[|stages|] == s;
    assert forall i :: 0 <= i < |stages| ==> longer[i] == stages[i];
  }

  function Befores(stages: seq<Stage>): seq<Event> {
    seq(|stages|, i requires 0 <= i < |stages| => Before(stages[i]))
  }

  function Cleanups(stages: seq<Stage>, failing: bool): (r: seq<Event>)
    ensures |r| == |stages|
  {
    seq(|stages|, i requires 0 <= i < |stages| => if failing then OnError(stages[i]) else After(stages[i]))
  }

  lemma EventSnoc(stages: seq<Stage>, s: Stage)
    ensures Befores(stages + [s]) == Befores(stages) + [Before(s)]
    ensures Cleanups(stages + [s], false) == Cleanups(stages, false) + [After(s)]
    ensures Cleanups(stages + [s], true) == Cleanups(stages, true) + [OnError(s)]
  {
  }

  // -- leases -------------------------------------------------------------------------------

  datatype Want = Want(key: string, limit: nat)

  datatype Ids = Ids(apiKey: Option<string>, tenant: Option<string>)

  function ScopeKey(scope: ConcurrencyScope, ids: Ids): Option<string> {
    match scope
    case Global => Some("global:concurrent")
    case ApiKey => if ids.apiKey.Some? then Some("api-key:" + ids.apiKey.value + ":concurrent") else None
    case Tenant => if ids.tenant.Some? then Some("tenant:" + ids.tenant.value + ":concurrent") else None
  }

  function WantOf(scope: ConcurrencyScope, policy: ResolvedPolicy, ids: Ids): Option<Want> {
    if policy.concurrency.None? then None
    else
      var limit, key := LimitFor(policy.concurrency.value, scope), ScopeKey(scope, ids);
      if limit.Some? && key.Some? then Some(Want(key.value, limit.value)) else None
  }

  function ScopeId(scope: ConcurrencyScope, ids: Ids): Option<string> {
    match scope case Global => None case ApiKey => ids.apiKey case Tenant => ids.tenant
  }

  lemma FramedText(head: string, a: string, b: string, tail: string)
    requires head + a + tail == head + b + tail
    ensures a == b
  {
    var x, y := head + a + tail, head + b + tail;
    assert a == x[|head|..|x| - |tail|] && b == y[|head|..|y| - |tail|];
  }

  /** Requests share a lease key exactly when they ask for the same scope with the same id. */
  lemma KeysSeparate(s: ConcurrencyScope, t: ConcurrencyScope, ids: Ids, others: Ids)
    requires ScopeKey(s, ids).Some? && ScopeKey(t, others).Some?
    ensures ScopeKey(s, ids) == ScopeKey(t, others) <==> s == t && ScopeId(s, ids) == ScopeId(t, others)
  {
    var a, b := ScopeKey(s, ids).value, ScopeKey(t, others).value;
    assert s == Global ==> a[0] == 'g';
    assert s == ApiKey ==> a[0] == 'a';
    assert s == Tenant ==> a[0] == 't';
    assert t == Global ==> b[0] == 'g';
    assert t == ApiKey ==> b[0] == 'a';
    assert t == Tenant ==> b[0] == 't';
    if a == b && s == t == ApiKey {
      FramedText("api-key:", ids.apiKey.value, others.apiKey.value, ":concurrent");
    }
    if a == b && s == t == Tenant {
      FramedText("tenant:", ids.tenant.value, others.tenant.value, ":concurrent");
    }
  }

  /**
   * What a scope asks for: nothing without a policy, an id for the scope, and a limit; otherwise the limit
   * set for the scope by its name, and the shared maximum only when there is none.
   */
  lemma WantExactly(scope: ConcurrencyScope, policy: ResolvedPolicy, ids: Ids, name: string, limit: nat)
    requires name == match scope case Global => "global" case ApiKey => "apiKey" case Tenant => "tenant"
    ensures (exists key :: WantOf(scope, policy, ids) == Some(Want(key, limit))) <==>
      && policy.concurrency.Some? && (scope != Global ==> ScopeId(scope, ids).Some?)
      && var c := policy.concurrency.value;
         if c.perScope.Some? && name in c.perScope.value then c.perScope.value[name] == limit
         else c.maxInflight == Some(limit)
  {
    var want := WantOf(scope, policy, ids);
    if want.Some? { assert want == Some(Want(want.value.key, want.value.limit)); }
  }

  /** A lease to ask for, and whether the store will answer. */
  datatype Ask = Ask(want: Want, answered: bool)

  /** The leases a request asks for, in the order of the stage's scopes. */
  function Asks(scopes: seq<ConcurrencyScope>, policy: ResolvedPolicy, ids: Ids,
      reachable: ConcurrencyScope -> bool): seq<Ask> {
    if scopes == [] then []
    else
      var want := WantOf(scopes[0], policy, ids);
      (if want.Some? then [Ask(want.value, reachable(scopes[0]))] else []) + Asks(scopes[1..], policy, ids, reachable)
  }

  lemma {:induction false} NoPolicyAsksNothing(scopes: seq<ConcurrencyScope>, policy: ResolvedPolicy, ids: Ids,
      reachable: ConcurrencyScope -> bool)
    requires policy.concurrency.None?
    ensures Asks(scopes, policy, ids, reachable) == []
    decreases |scopes|
  {
    if scopes != [] { NoPolicyAsksNothing(scopes[1..], policy, ids, reachable); }
  }

  lemma AskNext(scopes: seq<ConcurrencyScope>, policy: ResolvedPolicy, ids: Ids, reachable: ConcurrencyScope -> bool)
    requires scopes != []
    ensures var want := WantOf(scopes[0], policy, ids);
            var rest := Asks(scopes[1..], policy, ids, reachable);
            Asks(scopes, policy, ids, reachable) ==
              if want.None? then rest else [Ask(want.value, reachable(scopes[0]))] + rest
    ensures Asks(scopes, policy, ids, reachable) != [] && WantOf(scopes[0], policy, ids).Some? ==>
      Asks(scopes, policy, ids, reachable)[1..] == Asks(scopes[1..], policy, ids, reachable)
  {
    assert [] + Asks(scopes[1..], policy, ids, reachable) == Asks(scopes[1..], policy, ids, reachable);
  }

  /** What is left of the store and which leases are held after asking: nothing is held after a refusal. */
  datatype Grant = Grant(active: Active, leases: Option<seq<string>>)

  function Granted(active: Active, acquired: seq<string>, asks: seq<Ask>): Grant
    decreases |asks|
  {
    if asks == [] then Grant(active, Some(acquired))
    else
      var w := asks[0].want;
      if !asks[0].answered then Granted(active, acquired, asks[1..])
      else if AcquireOutcome(active, w.key, w.limit) == Acquired
      then Granted(AfterAcquire(active, w.key, w.limit), acquired + [w.key], asks[1..])
      else Grant(AfterReleaseAll(active, acquired), None)
  }

  /** The answered asks for the key under a limit, among the first `n`. */
  function Earlier(asks: seq<Ask>, n: nat, key: string): nat
    requires n <= |asks|
  {
    if n == 0 then 0
    else
      var a := asks[n - 1];
      Earlier(asks, n - 1, key) + if a.answered && a.want.key == key && a.want.limit > 0 then 1 else 0
  }

  /** Below its limit, the earlier asks for its key included, or without one. */
  predicate Fits(active: Active, asks: seq<Ask>, i: nat)
    requires i < |asks|
  {
    var w := asks[i].want;
    w.limit == 0 || Count(active, w.key) + Earlier(asks, i, w.key) < w.limit
  }

  function AnsweredKeys(asks: seq<Ask>): seq<string> {
    if asks == [] then []
    else (if asks[0].answered then [asks[0].want.key] else []) + AnsweredKeys(asks[1..])
  }

  lemma {:induction false} EarlierTail(asks: seq<Ask>, n: nat, key: string)
    requires n < |asks|
    ensures Earlier(asks, n + 1, key) == Earlier(asks[1..], n, key) + Earlier(asks, 1, key)
    decreases n
  {
    if n > 0 { EarlierTail(asks, n - 1, key); }
  }

  lemma FitsTail(active: Active, asks: seq<Ask>, i: nat)
    requires i + 1 < |asks| && (asks[0].answered ==> Fits(active, asks, 0))
    ensures var w := asks[0].want;
            var after := if asks[0].answered then AfterAcquire(active, w.key, w.limit) else active;
            Fits(after, asks[1..], i) <==> Fits(active, asks, i + 1)
  {
    EarlierTail(asks, i, asks[i + 1].want.key);
  }

  ghost predicate AllFit(active: Active, asks: seq<Ask>) {
    forall i :: 0 <= i < |asks| && asks[i].answered ==> Fits(active, asks, i)
  }

  lemma AllFitNext(active: Active, asks: seq<Ask>)
    requires asks != []
    ensures var w := asks[0].want;
            var after := if asks[0].answered then AfterAcquire(active, w.key, w.limit) else active;
            AllFit(active, asks) <==> (asks[0].answered ==> Fits(active, asks, 0)) && AllFit(after, asks[1..])
  {
    var w := asks[0].want;
    var after := if asks[0].answered then AfterAcquire(active, w.key, w.limit) else active;
    if asks[0].answered ==> Fits(active, asks, 0) {
      forall i | 0 <= i < |asks| - 1 ensures Fits(after, asks[1..], i) <==> Fits(active, asks, i + 1) {
        FitsTail(active, asks, i);
      }
      if AllFit(active, asks) {
        forall i | 0 <= i < |asks| - 1 && asks[1..][i].answered ensures Fits(after, asks[1..], i) {
          assert asks[i + 1].answered;
        }
      }
      if AllFit(after, asks[1..]) {
        forall i | 0 <= i < |asks| && asks[i].answered ensures Fits(active, asks, i) {
          if i > 0 { assert asks[1..][i - 1].answered; }
        }
      }
    }
  }

  /** Leases are granted exactly when every ask the store answers fits, and then they are those asks' keys in order. */
  lemma {:induction false} GrantedExactly(active: Active, acquired: seq<string>, asks: seq<Ask>)
    ensures Granted(active, acquired, asks).leases ==
      if AllFit(active, asks) then Some(acquired + AnsweredKeys(asks)) else None
    decreases |asks|
  {
    if asks != [] {
      var w := asks[0].want;
      AllFitNext(active, asks);
      if !asks[0].answered {
        GrantedExactly(active, acquired, asks[1..]);
        assert acquired + AnsweredKeys(asks) == acquired + AnsweredKeys(asks[1..]);
      } else if AcquireOutcome(active, w.key, w.limit) == Acquired {
        GrantedExactly(AfterAcquire(active, w.key, w.limit), acquired + [w.key], asks[1..]);
        assert acquired + AnsweredKeys(asks) == acquired + [w.key] + AnsweredKeys(asks[1..]);
      }
    } else {
      assert acquired + AnsweredKeys(asks) == acquired;
    }
  }

  /** No scope that applies to the request carries the "unlimited" limit zero. */
  ghost predicate PositiveLimits(scopes: seq<ConcurrencyScope>, policy: ResolvedPolicy, ids: Ids) {
    forall s :: s in scopes && WantOf(s, policy, ids).Some? ==> WantOf(s, policy, ids).value.limit > 0
  }

  function HeldKeys(leases: Option<seq<string>>): seq<string> {
    if leases.Some? then leases.value else []
  }

  function Cleaned(active: Active, leases: Option<seq<string>>): Active {
    AfterReleaseAll(active, HeldKeys(leases))
  }

  /** Counts after a set of counted leases was taken on top of `base`. */
  ghost predicate CountsPlus(now: Active, base: Active, leases: seq<string>) {
    forall k :: Count(now, k) == Count(base, k) + multiset(leases)[k]
  }

  lemma CountsReleased(now: Active, base: Active, leases: seq<string>)
    requires CountsPlus(now, base, leases)
    ensures forall k :: Count(AfterReleaseAll(now, leases), k) == Count(base, k)
  {
    forall k ensures Count(AfterReleaseAll(now, leases), k) == Count(base, k) {
      ReleaseAllCounts(now, leases, k);
    }
  }

  ghost predicate AllPositive(asks: seq<Ask>) {
    forall a :: a in asks ==> a.want.limit > 0
  }

  lemma {:induction false} PositiveAsks(scopes: seq<ConcurrencyScope>, policy: ResolvedPolicy, ids: Ids,
      reachable: ConcurrencyScope -> bool)
    requires PositiveLimits(scopes, policy, ids)
    ensures AllPositive(Asks(scopes, policy, ids, reachable))
    decreases |scopes|
  {
    if scopes != [] {
      assert scopes[0] in scopes;
      PositiveAsks(scopes[1..], policy, ids, reachable);
      AskNext(scopes, policy, ids, reachable);
    }
  }

  /** With positive limits the store gains exactly the granted leases, and nothing after a refusal. */
  lemma {:induction false} GrantedCounts(active: Active, acquired: seq<string>, asks: seq<Ask>, base: Active)
    requires CountsPlus(active, base, acquired) && AllPositive(asks)
    ensures var g := Granted(active, acquired, asks); CountsPlus(g.active, base, HeldKeys(g.leases))
    decreases |asks|
  {
    if asks != [] {
      var w := asks[0].want;
      assert asks[0] in asks;
      assert AllPositive(asks[1..]) by { forall a | a in asks[1..] ensures a.want.limit > 0 { assert a in asks; } }
      if !asks[0].answered {
        GrantedCounts(active, acquired, asks[1..], base);
      } else if AcquireOutcome(active, w.key, w.limit) == Acquired {
        GrantedCounts(AfterAcquire(active, w.key, w.limit), acquired + [w.key], asks[1..], base);
      } else {
        CountsReleased(active, base, acquired);
      }
    }
  }

  class Context {
    const policy: ResolvedPolicy
    const ids: Ids
    /** `stage_state`, restricted to `ConcurrencyLeaseState`. */
    var leases: Option<seq<string>>

    constructor (policy: ResolvedPolicy, ids: Ids)
      ensures this.policy == policy && this.ids == ids && leases == None
    {
      this.policy := policy;
      this.ids := ids;
      leases := None;
    }
  }

  /** What application stages answer: a verdict from `before`, and whether `after` fails. */
  datatype Script = Script(verdict: Stage -> Verdict, afterFails: Stage -> bool)

  class Chain {
    const stages: seq<Stage>
    const scopes: seq<ConcurrencyScope>
    const store: Store

    constructor (stages: seq<Stage>, scopes: seq<ConcurrencyScope>, store: Store)
      ensures this.stages == stages && this.scopes == scopes && this.store == store
    {
      this.stages := stages;
      this.scopes := scopes;
      this.store := store;
    }

    /** The loop over the stage's scopes: the keys taken, or nothing after a refusal. */
    method AcquireScopes(concurrency: ConcurrencyPolicy, ctx: Context, reachable: ConcurrencyScope -> bool)
      returns (taken: Option<seq<string>>)
      requires ctx.policy.concurrency == Some(concurrency)
      modifies store
      ensures Grant(store.active, taken) == Granted(old(store.active), [], Asks(scopes, ctx.policy, ctx.ids, reachable))
    {
      var acquired: seq<string> := [];
      assert scopes[0..] == scopes;
      for i := 0 to |scopes|
        invariant Granted(store.active, acquired, Asks(scopes[i..], ctx.policy, ctx.ids, reachable)) ==
                  Granted(old(store.active), [], Asks(scopes, ctx.policy, ctx.ids, reachable))
      {
        assert scopes[i..][0] == scopes[i] && scopes[i..][1..] == scopes[i + 1..];
        AskNext(scopes[i..], ctx.policy, ctx.ids, reachable);
        var limit := LimitFor(concurrency, scopes[i]);
        if limit.None? { continue; }
        var key := ScopeKey(scopes[i], ctx.ids);
        if key.None? { continue; }
        var r := store.TryAcquire(key.value, limit.value, reachable(scopes[i]));
        if r == LimitReached {
          store.ReleaseKeys(acquired);
          return None;
        }
        if r == Unavailable { continue; }
        acquired := acquired + [key.value];
      }
      taken := Some(acquired);
    }

    /** `ConcurrencyStage::before`; `reachable` says for which scopes the store answers. */
    method LeaseBefore(ctx: Context, reachable: ConcurrencyScope -> bool) returns (v: Verdict)
      modifies ctx, store
      ensures v != Fail
      ensures var g := Granted(old(store.active), [], Asks(scopes, ctx.policy, ctx.ids, reachable));
              && store.active == g.active && (v == Pass <==> g.leases.Some?)
              && ctx.leases == if v == Pass then g.leases else old(ctx.leases)
      ensures PositiveLimits(scopes, ctx.policy, ctx.ids) ==>
        CountsPlus(store.active, old(store.active), if v == Pass then HeldKeys(ctx.leases) else [])
    {
      ghost var asks := Asks(scopes, ctx.policy, ctx.ids, reachable);
      if PositiveLimits(scopes, ctx.policy, ctx.ids) {
        PositiveAsks(scopes, ctx.policy, ctx.ids, reachable);
        GrantedCounts(store.active, [], asks, store.active);
      }
      if ctx.policy.concurrency.None? {
        NoPolicyAsksNothing(scopes, ctx.policy, ctx.ids, reachable);
        ctx.leases := Some([]);
        return Pass;
      }
      var taken := AcquireScopes(ctx.policy.concurrency.value, ctx, reachable);
      if taken.None? { return Reject; }
      ctx.leases := taken;
      v := Pass;
    }

    /** `ConcurrencyStage::after` and `on_error`: take the lease state and give every lease back. */
    method LeaseCleanup(ctx: Context)
      modifies ctx, store
      ensures ctx.leases == None
      ensures store.active == Cleaned(old(store.active), old(ctx.leases))
    {
      var taken := ctx.leases;
      ctx.leases := None;
      if taken.Some? { store.ReleaseKeys(taken.value); }
    }

    /** `release_after` and `run_on_error`: cleanup hooks of the started stages, in reverse. */
    method CleanupStarted(started: seq<Stage>, ctx: Context, failing: bool) returns (trace: seq<Event>)
      requires HasLease(started) <==> ctx.leases.Some?
      modifies ctx, store
      ensures trace == Cleanups(Reverse(started), failing)
      ensures ctx.leases == None && store.active == Cleaned(old(store.active), old(ctx.leases))
    {
      trace := [];
      ghost var done: seq<Stage> := [];
      var i := |started|;
      assert started[..i] == started;
      while i > 0
        invariant 0 <= i <= |started|
        invariant done + Reverse(started[..i]) == Reverse(started) && trace == Cleanups(done, failing)
        invariant HasLease(done) ==> ctx.leases == None && store.active == Cleaned(old(store.active), old(ctx.leases))
        invariant !HasLease(done) ==> ctx.leases == old(ctx.leases) && store.active == old(store.active)
      {
        i := i - 1;
        assert started[..i + 1][..i] == started[..i];
        assert done + ([started[i]] + Reverse(started[..i])) == (done + [started[i]]) + Reverse(started[..i]);
        HasLeaseSnoc(done, started[i]);
        EventSnoc(done, started[i]);
        done := done + [started[i]];
        trace := trace + [if failing then OnError(started[i]) else After(started[i])];
        if Leasing(started[i]) { LeaseCleanup(ctx); }
      }
      assert done + [] == done;
      ReverseLease(started);
    }

    /** One stage's `before`: application stages answer the script, the concurrency stage acquires. */
    method StageBefore(stage: Stage, ctx: Context, verdict: Verdict, reachable: ConcurrencyScope -> bool)
      returns (v: Verdict)
      requires Leasing(stage) ==> ctx.leases == None
      modifies ctx, store
      ensures !Leasing(stage) ==> v == verdict && ctx.leases == old(ctx.leases) && store.active == old(store.active)
      ensures Leasing(stage) ==> v != Fail && (ctx.leases.Some? <==> v == Pass)
      ensures Leasing(stage) && v == Pass ==>
        Grant(store.active, ctx.leases) == Granted(old(store.active), [], Asks(scopes, ctx.policy, ctx.ids, reachable))
      ensures Leasing(stage) && PositiveLimits(scopes, ctx.policy, ctx.ids) ==>
        CountsPlus(store.active, old(store.active), HeldKeys(ctx.leases))
    {
      v := verdict;
      if Leasing(stage) { v := LeaseBefore(ctx, reachable); }
    }

    /**
     * `CallChain::before`. A rejection or a failure at the k-th enabled stage undoes exactly the
     * stages before it, in reverse, and leaves every count of the store where it was.
     */
    method RunBefore(policy: ResolvedPolicy, ids: Ids, script: Script, reachable: ConcurrencyScope -> bool)
      returns (ctx: Context, outcome: Outcome, trace: seq<Event>)
      requires DistinctNames(stages)
      modifies store
      ensures fresh(ctx) && ctx.policy == policy && ctx.ids == ids
      ensures outcome == Passed ==> trace == Befores(Enabled(stages, policy))
      ensures outcome == Passed ==> (ctx.leases.Some? <==> Bulkheads(stages, policy))
      ensures outcome == Passed && Bulkheads(stages, policy) ==>
        Grant(store.active, ctx.leases) == Granted(old(store.active), [], Asks(scopes, policy, ids, reachable))
      ensures outcome == Passed && !Bulkheads(stages, policy) ==> store.active == old(store.active)
      ensures outcome != Passed ==> StoppedAtSome(Enabled(stages, policy), outcome == Failed, trace)
      ensures outcome != Passed ==> ctx.leases == None
      ensures InRunOrder(stages) ==> LowerOrdersFirst(stages, policy, trace)
      ensures PositiveLimits(scopes, policy, ids) ==> CountsPlus(store.active, old(store.active), HeldKeys(ctx.leases))
    {
      ctx := new Context(policy, ids);
      trace := [];
      var started: seq<Stage> := [];
      assert CountsPlus(store.active, old(store.active), []);
      for i := 0 to |stages|
        invariant started == Enabled(stages[..i], policy) && trace == Befores(started)
        invariant ctx.leases.Some? <==> HasLease(started)
        invariant Grant(store.active, ctx.leases) ==
          if HasLease(started) then Granted(old(store.active), [], Asks(scopes, policy, ids, reachable))
          else Grant(old(store.active), None)
        invariant PositiveLimits(scopes, policy, ids) ==>
          CountsPlus(store.active, old(store.active), HeldKeys(ctx.leases))
      {
        var stage := stages[i];
        assert stages[..i + 1] == stages[..i] + [stage];
        EnabledSnoc(stages[..i], stage, policy);
        if !IsEnabled(policy.stages, stage.name) { continue; }
        FirstLease(stages, i, policy);
        HasLeaseSnoc(started, stage);
        EventSnoc(started, stage);
        trace := trace + [Before(stage)];
        label called:
        var v := StageBefore(stage, ctx, script.verdict(stage), reachable);
        if PositiveLimits(scopes, policy, ids) && Leasing(stage) {
          CountsChain(store.active, old@called(store.active), old(store.active), HeldKeys(ctx.leases));
        }
        if v != Pass {
          ghost var at := store.active;
          ghost var held := HeldKeys(ctx.leases);
          var undo := CleanupStarted(started, ctx, v == Fail);
          if PositiveLimits(scopes, policy, ids) { CountsReleased(at, old(store.active), held); }
          trace := trace + undo;
          outcome := if v == Fail then Failed else Rejected;
          StopPoint(stages, i, policy, v == Fail);
          if InRunOrder(stages) { StoppedLowerFirst(stages, policy, v == Fail, trace); }
          return;
        }
        started := started + [stage];
      }
      assert stages[..|stages|] == stages;
      BulkheadLeases(stages, policy);
      if InRunOrder(stages) { PassedLowerFirst(stages, policy); }
      outcome := Passed;
    }

    /**
     * `CallChain::after`: hooks run backwards over the enabled stages and the first failing one ends
     * the run, so the leases go back exactly when the concurrency stage is still reached.
     */
    method RunAfter(ctx: Context, script: Script) returns (ok: bool, trace: seq<Event>)
      modifies ctx, store
      ensures BackwardAfters(Enabled(stages, ctx.policy), trace)
      ensures ok ==> |trace| == |Enabled(stages, ctx.policy)|
      ensures !ok ==> trace != [] && script.afterFails(trace[|trace| - 1].stage)
      ensures Reaches(Enabled(stages, ctx.policy), AfterCall(script.afterFails)) ==>
        ctx.leases == None && store.active == Cleaned(old(store.active), old(ctx.leases))
      ensures !Reaches(Enabled(stages, ctx.policy), AfterCall(script.afterFails)) ==>
        ctx.leases == old(ctx.leases) && store.active == old(store.active)
    {
      var on := Enabled(stages, ctx.policy);
      trace := [];
      var released := false;
      var i := |on|;
      while i > 0
        invariant 0 <= i <= |on| && |trace| == |on| - i && BackwardAfters(on, trace)
        invariant QuietBehind(on, i - 1, script.afterFails)
        invariant released <==> ReachesFrom(on, i, script.afterFails)
        invariant released ==> ctx.leases == None && store.active == Cleaned(old(store.active), old(ctx.leases))
        invariant !released ==> ctx.leases == old(ctx.leases) && store.active == old(store.active)
      {
        i := i - 1;
        BackwardNext(on, trace);
        trace := trace + [After(on[i])];
        ReachesStep(on, i, script.afterFails);
        if Leasing(on[i]) {
          LeaseCleanup(ctx);
          released := true;
        } else if script.afterFails(on[i]) {
          return false, trace;
        }
      }
      ok := true;
    }

    /** `CallChain::on_error`: every enabled hook runs and hook errors are swallowed. */
    method RunOnError(ctx: Context) returns (trace: seq<Event>)
      modifies ctx, store
      ensures trace == Cleanups(Reverse(Enabled(stages, ctx.policy)), true)
      ensures Reaches(Enabled(stages, ctx.policy), OnErrorCall) ==>
        ctx.leases == None && store.active == Cleaned(old(store.active), old(ctx.leases))
      ensures !Reaches(Enabled(stages, ctx.policy), OnErrorCall) ==>
        ctx.leases == old(ctx.leases) && store.active == old(store.active)
    {
      var on := Enabled(stages, ctx.policy);
      trace := [];
      ghost var done: seq<Stage> := [];
      var i := |on|;
      assert on[..i] == on;
      while i > 0
        invariant 0 <= i <= |on|
        invariant done + Reverse(on[..i]) == Reverse(on) && trace == Cleanups(done, true)
        invariant HasLease(done) ==> ctx.leases == None && store.active == Cleaned(old(store.active), old(ctx.leases))
        invariant !HasLease(done) ==> ctx.leases == old(ctx.leases) && store.active == old(store.active)
      {
        i := i - 1;
        assert on[..i + 1][..i] == on[..i];
        assert done + ([on[i]] + Reverse(on[..i])) == (done + [on[i]]) + Reverse(on[..i]);
        HasLeaseSnoc(done, on[i]);
        EventSnoc(done, on[i]);
        done := done + [on[i]];
        trace := trace + [OnError(on[i])];
        if Leasing(on[i]) { LeaseCleanup(ctx); }
      }
      assert done + [] == done;
      ReverseLease(on);
    }
  }

  /** The trace runs `after` hooks from the last enabled stage towards the first. */
  ghost predicate BackwardAfters(on: seq<Stage>, trace: seq<Event>) {
    |trace| <= |on| && forall j :: 0 <= j < |trace| ==> trace[j] == After(on[|on| - 1 - j])
  }

  lemma BackwardNext(on: seq<Stage>, trace: seq<Event>)
    requires BackwardAfters(on, trace) && |trace| < |on|
    ensures BackwardAfters(on, trace + [After(on[|on| - 1 - |trace|])])
  {
  }

  // -- proof steps --------------------------------------------------------------------------

  /** A run that stopped at the k-th enabled stage: its cleanup is the exact reverse of what passed. */
  ghost predicate StoppedAt(on: seq<Stage>, k: nat, failing: bool, trace: seq<Event>) {
    k < |on| && trace == Befores(on[..k + 1]) + Cleanups(Reverse(on[..k]), failing)
  }

  ghost predicate StoppedAtSome(on: seq<Stage>, failing: bool, trace: seq<Event>) {
    exists k :: StoppedAt(on, k, failing, trace)
  }

  lemma StopPoint(stages: seq<Stage>, i: nat, policy: ResolvedPolicy, failing: bool)
    requires i < |stages| && IsEnabled(policy.stages, stages[i].name)
    ensures var started := Enabled(stages[..i], policy);
            StoppedAtSome(Enabled(stages, policy), failing,
                          Befores(started + [stages[i]]) + Cleanups(Reverse(started), failing))
  {
    var started := Enabled(stages[..i], policy);
    assert stages[..i + 1] == stages[..i] + [stages[i]];
    EnabledSnoc(stages[..i], stages[i], policy);
    EnabledPrefix(stages, i + 1, policy);
    StopAfter(Enabled(stages, policy), started, stages[i], failing);
  }

  lemma StopAfter(on: seq<Stage>, started: seq<Stage>, stage: Stage, failing: bool)
    requires started + [stage] <= on
    ensures StoppedAtSome(on, failing, Befores(started + [stage]) + Cleanups(Reverse(started), failing))
  {
    assert on[..|started| + 1] == started + [stage];
    assert on[..|started|] == started;
    assert StoppedAt(on, |started|, failing, Befores(started + [stage]) + Cleanups(Reverse(started), failing));
  }

  lemma HasLeaseCons(s: Stage, stages: seq<Stage>)
    ensures HasLease([s] + stages) <==> Leasing(s) || HasLease(stages)
  {
    var longer := [s] + stages;
    assert longer[0] == s;
    assert forall i :: 0 <= i < |stages| ==> longer[i + 1] == stages[i];
  }

  lemma {:induction false} ReverseLease(stages: seq<Stage>)
    ensures HasLease(Reverse(stages)) <==> HasLease(stages)
    decreases |stages|
  {
    if stages != [] {
      var n := |stages| - 1;
      assert stages == stages[..n] + [stages[n]];
      HasLeaseSnoc(stages[..n], stages[n]);
      HasLeaseCons(stages[n], Reverse(stages[..n]));
      ReverseLease(stages[..n]);
    }
  }

  lemma CountsChain(now: Active, mid: Active, base: Active, leases: seq<string>)
    requires CountsPlus(now, mid, leases) && CountsPlus(mid, base, [])
    ensures CountsPlus(now, base, leases)
  {
  }

  lemma {:induction false} EnabledPrefix(stages: seq<Stage>, i: nat, policy: ResolvedPolicy)
    requires i <= |stages|
    ensures Enabled(stages[..i], policy) <= Enabled(stages, policy)
    decreases |stages| - i
  {
    if i < |stages| {
      assert stages[..i + 1] == stages[..i] + [stages[i]];
      EnabledSnoc(stages[..i], stages[i], policy);
      EnabledPrefix(stages, i + 1, policy);
    } else {
      assert stages[..i] == stages;
    }
  }

  lemma FirstLease(stages: seq<Stage>, i: nat, policy: ResolvedPolicy)
    requires i < |stages| && DistinctNames(stages)
    ensures Leasing(stages[i]) ==> !HasLease(Enabled(stages[..i], policy))
  {
    var started := Enabled(stages[..i], policy);
    forall j | 0 <= j < |started| ensures Leasing(stages[i]) ==> !Leasing(started[j]) {
      assert started[j] in stages[..i];
    }
  }

  // -- any number of cleanup calls on one context --------------------------------------------

  /** A caller may invoke `after` and `on_error` on a context as often as it likes. */
  datatype Call = AfterCall(fails: Stage -> bool) | OnErrorCall

  /** No application stage behind position `c` fails its `after`. */
  ghost predicate QuietBehind(on: seq<Stage>, c: int, fails: Stage -> bool) {
    forall j :: c < j < |on| && 0 <= j && !Leasing(on[j]) ==> !fails(on[j])
  }

  ghost predicate ReachesFrom(on: seq<Stage>, i: nat, fails: Stage -> bool) {
    exists c :: i <= c < |on| && Leasing(on[c]) && QuietBehind(on, c, fails)
  }

  lemma ReachesStep(on: seq<Stage>, i: nat, fails: Stage -> bool)
    requires i < |on| && QuietBehind(on, i, fails)
    ensures ReachesFrom(on, i, fails) <==> ReachesFrom(on, i + 1, fails) || Leasing(on[i])
    ensures !Leasing(on[i]) && fails(on[i]) ==> (ReachesFrom(on, 0, fails) <==> ReachesFrom(on, i + 1, fails))
    ensures Leasing(on[i]) || !fails(on[i]) ==> QuietBehind(on, i - 1, fails)
  {
  }

  /** The call gets as far as the concurrency stage: no stage ordered behind it fails its `after`. */
  ghost predicate Reaches(on: seq<Stage>, call: Call) {
    match call
    case AfterCall(fails) => ReachesFrom(on, 0, fails)
    case OnErrorCall => HasLease(on)
  }

  ghost function LeasesAfter(on: seq<Stage>, leases: Option<seq<string>>, call: Call): Option<seq<string>> {
    if Reaches(on, call) then None else leases
  }

  /** The keys released by a sequence of calls, in release order. */
  ghost function Released(on: seq<Stage>, leases: Option<seq<string>>, calls: seq<Call>): seq<string>
    decreases |calls|
  {
    if calls == [] then []
    else
      var now := if Reaches(on, calls[0]) && leases.Some? then Reverse(leases.value) else [];
      now + Released(on, LeasesAfter(on, leases, calls[0]), calls[1..])
  }

  /** Whatever the calls, each lease is released once if some call gets there, and never twice. */
  lemma {:induction false} ReleasedOnce(on: seq<Stage>, leases: Option<seq<string>>, calls: seq<Call>)
    ensures Released(on, leases, calls) ==
      if leases.Some? && (exists c :: c in calls && Reaches(on, c)) then Reverse(leases.value) else []
    decreases |calls|
  {
    if calls != [] {
      assert calls == [calls[0]] + calls[1..];
      ReleasedOnce(on, LeasesAfter(on, leases, calls[0]), calls[1..]);
    }
  }

  /** An `on_error`, or an `after` in which no hook fails, releases everything that was held. */
  lemma CleanCallReleases(on: seq<Stage>, leases: seq<string>, calls: seq<Call>, i: nat)
    requires HasLease(on) && i < |calls|
    requires calls[i].AfterCall? ==> forall s :: s in on ==> !calls[i].fails(s)
    ensures Released(on, Some(leases), calls) == Reverse(leases)
  {
    ReleasedOnce(on, Some(leases), calls);
    assert calls[i] in calls && Reaches(on, calls[i]);
  }
}
