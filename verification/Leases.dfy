/**
 * Concurrency leases under interleaving: any number of requests, each somewhere inside its
 * chain, share one admission store, and every store call is one atomic step.
 *
 * A request's `before` attempts the acquisitions of a program (a sequence of `Want`) in order.
 * The store contract is the in-process one; releases succeed, and a distributed store may refuse
 * to answer an acquire, in which case the scope is bypassed.
 */
module Leases {
  import opened Sorting
  import opened AdmissionStore
  import opened CallChain
  import opened ChainPolicy

  datatype Request =
    | Acquiring(todo: seq<Want>, acquired: seq<string>)  // inside ConcurrencyStage::before
    | Releasing(keys: seq<string>)                       // inside release_keys
    | Live(leases: Option<seq<string>>)                  // the context, with its lease state

  datatype State = State(active: Active, requests: seq<Request>)

  datatype Step =
    | Start(program: seq<Want>)
    | Acquire(id: nat)
    | Bypass(id: nat)      // store unavailable
    | Enter(id: nat)       // all scopes done: insert_state
    | Cleanup(id: nat)     // after / on_error, or a later stage rejected or failed
    | ReleaseOne(id: nat)

  function Held(r: Request): seq<string> {
    match r
    case Acquiring(_, acquired) => acquired
    case Releasing(keys) => keys
    case Live(leases) => if leases.Some? then leases.value else []
  }

  function Total(requests: seq<Request>, k: string): nat {
    if requests == [] then 0
    else Total(requests[..|requests| - 1], k) + multiset(Held(requests[|requests| - 1]))[k]
  }

  lemma {:induction false} TotalUpdate(requests: seq<Request>, i: nat, r: Request, k: string)
    requires i < |requests|
    ensures Total(requests[i := r], k) == Total(requests, k) - multiset(Held(requests[i]))[k] + multiset(Held(r))[k]
    decreases |requests|
  {
    var n := |requests| - 1;
    if i < n {
      assert requests[i := r][..n] == requests[..n][i := r];
      TotalUpdate(requests[..n], i, r, k);
    } else {
      assert requests[i := r][..n] == requests[..n];
    }
  }

  // -- the protocol -------------------------------------------------------------------------

  /** Programs come from a fixed set: what the deployed policies make requests ask for. */
  ghost predicate Enabled(programs: iset<seq<Want>>, s: State, step: Step) {
    match step
    case Start(program) => program in programs
    case Acquire(id) => id < |s.requests| && s.requests[id].Acquiring? && s.requests[id].todo != []
    case Bypass(id) => id < |s.requests| && s.requests[id].Acquiring? && s.requests[id].todo != []
    case Enter(id) => id < |s.requests| && s.requests[id].Acquiring? && s.requests[id].todo == []
    case Cleanup(id) => id < |s.requests| && s.requests[id].Live?
    case ReleaseOne(id) => id < |s.requests| && s.requests[id].Releasing?
  }

  function WithRequest(s: State, id: nat, r: Request): State
    requires id < |s.requests|
  {
    s.(requests := s.requests[id := r])
  }

  ghost function Next(programs: iset<seq<Want>>, s: State, step: Step): State
    requires Enabled(programs, s, step)
  {
    match step
    case Start(program) => s.(requests := s.requests + [Acquiring(program, [])])
    case Acquire(id) =>
      var r := s.requests[id];
      var w := r.todo[0];
      if AcquireOutcome(s.active, w.key, w.limit) == Acquired
      then State(AfterAcquire(s.active, w.key, w.limit), s.requests[id := Acquiring(r.todo[1..], r.acquired + [w.key])])
      else WithRequest(s, id, Releasing(r.acquired))
    case Bypass(id) => WithRequest(s, id, Acquiring(s.requests[id].todo[1..], s.requests[id].acquired))
    case Enter(id) => WithRequest(s, id, Live(Some(s.requests[id].acquired)))
    case Cleanup(id) =>
      var leases := s.requests[id].leases;
      WithRequest(s, id, if leases.Some? then Releasing(leases.value) else Live(None))
    case ReleaseOne(id) =>
      var keys := s.requests[id].keys;
      if keys == [] then WithRequest(s, id, Live(None))
      else State(AfterRelease(s.active, keys[|keys| - 1]), s.requests[id := Releasing(keys[..|keys| - 1])])
  }

  const INITIAL := State(map[], [])

  ghost predicate Executable(programs: iset<seq<Want>>, s: State, steps: seq<Step>)
    decreases |steps|
  {
    steps == [] || (Enabled(programs, s, steps[0]) && Executable(programs, Next(programs, s, steps[0]), steps[1..]))
  }

  ghost function Final(programs: iset<seq<Want>>, s: State, steps: seq<Step>): State
    requires Executable(programs, s, steps)
    decreases |steps|
  {
    if steps == [] then s else Final(programs, Next(programs, s, steps[0]), steps[1..])
  }

  ghost predicate Reachable(programs: iset<seq<Want>>, s: State) {
    exists steps :: Executable(programs, INITIAL, steps) && Final(programs, INITIAL, steps) == s
  }

  // -- conservation -------------------------------------------------------------------------

  /** Every count is the number of leases live contexts and unfinished calls hold. */
  ghost predicate Conserved(s: State) {
    forall k :: Count(s.active, k) == Total(s.requests, k)
  }

  ghost predicate PositivePrograms(programs: iset<seq<Want>>) {
    forall p, w :: p in programs && w in p ==> w.limit > 0
  }

  ghost predicate PositiveTodo(s: State) {
    forall i, w :: 0 <= i < |s.requests| && s.requests[i].Acquiring? && w in s.requests[i].todo ==> w.limit > 0
  }

  /** Within the limits: what is still to be acquired never asks beyond its key's one limit. */
  ghost predicate Limited(s: State, limits: string -> nat) {
    && (forall k :: Count(s.active, k) <= limits(k))
    && (forall i, w :: 0 <= i < |s.requests| && s.requests[i].Acquiring? && w in s.requests[i].todo ==>
      w.limit == limits(w.key))
  }

  /** One request moved from `old` to `new`, and the store counted the difference. */
  lemma MoveConserves(s: State, id: nat, r: Request, active: Active)
    requires Conserved(s) && id < |s.requests|
    requires forall k ::
      Count(active, k) == Count(s.active, k) - multiset(Held(s.requests[id]))[k] + multiset(Held(r))[k]
    ensures Conserved(State(active, s.requests[id := r]))
  {
    forall k ensures Count(active, k) == Total(s.requests[id := r], k) {
      TotalUpdate(s.requests, id, r, k);
    }
  }

  lemma AcquireConserves(programs: iset<seq<Want>>, s: State, id: nat)
    requires Conserved(s) && PositiveTodo(s) && Enabled(programs, s, Acquire(id))
    ensures Conserved(Next(programs, s, Acquire(id)))
  {
    var t := Next(programs, s, Acquire(id));
    assert s.requests[id].todo[0].limit > 0;
    MoveConserves(s, id, t.requests[id], t.active);
  }

  lemma ReleaseConserves(programs: iset<seq<Want>>, s: State, id: nat)
    requires Conserved(s) && Enabled(programs, s, ReleaseOne(id))
    ensures Conserved(Next(programs, s, ReleaseOne(id)))
  {
    var t := Next(programs, s, ReleaseOne(id));
    var keys := s.requests[id].keys;
    if keys != [] {
      var k := keys[|keys| - 1];
      assert keys == keys[..|keys| - 1] + [k];
      HolderCounted(s.requests, id, k);
    }
    MoveConserves(s, id, t.requests[id], t.active);
  }

  lemma StartConserves(s: State, program: seq<Want>)
    requires Conserved(s)
    ensures Conserved(s.(requests := s.requests + [Acquiring(program, [])]))
  {
    assert (s.requests + [Acquiring(program, [])])[..|s.requests|] == s.requests;
  }

  lemma StepConserves(programs: iset<seq<Want>>, s: State, step: Step)
    requires Enabled(programs, s, step) && Conserved(s) && PositiveTodo(s)
    ensures Conserved(Next(programs, s, step))
  {
    match step {
      case Start(program) => StartConserves(s, program);
      case Acquire(id) => AcquireConserves(programs, s, id);
      case Bypass(id) => MoveConserves(s, id, Next(programs, s, step).requests[id], s.active);
      case Enter(id) => MoveConserves(s, id, Next(programs, s, step).requests[id], s.active);
      case Cleanup(id) => MoveConserves(s, id, Next(programs, s, step).requests[id], s.active);
      case ReleaseOne(id) => ReleaseConserves(programs, s, id);
    }
  }

  lemma StepPositive(programs: iset<seq<Want>>, s: State, step: Step)
    requires PositivePrograms(programs) && Enabled(programs, s, step) && PositiveTodo(s)
    ensures PositiveTodo(Next(programs, s, step))
  {
  }

  /** What one request holds is part of the total. */
  lemma {:induction false} HolderCounted(requests: seq<Request>, i: nat, k: string)
    requires i < |requests|
    ensures multiset(Held(requests[i]))[k] <= Total(requests, k)
    decreases |requests|
  {
    if i < |requests| - 1 { HolderCounted(requests[..|requests| - 1], i, k); }
  }

  lemma StepLimited(programs: iset<seq<Want>>, s: State, step: Step, limits: string -> nat)
    requires Enabled(programs, s, step) && Limited(s, limits)
    requires forall p, w :: p in programs && w in p ==> w.limit == limits(w.key)
    ensures Limited(Next(programs, s, step), limits)
  {
  }

  lemma {:induction false} RunConserves(programs: iset<seq<Want>>, s: State, steps: seq<Step>)
    requires PositivePrograms(programs) && Executable(programs, s, steps)
    requires Conserved(s) && PositiveTodo(s)
    ensures Conserved(Final(programs, s, steps))
    decreases |steps|
  {
    if steps != [] {
      StepConserves(programs, s, steps[0]);
      StepPositive(programs, s, steps[0]);
      RunConserves(programs, Next(programs, s, steps[0]), steps[1..]);
    }
  }

  lemma {:induction false} RunLimited(programs: iset<seq<Want>>, s: State, steps: seq<Step>, limits: string -> nat)
    requires Executable(programs, s, steps) && Limited(s, limits)
    requires forall p, w :: p in programs && w in p ==> w.limit == limits(w.key)
    ensures Limited(Final(programs, s, steps), limits)
    decreases |steps|
  {
    if steps != [] {
      StepLimited(programs, s, steps[0], limits);
      RunLimited(programs, Next(programs, s, steps[0]), steps[1..], limits);
    }
  }

  /** With one fixed limit per key, no interleaving ever lets a count pass it. */
  lemma LimitHolds(programs: iset<seq<Want>>, s: State, limits: string -> nat, k: string)
    requires Reachable(programs, s)
    requires forall p, w :: p in programs && w in p ==> w.limit == limits(w.key)
    ensures Count(s.active, k) <= limits(k)
  {
    var steps :| Executable(programs, INITIAL, steps) && Final(programs, INITIAL, steps) == s;
    RunLimited(programs, INITIAL, steps, limits);
  }

  // -- exactly when -------------------------------------------------------------------------

  /** Bypassing the first acquisitions of a lone request reaches any later one. */
  lemma {:induction false} BypassTo(programs: iset<seq<Want>>, todo: seq<Want>, i: nat) returns (steps: seq<Step>)
    requires i < |todo| && todo[i].limit == 0
    ensures var s := State(map[], [Acquiring(todo, [])]);
            Executable(programs, s, steps) && !Conserved(Final(programs, s, steps))
    decreases i
  {
    var s := State(map[], [Acquiring(todo, [])]);
    if i == 0 {
      steps := [Acquire(0)];
      var t := Next(programs, s, Acquire(0));
      assert [] + [todo[0].key] == [todo[0].key];
      assert t == State(map[], [Acquiring(todo[1..], [todo[0].key])]);
      assert Total(t.requests, todo[0].key) == Total([], todo[0].key) + 1;
      assert Final(programs, t, []) == t;
      assert steps[1..] == [];
    } else {
      var t := Next(programs, s, Bypass(0));
      assert t == State(map[], [Acquiring(todo[1..], [])]);
      var rest := BypassTo(programs, todo[1..], i - 1);
      steps := [Bypass(0)] + rest;
      assert steps[1..] == rest;
    }
  }

  /**
   * Lease conservation holds in every reachable state exactly when no program asks for the limit
   * zero: the store reads zero as "unlimited" and grants the lease without counting it, so its
   * release later takes away a slot somebody else counted.
   */
  lemma ConservationExactly(programs: iset<seq<Want>>)
    ensures (forall s :: Reachable(programs, s) ==> Conserved(s)) <==> PositivePrograms(programs)
  {
    if PositivePrograms(programs) {
      forall s | Reachable(programs, s) ensures Conserved(s) {
        var steps :| Executable(programs, INITIAL, steps) && Final(programs, INITIAL, steps) == s;
        RunConserves(programs, INITIAL, steps);
      }
    } else {
      var p, w :| p in programs && w in p && w.limit == 0;
      var i :| 0 <= i < |p| && p[i] == w;
      var rest := BypassTo(programs, p, i);
      var steps := [Start(p)] + rest;
      assert steps[1..] == rest;
      assert Next(programs, INITIAL, Start(p)) == State(map[], [Acquiring(p, [])]);
      var s := Final(programs, INITIAL, steps);
      assert Reachable(programs, s) && !Conserved(s);
    }
  }

  lemma {:induction false} RunSnoc(programs: iset<seq<Want>>, s: State, steps: seq<Step>, step: Step)
    requires Executable(programs, s, steps) && Enabled(programs, Final(programs, s, steps), step)
    ensures Executable(programs, s, steps + [step])
    ensures Final(programs, s, steps + [step]) == Next(programs, Final(programs, s, steps), step)
    decreases |steps|
  {
    if steps == [] {
      assert steps + [step] == [step];
    } else {
      assert (steps + [step])[1..] == steps[1..] + [step];
      RunSnoc(programs, Next(programs, s, steps[0]), steps[1..], step);
    }
  }

  lemma Extend(programs: iset<seq<Want>>, s: State, step: Step, t: State)
    requires Reachable(programs, s) && Enabled(programs, s, step) && Next(programs, s, step) == t
    ensures Reachable(programs, t)
  {
    var steps :| Executable(programs, INITIAL, steps) && Final(programs, INITIAL, steps) == s;
    RunSnoc(programs, INITIAL, steps, step);
  }

  /** A request that acquires its one lease while the key is free enough. */
  lemma TakeLease(programs: iset<seq<Want>>, s: State, w: Want, t: State)
    requires Reachable(programs, s) && [w] in programs && AcquireOutcome(s.active, w.key, w.limit) == Acquired
    requires t == State(AfterAcquire(s.active, w.key, w.limit), s.requests + [Live(Some([w.key]))])
    ensures Reachable(programs, t)
  {
    var n := |s.requests|;
    var s1 := s.(requests := s.requests + [Acquiring([w], [])]);
    Extend(programs, s, Start([w]), s1);
    var s2 := State(t.active, s.requests + [Acquiring([], [w.key])]);
    assert [w][1..] == [] && [] + [w.key] == [w.key];
    assert s1.requests[n := Acquiring([], [w.key])] == s2.requests;
    Extend(programs, s1, Acquire(n), s2);
    assert s2.requests[n := Live(Some([w.key]))] == t.requests;
    Extend(programs, s2, Enter(n), t);
  }

  // -- the concurrency stage takes these steps -----------------------------------------------------

  function Program(asks: seq<Ask>): seq<Want> {
    seq(|asks|, i requires 0 <= i < |asks| => asks[i].want)
  }

  /** What request `id` becomes once the stage has decided. */
  function Decided(s: State, id: nat, g: Grant): State
    requires id < |s.requests|
  {
    State(g.active, s.requests[id := Live(g.leases)])
  }

  /** The acquire, bypass and enter or release steps of one request, made without interruption. */
  lemma {:induction false} StageRuns(programs: iset<seq<Want>>, s: State, id: nat, asks: seq<Ask>,
      acquired: seq<string>)
    returns (steps: seq<Step>)
    requires id < |s.requests| && s.requests[id] == Acquiring(Program(asks), acquired)
    ensures Executable(programs, s, steps)
    ensures Final(programs, s, steps) == Decided(s, id, Granted(s.active, acquired, asks))
    decreases |asks|
  {
    if asks == [] {
      steps := [Enter(id)];
      RunOne(programs, s, Enter(id));
    } else {
      var w, todo := asks[0].want, Program(asks);
      assert todo[0] == w && todo[1..] == Program(asks[1..]);
      if !asks[0].answered {
        var t := Next(programs, s, Bypass(id));
        var rest := StageRuns(programs, t, id, asks[1..], acquired);
        steps := [Bypass(id)] + rest;
        RunCons(programs, s, Bypass(id), rest);
        assert t.requests[id := Live(Granted(s.active, acquired, asks).leases)] ==
          s.requests[id := Live(Granted(s.active, acquired, asks).leases)];
      } else if AcquireOutcome(s.active, w.key, w.limit) == Acquired {
        var t := Next(programs, s, Acquire(id));
        var rest := StageRuns(programs, t, id, asks[1..], acquired + [w.key]);
        steps := [Acquire(id)] + rest;
        RunCons(programs, s, Acquire(id), rest);
        assert t.requests[id := Live(Granted(s.active, acquired, asks).leases)] ==
          s.requests[id := Live(Granted(s.active, acquired, asks).leases)];
      } else {
        var t := Next(programs, s, Acquire(id));
        var rest := ReleaseRuns(programs, t, id, acquired);
        steps := [Acquire(id)] + rest;
        RunCons(programs, s, Acquire(id), rest);
        assert t.requests[id := Live(None)] == s.requests[id := Live(None)];
      }
    }
  }

  lemma {:induction false} ReleaseRuns(programs: iset<seq<Want>>, s: State, id: nat, keys: seq<string>)
    returns (steps: seq<Step>)
    requires id < |s.requests| && s.requests[id] == Releasing(keys)
    ensures Executable(programs, s, steps)
    ensures Final(programs, s, steps) == Decided(s, id, Grant(AfterReleaseAll(s.active, keys), None))
    decreases |keys|
  {
    if keys == [] {
      steps := [ReleaseOne(id)];
      RunOne(programs, s, ReleaseOne(id));
    } else {
      var t := Next(programs, s, ReleaseOne(id));
      var rest := ReleaseRuns(programs, t, id, keys[..|keys| - 1]);
      steps := [ReleaseOne(id)] + rest;
      RunCons(programs, s, ReleaseOne(id), rest);
      assert t.requests[id := Live(None)] == s.requests[id := Live(None)];
    }
  }

  lemma RunOne(programs: iset<seq<Want>>, s: State, step: Step)
    requires Enabled(programs, s, step)
    ensures Executable(programs, s, [step]) && Final(programs, s, [step]) == Next(programs, s, step)
  {
    assert [step][1..] == [];
  }

  lemma RunCons(programs: iset<seq<Want>>, s: State, step: Step, rest: seq<Step>)
    requires Enabled(programs, s, step) && Executable(programs, Next(programs, s, step), rest)
    ensures Executable(programs, s, [step] + rest)
    ensures Final(programs, s, [step] + rest) == Final(programs, Next(programs, s, step), rest)
  {
    assert ([step] + rest)[1..] == rest;
  }

  /**
   * `ConcurrencyStage::before` on a context of its own: the machine starts the request with the wants of
   * the stage's scopes, and some run of it ends with the stage's store, verdict and leases.
   */
  method Lease(chain: Chain, ctx: Context, reachable: ConcurrencyScope -> bool)
    returns (v: Verdict, ghost program: seq<Want>, ghost steps: seq<Step>)
    requires ctx.leases == None
    modifies ctx, chain.store
    ensures program == Program(Asks(chain.scopes, ctx.policy, ctx.ids, reachable))
    ensures var s := State(old(chain.store.active), []);
            && Executable(iset{program}, s, [Start(program)] + steps)
            && Final(iset{program}, s, [Start(program)] + steps) == State(chain.store.active, [Live(ctx.leases)])
    ensures v == Pass <==> ctx.leases.Some?
  {
    ghost var asks := Asks(chain.scopes, ctx.policy, ctx.ids, reachable);
    ghost var before := State(chain.store.active, []);
    program := Program(asks);
    ghost var started := Next(iset{program}, before, Start(program));
    assert started == State(before.active, [Acquiring(program, [])]);
    v := chain.LeaseBefore(ctx, reachable);
    steps := StageRuns(iset{program}, started, 0, asks, []);
    RunCons(iset{program}, before, Start(program), steps);
  }

  /** The damage: an uncounted lease, given back, frees a slot another request holds. */
  lemma UncountedReleaseSteals(k: string)
    ensures Reachable(iset{[Want(k, 1)], [Want(k, 0)]}, State(map[], [Live(Some([k])), Live(None)]))
  {
    var programs := iset{[Want(k, 1)], [Want(k, 0)]};
    assert Executable(programs, INITIAL, []) && Final(programs, INITIAL, []) == INITIAL;
    var live := Live(Some([k]));
    var one := State(map[k := 1], [live]);
    TakeLease(programs, INITIAL, Want(k, 1), one);
    var two := State(map[k := 1], [live, live]);
    TakeLease(programs, one, Want(k, 0), two);
    var three := State(map[k := 1], [live, Releasing([k])]);
    Extend(programs, two, Cleanup(1), three);
    var four := State(map[], [live, Releasing([])]);
    assert [k][..0] == [] && AfterRelease(map[k := 1], k) == map[];
    assert Next(programs, three, ReleaseOne(1)) == four;
    Extend(programs, three, ReleaseOne(1), four);
    Extend(programs, four, ReleaseOne(1), State(map[], [live, Live(None)]));
  }
}
