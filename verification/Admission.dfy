/**
 * Tenant admission slots over every interleaving of requests: the store's count against the
 * requests that still hold a slot.
 */
module Admission {
  import opened Sorting
  import opened AdmissionStore
  import opened Lifecycle
  import opened Interleavings
  import opened ReplaySafety

  /** The slot was given back. */
  ghost predicate GaveBack(t: Thread) {
    exists j :: 0 <= j < t.pc && j < |t.ops| && t.ops[j].ReleaseSlot?
  }

  /** A request that was admitted and has not given its slot back yet. */
  ghost predicate Holding(t: Thread) {
    t.run.slot.Slot? && t.pc > AcquireIndex(t.run) && !GaveBack(t)
  }

  ghost predicate HoldsKey(t: Thread, key: string) {
    Holding(t) && t.run.slot.key == key
  }

  ghost function Holders(threads: seq<Thread>, key: string): nat {
    if threads == [] then 0
    else Holders(threads[..|threads| - 1], key) + (if HoldsKey(threads[|threads| - 1], key) then 1 else 0)
  }

  lemma {:induction false} HoldersUpdate(threads: seq<Thread>, id: nat, t: Thread, key: string)
    requires id < |threads|
    ensures Holders(threads[id := t], key) ==
      Holders(threads, key) - (if HoldsKey(threads[id], key) then 1 else 0) + (if HoldsKey(t, key) then 1 else 0)
    decreases |threads|
  {
    var n := |threads| - 1;
    var after := threads[id := t];
    if id < n {
      assert after[..n] == threads[..n][id := t];
      HoldersUpdate(threads[..n], id, t, key);
    } else {
      assert after[..n] == threads[..n];
    }
  }

  lemma {:induction false} HolderCounted(threads: seq<Thread>, id: nat, key: string)
    requires id < |threads| && HoldsKey(threads[id], key)
    ensures Holders(threads, key) > 0
    decreases |threads|
  {
    var n := |threads| - 1;
    if id < n { HolderCounted(threads[..n], id, key); }
  }

  /** The key's count is the number of its holders. */
  ghost predicate Balanced(w: World, key: string) {
    Count(w.stores.active, key) == Holders(w.threads, key)
  }

  /** Every live count is the number of holders. */
  ghost predicate Conserved(w: World) {
    Sane(w) && forall k :: Balanced(w, k)
  }

  /**
   * The calls that break the correspondence: a second release that finds a live count, and an
   * admission under a zero limit, which succeeds without being counted.
   */
  ghost predicate Miscounts(w: World, step: Step)
    requires Enabled(w, step)
  {
    step.Exec? &&
    var op := NextOp(w.threads[step.id]);
    || (op.ReleaseSlot? && !Holding(w.threads[step.id]) && Count(w.stores.active, op.key) > 0)
    || (op.Acquire? && op.granted && op.limit == 0)
  }

  ghost predicate MiscountsKey(w: World, step: Step, key: string)
    requires Enabled(w, step)
  {
    Miscounts(w, step) && NextOp(w.threads[step.id]).key == key
  }

  lemma GaveBackAdvance(t: Thread)
    requires t.pc < |t.ops|
    ensures GaveBack(Advance(t)) <==> GaveBack(t) || NextOp(t).ReleaseSlot?
  {
    if GaveBack(t) {
      var j :| 0 <= j < t.pc && j < |t.ops| && t.ops[j].ReleaseSlot?;
      assert Advance(t).ops[j].ReleaseSlot?;
    }
  }

  lemma NothingBack(t: Thread)
    requires Shaped(t) && t.pc <= AcquireIndex(t.run)
    ensures !GaveBack(t)
  {
    forall j | 0 <= j < t.pc && j < |t.ops| ensures !t.ops[j].ReleaseSlot? {
      assert CallAt(t.run, j, t.ops[j]);
    }
  }

  lemma HoldingAdvance(t: Thread)
    requires Shaped(t) && t.pc < |t.ops|
    ensures CallAt(t.run, t.pc, NextOp(t))
    ensures Holding(Advance(t)) <==>
      (NextOp(t).Acquire? && NextOp(t).granted) || (Holding(t) && !NextOp(t).ReleaseSlot?)
    ensures NextOp(t).Acquire? ==> !Holding(t)
  {
    GaveBackAdvance(t);
    assert CallAt(t.run, t.pc, t.ops[t.pc]);
    if t.pc <= AcquireIndex(t.run) { NothingBack(t); }
  }

  /** The change one call makes, key by key. */
  lemma ExecCounts(w: World, id: nat, k: string)
    requires Sane(w) && Enabled(w, Exec(id))
    ensures var t := w.threads[id];
            Holders(Next(w, Exec(id)).threads, k) ==
              Holders(w.threads, k) - (if HoldsKey(t, k) then 1 else 0) + (if HoldsKey(Advance(t), k) then 1 else 0)
  {
    HoldersUpdate(w.threads, id, Advance(w.threads[id]), k);
  }

  lemma SpawnCounts(w: World, run: Run, k: string)
    requires Possible(run)
    ensures Holders(Next(w, Spawn(run)).threads, k) == Holders(w.threads, k)
  {
    var v := Next(w, Spawn(run));
    assert v.threads[..|w.threads|] == w.threads;
  }

  /** A call that does not miscount the key keeps its count equal to its holders. */
  lemma ExecKeeps(w: World, id: nat, k: string)
    requires Sane(w) && Balanced(w, k) && Enabled(w, Exec(id)) && !MiscountsKey(w, Exec(id), k)
    ensures Balanced(Next(w, Exec(id)), k)
  {
    var t := w.threads[id];
    HoldingAdvance(t);
    ExecCounts(w, id, k);
    if HoldsKey(t, k) { HolderCounted(w.threads, id, k); }
  }

  lemma ExecBreaks(w: World, id: nat)
    requires Sane(w) && Enabled(w, Exec(id)) && Miscounts(w, Exec(id)) && Balanced(w, w.threads[id].run.slot.key)
    ensures var k := w.threads[id].run.slot.key;
            MiscountsKey(w, Exec(id), k)
            && Count(Next(w, Exec(id)).stores.active, k) == Holders(Next(w, Exec(id)).threads, k) - 1
  {
    var t := w.threads[id];
    HoldingAdvance(t);
    ExecCounts(w, id, t.run.slot.key);
  }

  /** The exact condition, step by step. */
  lemma StepConserves(w: World, step: Step)
    requires Conserved(w) && Enabled(w, step)
    ensures Conserved(Next(w, step)) <==> !Miscounts(w, step)
  {
    SaneNext(w, step);
    match step
    case Spawn(run) =>
      forall k ensures Balanced(Next(w, step), k) {
        SpawnCounts(w, run, k);
        assert Balanced(w, k);
      }
    case Expire(_) =>
      forall k ensures Balanced(Next(w, step), k) { assert Balanced(w, k); }
    case Exec(id) =>
      if Miscounts(w, step) {
        ExecBreaks(w, id);
        assert !Balanced(Next(w, step), w.threads[id].run.slot.key);
      } else {
        forall k ensures Balanced(Next(w, step), k) {
          assert Balanced(w, k);
          ExecKeeps(w, id, k);
        }
      }
  }

  ghost predicate ConservedThroughout(w: World, steps: seq<Step>)
    requires Executable(w, steps)
    decreases |steps|
  {
    Conserved(w) && (steps == [] || ConservedThroughout(Next(w, steps[0]), steps[1..]))
  }

  ghost predicate NoMiscount(w: World, steps: seq<Step>)
    requires Executable(w, steps)
    decreases |steps|
  {
    steps == [] || (!Miscounts(w, steps[0]) && NoMiscount(Next(w, steps[0]), steps[1..]))
  }

  /** Over whole runs: conservation holds throughout exactly when no call miscounts. */
  lemma {:induction false} RunConserves(w: World, steps: seq<Step>)
    requires Conserved(w) && Executable(w, steps)
    ensures ConservedThroughout(w, steps) <==> NoMiscount(w, steps)
    ensures NoMiscount(w, steps) ==> Conserved(Final(w, steps))
    decreases |steps|
  {
    if steps != [] {
      StepConserves(w, steps[0]);
      if !Miscounts(w, steps[0]) { RunConserves(Next(w, steps[0]), steps[1..]); }
      else { assert !ConservedThroughout(Next(w, steps[0]), steps[1..]); }
    }
  }

  // -- runs that cannot miscount ---------------------------------------------------------------

  /** No stage fails after the slot was taken, and the slot has a positive limit. */
  predicate Clean(run: Run) {
    run.slot.Slot? ==> run.failedAt.None? && run.slot.limit > 0
  }

  lemma CountTwo(ops: seq<Op>, op: Op, i: nat, j: nat)
    requires i < j < |ops| && ops[i] == op && ops[j] == op
    ensures CountOp(ops, op) >= 2
  {
    assert ops == ops[..j] + ops[j..] && ops[i] in ops[..j] && ops[j] in ops[j..];
  }

  ghost predicate CleanThread(t: Thread) {
    Clean(t.run) && (t.run.slot.Slot? ==> CountOp(t.ops, ReleaseSlot(t.run.slot.key)) <= 1)
  }

  ghost predicate AllClean(w: World) {
    forall i :: 0 <= i < |w.threads| ==> CleanThread(w.threads[i])
  }

  lemma CleanNeverMiscounts(w: World, id: nat)
    requires Sane(w) && AllClean(w) && Enabled(w, Exec(id))
    ensures !Miscounts(w, Exec(id))
  {
    var t := w.threads[id];
    var op := NextOp(t);
    HoldingAdvance(t);
    assert CleanThread(t);
    if op.ReleaseSlot? && !Holding(t) {
      var j :| 0 <= j < t.pc && j < |t.ops| && t.ops[j].ReleaseSlot?;
      assert CallAt(t.run, j, t.ops[j]);
      CountTwo(t.ops, op, j, t.pc);
    }
  }

  /** Without a stage failure behind Authentication and with positive limits, every interleaving conserves slots. */
  lemma {:induction false} CleanRunsConserve(w: World, steps: seq<Step>)
    requires Conserved(w) && AllClean(w) && Executable(w, steps)
    requires forall s :: s in steps && s.Spawn? ==> Clean(s.run)
    ensures Conserved(Final(w, steps))
    decreases |steps|
  {
    if steps != [] {
      var step := steps[0];
      if step.Exec? { CleanNeverMiscounts(w, step.id); }
      if step.Spawn? && step.run.slot.Slot? { SlotReleaseCount(step.run); }
      StepConserves(w, step);
      CleanRunsConserve(Next(w, step), steps[1..]);
    }
  }

  lemma EmptyConserved()
    ensures Conserved(EMPTY) && AllClean(EMPTY)
  {
  }

  // -- when every request is over ------------------------------------------------------------------

  /** Admitted, and cancelled in the handler: the one exit that never gives the slot back. */
  predicate Leaks(run: Run) {
    run.slot.Slot? && run.failedAt.None? && !run.preflight && !run.begin.Replayed? && run.handler == Cancelled
  }

  function LeaksOf(threads: seq<Thread>, key: string): nat {
    if threads == [] then 0
    else
      var last := threads[|threads| - 1].run;
      LeaksOf(threads[..|threads| - 1], key) + (if Leaks(last) && last.slot.key == key then 1 else 0)
  }

  predicate Finished(t: Thread) {
    t.pc == |t.ops|
  }

  lemma NeverGaveBack(t: Thread)
    requires Shaped(t) && Finished(t) && t.run.slot.Slot?
    ensures GaveBack(t) <==> ReleaseSlot(t.run.slot.key) in t.ops
  {
    if GaveBack(t) {
      var j :| 0 <= j < t.pc && j < |t.ops| && t.ops[j].ReleaseSlot?;
      assert CallAt(t.run, j, t.ops[j]);
    }
  }

  /** A finished request holds a slot exactly when it was cancelled with one. */
  lemma FinishedHolds(t: Thread, key: string)
    requires Shaped(t) && Genuine(t) && Finished(t)
    ensures HoldsKey(t, key) <==> Leaks(t.run) && t.run.slot.key == key
  {
    if t.run.slot.Slot? {
      SlotReleaseCount(t.run);
      NeverGaveBack(t);
    }
  }

  lemma {:induction false} FinishedHolders(threads: seq<Thread>, key: string)
    requires forall i :: 0 <= i < |threads| ==> Shaped(threads[i]) && Genuine(threads[i]) && Finished(threads[i])
    ensures Holders(threads, key) == LeaksOf(threads, key)
    decreases |threads|
  {
    if threads != [] {
      var n := |threads| - 1;
      FinishedHolders(threads[..n], key);
      FinishedHolds(threads[n], key);
    }
  }

  /** Once every request of a reachable world is over, a key's holders are exactly its cancelled admissions. */
  lemma QuiescentHolders(w: World, key: string)
    requires Reachable(w) && forall i :: 0 <= i < |w.threads| ==> Finished(w.threads[i])
    ensures Holders(w.threads, key) == LeaksOf(w.threads, key)
    ensures Conserved(w) ==> Count(w.stores.active, key) == LeaksOf(w.threads, key)
  {
    ReachableInvariants(w);
    FinishedHolders(w.threads, key);
    if Conserved(w) { assert Balanced(w, key); }
  }

  // -- the limit -----------------------------------------------------------------------------

  ghost predicate OneLimit(w: World, key: string, limit: nat) {
    forall i :: 0 <= i < |w.threads| && w.threads[i].run.slot.Slot? && w.threads[i].run.slot.key == key ==>
      w.threads[i].run.slot.limit == limit
  }

  /** The requests that start along the run use this limit for the key. */
  ghost predicate SpawnsUnder(steps: seq<Step>, key: string, limit: nat) {
    forall s :: s in steps && s.Spawn? && s.run.slot.Slot? && s.run.slot.key == key ==> s.run.slot.limit == limit
  }

  /** With one limit per key the count never passes it, whatever else goes wrong. */
  lemma {:induction false} CountWithinLimit(w: World, steps: seq<Step>, key: string, limit: nat)
    requires Sane(w) && Executable(w, steps) && OneLimit(w, key, limit) && Count(w.stores.active, key) <= limit
    requires SpawnsUnder(steps, key, limit)
    ensures Count(Final(w, steps).stores.active, key) <= limit
    decreases |steps|
  {
    if steps != [] {
      SaneNext(w, steps[0]);
      if steps[0].Exec? { HoldingAdvance(w.threads[steps[0].id]); }
      CountWithinLimit(Next(w, steps[0]), steps[1..], key, limit);
    }
  }

  /** Together: clean requests under one positive limit never hold more slots than it allows. */
  lemma HoldersWithinLimit(steps: seq<Step>, key: string, limit: nat)
    requires Executable(EMPTY, steps) && forall s :: s in steps && s.Spawn? ==> Clean(s.run)
    requires SpawnsUnder(steps, key, limit)
    ensures Holders(Final(EMPTY, steps).threads, key) <= limit
  {
    EmptyConserved();
    CleanRunsConserve(EMPTY, steps);
    CountWithinLimit(EMPTY, steps, key, limit);
    assert Balanced(Final(EMPTY, steps), key);
  }

  // -- exactly when the limit is passed ------------------------------------------------------------

  ghost predicate NoMiscountOf(w: World, steps: seq<Step>, key: string)
    requires Executable(w, steps)
    decreases |steps|
  {
    steps == [] || (!MiscountsKey(w, steps[0], key) && NoMiscountOf(Next(w, steps[0]), steps[1..], key))
  }

  /** A key that is in use under one positive limit: its count is exact and within the limit. */
  ghost predicate InOrder(w: World, key: string, limit: nat) {
    && Sane(w) && OneLimit(w, key, limit) && limit > 0
    && Balanced(w, key) && Count(w.stores.active, key) <= limit
  }

  /** Whatever follows without miscounting the key, its holders stay within the limit. */
  ghost predicate StaysWithin(w: World, key: string, limit: nat) {
    forall more :: Executable(w, more) && NoMiscountOf(w, more, key) && SpawnsUnder(more, key, limit) ==>
      Holders(Final(w, more).threads, key) <= limit
  }

  lemma SpawnsTail(steps: seq<Step>, key: string, limit: nat)
    requires steps != [] && SpawnsUnder(steps, key, limit)
    ensures SpawnsUnder(steps[1..], key, limit) && SpawnsUnder([steps[0]], key, limit)
  {
  }

  /** Under the limit, the key is miscounted only by a second release that finds a live count. */
  lemma OnlySecondReleases(w: World, step: Step, key: string, limit: nat)
    requires InOrder(w, key, limit) && Enabled(w, step) && MiscountsKey(w, step, key)
    ensures NextOp(w.threads[step.id]) == ReleaseSlot(key)
    ensures !Holding(w.threads[step.id]) && Count(w.stores.active, key) > 0
  {
    HoldingAdvance(w.threads[step.id]);
  }

  lemma StepInOrder(w: World, step: Step, key: string, limit: nat)
    requires InOrder(w, key, limit) && Enabled(w, step) && SpawnsUnder([step], key, limit)
    requires !MiscountsKey(w, step, key)
    ensures InOrder(Next(w, step), key, limit)
  {
    SaneNext(w, step);
    assert step in [step];
    match step
    case Spawn(run) => SpawnCounts(w, run, key);
    case Expire(_) =>
    case Exec(id) =>
      ExecKeeps(w, id, key);
      HoldingAdvance(w.threads[id]);
  }

  lemma {:induction false} RunInOrder(w: World, steps: seq<Step>, key: string, limit: nat)
    requires InOrder(w, key, limit) && Executable(w, steps) && SpawnsUnder(steps, key, limit)
    requires NoMiscountOf(w, steps, key)
    ensures InOrder(Final(w, steps), key, limit)
    decreases |steps|
  {
    if steps != [] {
      SpawnsTail(steps, key, limit);
      StepInOrder(w, steps[0], key, limit);
      RunInOrder(Next(w, steps[0]), steps[1..], key, limit);
    }
  }

  lemma InOrderStaysWithin(w: World, key: string, limit: nat)
    requires InOrder(w, key, limit)
    ensures StaysWithin(w, key, limit)
  {
    forall more | Executable(w, more) && NoMiscountOf(w, more, key) && SpawnsUnder(more, key, limit)
      ensures Holders(Final(w, more).threads, key) <= limit
    {
      RunInOrder(w, more, key, limit);
    }
  }

  /** One more request is admitted while the count is below the limit. */
  lemma AdmitOne(w: World, key: string, limit: nat) returns (v: World)
    requires Sane(w) && Count(w.stores.active, key) < limit
    ensures var first, second := Spawn(Admitted(key, limit)), Exec(|w.threads|);
            && Enabled(w, first) && Enabled(Next(w, first), second)
            && !MiscountsKey(w, first, key) && !MiscountsKey(Next(w, first), second, key)
            && v == Next(Next(w, first), second)
    ensures Sane(v) && Count(v.stores.active, key) == Count(w.stores.active, key) + 1
    ensures Holders(v.threads, key) == Holders(w.threads, key) + 1
  {
    var run, n := Admitted(key, limit), |w.threads|;
    SlotTraceOps(key, limit);
    SaneNext(w, Spawn(run));
    SpawnCounts(w, run, key);
    var u := Next(w, Spawn(run));
    assert u.threads[n] == Thread(run, AdmittedOps(key, limit), 0);
    HoldingAdvance(u.threads[n]);
    ExecCounts(u, n, key);
    SaneNext(u, Exec(n));
    v := Next(u, Exec(n));
  }

  /** With a holder too many, admissions fill the count up to the limit and pass it with the holders. */
  lemma {:induction false} FillUp(w: World, key: string, limit: nat) returns (more: seq<Step>)
    requires Sane(w) && Count(w.stores.active, key) <= limit
    requires Count(w.stores.active, key) < Holders(w.threads, key)
    ensures Executable(w, more) && NoMiscountOf(w, more, key) && SpawnsUnder(more, key, limit)
    ensures Holders(Final(w, more).threads, key) > limit
    decreases limit - Count(w.stores.active, key)
  {
    if Count(w.stores.active, key) == limit {
      more := [];
    } else {
      var v := AdmitOne(w, key, limit);
      var rest := FillUp(v, key, limit);
      var first, second := Spawn(Admitted(key, limit)), Exec(|w.threads|);
      more := [first, second] + rest;
      assert more[1..] == [second] + rest && more[1..][1..] == rest;
      assert Executable(Next(w, first), more[1..]) && NoMiscountOf(Next(w, first), more[1..], key);
    }
  }

  /**
   * The exact condition for the limit, step by step: the key's holders stay within it under everything
   * that may harmlessly follow exactly when the step is no second release of the key on a live count.
   */
  lemma WithinExactly(w: World, step: Step, key: string, limit: nat)
    requires InOrder(w, key, limit) && Enabled(w, step) && SpawnsUnder([step], key, limit)
    ensures StaysWithin(Next(w, step), key, limit) <==> !MiscountsKey(w, step, key)
    ensures MiscountsKey(w, step, key) ==> NextOp(w.threads[step.id]) == ReleaseSlot(key)
  {
    if MiscountsKey(w, step, key) {
      OnlySecondReleases(w, step, key, limit);
      HoldingAdvance(w.threads[step.id]);
      ExecBreaks(w, step.id);
      SaneNext(w, step);
      var more := FillUp(Next(w, step), key, limit);
    } else {
      StepInOrder(w, step, key, limit);
      InOrderStaysWithin(Next(w, step), key, limit);
    }
  }

  ghost predicate WithinThroughout(w: World, steps: seq<Step>, key: string, limit: nat)
    requires Executable(w, steps)
    decreases |steps|
  {
    && StaysWithin(w, key, limit)
    && (steps == [] || WithinThroughout(Next(w, steps[0]), steps[1..], key, limit))
  }

  /** Over whole runs: the limit is secure at every moment exactly when the key is never miscounted. */
  lemma {:induction false} RunWithinExactly(w: World, steps: seq<Step>, key: string, limit: nat)
    requires InOrder(w, key, limit) && Executable(w, steps) && SpawnsUnder(steps, key, limit)
    ensures WithinThroughout(w, steps, key, limit) <==> NoMiscountOf(w, steps, key)
    decreases |steps|
  {
    InOrderStaysWithin(w, key, limit);
    if steps != [] {
      SpawnsTail(steps, key, limit);
      WithinExactly(w, steps[0], key, limit);
      if !MiscountsKey(w, steps[0], key) {
        StepInOrder(w, steps[0], key, limit);
        RunWithinExactly(Next(w, steps[0]), steps[1..], key, limit);
      } else {
        assert !WithinThroughout(Next(w, steps[0]), steps[1..], key, limit);
      }
    }
  }

  /** From the start: every run whose requests use one positive limit for the key. */
  lemma LimitExactly(steps: seq<Step>, key: string, limit: nat)
    requires Executable(EMPTY, steps) && SpawnsUnder(steps, key, limit) && limit > 0
    ensures WithinThroughout(EMPTY, steps, key, limit) <==> NoMiscountOf(EMPTY, steps, key)
  {
    EmptyConserved();
    RunWithinExactly(EMPTY, steps, key, limit);
  }

  // -- a request refused after its admission ---------------------------------------------------

  /** Admitted under `limit`, then a later stage fails. */
  function LateFailure(key: string, limit: nat): Run {
    Run(false, Some(11), NoBegin, Slot(key, limit), TimedOut, Problem(), false, 1000)
  }

  function Admitted(key: string, limit: nat): Run {
    Run(false, None, NoBegin, Slot(key, limit), TimedOut, Problem(), false, 1000)
  }

  function LateFailureOps(key: string, limit: nat): seq<Op> {
    [Acquire(key, limit, true), ReleaseSlot(key), ReleaseSlot(key), Respond(FromProblem)]
  }

  function AdmittedOps(key: string, limit: nat): seq<Op> {
    [Acquire(key, limit, true), ReleaseSlot(key), Respond(FromProblem)]
  }

  lemma SlotTraceOps(key: string, limit: nat)
    ensures Possible(LateFailure(key, limit)) && Possible(Admitted(key, limit))
    ensures Ops(LateFailure(key, limit)) == LateFailureOps(key, limit)
      && Ops(Admitted(key, limit)) == AdmittedOps(key, limit)
  {
  }

  function SlotWorld(key: string, active: Active, a: nat, b: nat, c: nat): World {
    World(Stores(map[], active),
          [Thread(LateFailure(key, 1), LateFailureOps(key, 1), a),
           Thread(Admitted(key, 1), AdmittedOps(key, 1), b), Thread(Admitted(key, 1), AdmittedOps(key, 1), c)])
  }

  lemma SlotStart(key: string)
    ensures Reachable(SlotWorld(key, map[], 0, 0, 0))
  {
    SlotTraceOps(key, 1);
    ReachableEmpty();
    var a := Thread(LateFailure(key, 1), LateFailureOps(key, 1), 0);
    var b := Thread(Admitted(key, 1), AdmittedOps(key, 1), 0);
    var w1, w2 := World(EMPTY.stores, [a]), World(EMPTY.stores, [a, b]);
    ReachableNext(EMPTY, Spawn(LateFailure(key, 1)), w1);
    ReachableNext(w1, Spawn(Admitted(key, 1)), w2);
    ReachableNext(w2, Spawn(Admitted(key, 1)), SlotWorld(key, map[], 0, 0, 0));
  }

  function Bumped(pc: nat, moves: bool): nat {
    if moves then 1 else pc
  }

  lemma SlotAdvance(key: string, active: Active, a: nat, b: nat, c: nat, id: nat)
    requires id <= 2 && [a, b, c][id] == 0
    ensures var w := SlotWorld(key, map[], a, b, c);
            SlotWorld(key, active, Bumped(a, id == 0), Bumped(b, id == 1), Bumped(c, id == 2)).threads ==
              w.threads[id := Advance(w.threads[id])]
  {
  }

  lemma SlotAcquire(key: string, a: nat, b: nat, c: nat, id: nat)
    requires Reachable(SlotWorld(key, map[], a, b, c)) && id <= 2 && [a, b, c][id] == 0
    ensures Reachable(SlotWorld(key, map[key := 1], Bumped(a, id == 0), Bumped(b, id == 1), Bumped(c, id == 2)))
  {
    var w := SlotWorld(key, map[], a, b, c);
    var v := SlotWorld(key, map[key := 1], Bumped(a, id == 0), Bumped(b, id == 1), Bumped(c, id == 2));
    SlotAdvance(key, map[key := 1], a, b, c, id);
    assert NextOp(w.threads[id]) == Acquire(key, 1, true);
    Made(w, id, v.stores, v);
  }

  lemma SlotRelease(key: string, a: nat, b: nat, c: nat)
    requires Reachable(SlotWorld(key, map[key := 1], a, b, c)) && 1 <= a <= 2
    ensures Reachable(SlotWorld(key, map[], a + 1, b, c))
  {
    var w := SlotWorld(key, map[key := 1], a, b, c);
    var v := SlotWorld(key, map[], a + 1, b, c);
    assert v.threads == w.threads[0 := Advance(w.threads[0])];
    assert AfterRelease(map[key := 1], key) == map[];
    Made(w, 0, v.stores, v);
  }

  /** Under a limit of one: first a holder the count no longer knows about, then a second admission beside it. */
  lemma LateFailureLosesSlot(key: string)
    ensures var w := SlotWorld(key, map[], 3, 1, 0);
            Reachable(w) && Holding(w.threads[1]) && Count(w.stores.active, key) == 0
    ensures var w := SlotWorld(key, map[key := 1], 3, 1, 1);
            Reachable(w) && Holding(w.threads[1]) && Holding(w.threads[2])
  {
    SlotStart(key);
    SlotAcquire(key, 0, 0, 0, 0);
    SlotRelease(key, 1, 0, 0);
    SlotAcquire(key, 2, 0, 0, 1);
    SlotRelease(key, 2, 1, 0);
    SlotAcquire(key, 3, 1, 0, 2);
  }
}
