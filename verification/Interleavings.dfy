/**
 * Any number of requests interleaved over the shared idempotency and admission stores.
 *
 * Each request executes the store calls of its `Run` one at a time; a call is possible when the
 * answer recorded in the run is the one the stores give at that moment. `Expire` removes an
 * idempotency entry, as the retention purge and the size budget of the in-process store do.
 */
module Interleavings {
  import opened Sorting
  import opened Lifecycle

  /** A request: its run, the calls of that run, and how many were made. */
  datatype Thread = Thread(run: Run, ops: seq<Op>, pc: nat)

  datatype World = World(stores: Stores, threads: seq<Thread>)

  datatype Step = Spawn(run: Run) | Exec(id: nat) | Expire(key: string)

  const EMPTY := World(Stores(map[], map[]), [])

  ghost predicate Enabled(w: World, step: Step) {
    match step
    case Spawn(run) => Possible(run)
    case Exec(id) =>
      id < |w.threads| && w.threads[id].pc < |w.threads[id].ops| && Agrees(w.stores, NextOp(w.threads[id]))
    case Expire(key) => key in w.stores.entries
  }

  function NextOp(t: Thread): Op
    requires t.pc < |t.ops|
  {
    t.ops[t.pc]
  }

  function Advance(t: Thread): Thread {
    t.(pc := t.pc + 1)
  }

  ghost function Next(w: World, step: Step): World
    requires Enabled(w, step)
  {
    match step
    case Spawn(run) => World(w.stores, w.threads + [Thread(run, Ops(run), 0)])
    case Exec(id) => World(Apply(w.stores, NextOp(w.threads[id])), w.threads[id := Advance(w.threads[id])])
    case Expire(key) => World(w.stores.(entries := w.stores.entries - {key}), w.threads)
  }

  ghost predicate Executable(w: World, steps: seq<Step>)
    decreases |steps|
  {
    steps == [] || (Enabled(w, steps[0]) && Executable(Next(w, steps[0]), steps[1..]))
  }

  ghost function Final(w: World, steps: seq<Step>): World
    requires Executable(w, steps)
    decreases |steps|
  {
    if steps == [] then w else Final(Next(w, steps[0]), steps[1..])
  }

  ghost predicate Reachable(w: World) {
    exists steps :: Executable(EMPTY, steps) && Final(EMPTY, steps) == w
  }

  // -- shape of a run's calls ---------------------------------------------------------------

  lemma ClosingOp(run: Run, j: nat)
    requires Possible(run) && j < |ClosingOps(run)|
    ensures var op := ClosingOps(run)[j];
            && (op.Respond? || op.ReleaseSlot? || Resolves(op))
            && (op.ReleaseSlot? ==> run.slot.Slot? && op.key == run.slot.key)
            && (Resolves(op) ==> run.begin == Led(op.key, op.fingerprint))
            && (op.Complete? ==> j == 0)
  {
    var op := ClosingOps(run)[j];
    ClosingShape(run);
    var (response, answer) := Finalizes(run);
    FinalElements(run, response, answer);
    assert op in ClosingOps(run);
    if op.Complete? && (run.failedAt.Some? || run.handler.Panicked?) { assert run.failedAt.None?; }
  }

  lemma FinalElements(run: Run, response: Response, answer: Answer)
    ensures forall op :: op in FinalOps(run, response, answer) ==>
      || op.Respond? || (op.ReleaseSlot? && run.slot.Slot? && op.key == run.slot.key)
      || (Resolves(op) && run.begin == Led(op.key, op.fingerprint))
    ensures forall j ::
      0 <= j < |FinalOps(run, response, answer)| && FinalOps(run, response, answer)[j].Complete? ==> j == 0
  {
  }

  lemma ConcatAt<T>(a: seq<T>, b: seq<T>, c: seq<T>, j: nat)
    requires j < |a + b + c|
    ensures (a + b + c)[j] == if j < |a| then a[j] else if j < |a| + |b| then b[j - |a|] else c[j - |a| - |b|]
  {
  }

  lemma OpAt(run: Run, j: nat)
    requires j < |Ops(run)|
    ensures var a, b := |BeginOps(run)|, |AcquireOps(run)|;
            Ops(run)[j] == if j < a then BeginOps(run)[j]
                           else if j < a + b then AcquireOps(run)[j - a]
                           else ClosingOps(run)[j - a - b]
  {
    ConcatAt(BeginOps(run), AcquireOps(run), ClosingOps(run), j);
  }

  lemma Opening(run: Run)
    ensures |BeginOps(run)| == (if run.begin == NoBegin then 0 else 1)
      && |AcquireOps(run)| == (if run.slot == NoSlot then 0 else 1)
    ensures run.begin != NoBegin ==> BeginOps(run)[0].Begin?
    ensures run.slot != NoSlot ==> AcquireOps(run)[0].Acquire?
    ensures run.begin.Led? ==> BeginOps(run)[0] == Begin(run.begin.key, run.begin.fingerprint, Leader)
    ensures run.slot.Slot? ==> AcquireOps(run)[0] == Acquire(run.slot.key, run.slot.limit, true)
  {
  }

  /** Where each kind of call can stand in a run. */
  lemma OpsShape(run: Run, j: nat)
    requires Possible(run) && j < |Ops(run)|
    ensures var op := Ops(run)[j];
            && (op.Begin? <==> j == 0 && run.begin != NoBegin)
            && (op.Begin? ==> BeginOps(run) == [op])
            && (op.Acquire? <==> j == |BeginOps(run)| && run.slot != NoSlot)
            && (op.Acquire? ==> AcquireOps(run) == [op])
            && (Resolves(op) ==> j > 0 && run.begin == Led(op.key, op.fingerprint))
            && (op.ReleaseSlot? ==> run.slot.Slot? && op.key == run.slot.key && j > |BeginOps(run)|)
  {
    Opening(run);
    OpAt(run, j);
    var head := |BeginOps(run)| + |AcquireOps(run)|;
    if j >= head { ClosingOp(run, j - head); }
  }

  lemma OpeningOps(run: Run)
    ensures run.begin.Led? ==> Ops(run) != [] && Ops(run)[0] == Begin(run.begin.key, run.begin.fingerprint, Leader)
    ensures run.slot.Slot? ==>
      |BeginOps(run)| < |Ops(run)| && Ops(run)[|BeginOps(run)|] == Acquire(run.slot.key, run.slot.limit, true)
  {
    Opening(run);
    if run.begin.Led? { OpAt(run, 0); }
    if run.slot.Slot? { OpAt(run, |BeginOps(run)|); }
  }

  lemma CompleteOpensClosing(run: Run, j: nat)
    requires Possible(run) && j < |Ops(run)| && Ops(run)[j].Complete?
    ensures j == |BeginOps(run)| + |AcquireOps(run)|
  {
    Opening(run);
    OpAt(run, j);
    var head := |BeginOps(run)| + |AcquireOps(run)|;
    if j >= head { ClosingOp(run, j - head); }
  }

  lemma OpeningResolvesNothing(run: Run, i: nat)
    requires i < |BeginOps(run)| + |AcquireOps(run)| && i < |Ops(run)|
    ensures !Resolves(Ops(run)[i])
  {
    Opening(run);
    OpAt(run, i);
  }

  /** A record is stored at most once, before any release. */
  lemma CompleteFirst(run: Run, i: nat, j: nat)
    requires Possible(run) && i < j < |Ops(run)| && Ops(run)[j].Complete?
    ensures !Resolves(Ops(run)[i])
  {
    CompleteOpensClosing(run, j);
    OpeningResolvesNothing(run, i);
  }

  function AcquireIndex(run: Run): nat {
    if run.begin == NoBegin then 0 else 1
  }

  /** What the interleaving argument needs to know about the calls of a run. */
  ghost predicate Shaped(t: Thread) {
    && t.pc <= |t.ops|
    && (forall j :: 0 <= j < |t.ops| ==> CallAt(t.run, j, t.ops[j]))
    && (forall i, j :: 0 <= i < j < |t.ops| && t.ops[j].Complete? ==> !Resolves(t.ops[i]))
    && (t.run.begin.Led? ==> t.ops != [] && t.ops[0] == Begin(t.run.begin.key, t.run.begin.fingerprint, Leader))
    && (t.run.slot.Slot? ==>
      AcquireIndex(t.run) < |t.ops| && t.ops[AcquireIndex(t.run)] == Acquire(t.run.slot.key, t.run.slot.limit, true))
  }

  ghost predicate CallAt(run: Run, j: nat, op: Op) {
    && (op.Begin? <==> j == 0 && run.begin != NoBegin)
    && (op.Acquire? <==> j == AcquireIndex(run) && run.slot != NoSlot)
    && (op.Begin? ==> BeginOpsOf(run.begin) == [op])
    && (op.Acquire? ==> AcquireOpsOf(run.slot) == [op])
    && (Resolves(op) ==> j > 0 && run.begin == Led(op.key, op.fingerprint))
    && (op.ReleaseSlot? ==> run.slot.Slot? && op.key == run.slot.key && j > AcquireIndex(run))
  }

  /** Every possible run makes its calls in that shape. */
  lemma PossibleShaped(run: Run)
    requires Possible(run)
    ensures Shaped(Thread(run, Ops(run), 0))
  {
    Opening(run);
    OpeningOps(run);
    forall j | 0 <= j < |Ops(run)| ensures CallAt(run, j, Ops(run)[j]) { OpsShape(run, j); }
    forall i, j | 0 <= i < j < |Ops(run)| && Ops(run)[j].Complete?
      ensures !Resolves(Ops(run)[i])
    {
      CompleteFirst(run, i, j);
    }
  }

  ghost predicate Sane(w: World) {
    forall i :: 0 <= i < |w.threads| ==> Shaped(w.threads[i])
  }

  lemma SaneNext(w: World, step: Step)
    requires Sane(w) && Enabled(w, step)
    ensures Sane(Next(w, step))
  {
    if step.Spawn? { PossibleShaped(step.run); }
  }

  // -- leaders ------------------------------------------------------------------------------

  ghost predicate Resolved(t: Thread) {
    exists j :: 0 <= j < t.pc && j < |t.ops| && Resolves(t.ops[j])
  }

  /** A leader that has neither completed nor released its reservation yet. */
  ghost predicate Pending(t: Thread) {
    t.run.begin.Led? && t.pc > 0 && !Resolved(t)
  }

  lemma ResolvedAdvance(t: Thread)
    requires t.pc < |t.ops|
    ensures Resolved(Advance(t)) <==> Resolved(t) || Resolves(NextOp(t))
  {
    if Resolved(t) {
      var j :| 0 <= j < t.pc && j < |t.ops| && Resolves(t.ops[j]);
      assert Resolves(Advance(t).ops[j]);
    }
  }

  lemma PendingAdvance(t: Thread)
    requires Shaped(t) && t.pc < |t.ops|
    ensures CallAt(t.run, t.pc, NextOp(t))
    ensures Pending(Advance(t)) <==> t.run.begin.Led? && (t.pc == 0 || (Pending(t) && !Resolves(NextOp(t))))
    ensures NextOp(t).Complete? ==> Pending(t)
  {
    ResolvedAdvance(t);
    assert CallAt(t.run, t.pc, t.ops[t.pc]);
  }

  /** At most one unresolved leader per key. */
  ghost predicate Exclusive(w: World) {
    forall i, j :: 0 <= i < j < |w.threads| && Pending(w.threads[i]) && Pending(w.threads[j]) ==>
      w.threads[i].run.begin.key != w.threads[j].run.begin.key
  }

  ghost predicate Holds(w: World, i: int, key: string, fingerprint: string) {
    0 <= i < |w.threads| && Pending(w.threads[i]) && w.threads[i].run.begin == Led(key, fingerprint)
  }

  /** Unresolved leaders and reservations in progress correspond one to one. */
  ghost predicate Owned(w: World) {
    && Sane(w)
    && Exclusive(w)
    && (forall i :: 0 <= i < |w.threads| && Pending(w.threads[i]) ==>
         Reserved(w.stores.entries, w.threads[i].run.begin.key, w.threads[i].run.begin.fingerprint))
    && (forall k :: k in w.stores.entries && w.stores.entries[k].response.None? ==>
         exists i :: Holds(w, i, k, w.stores.entries[k].fingerprint))
  }

  /**
   * A call that takes a reservation away from a leader that still relies on it: a second release
   * that finds a reservation in progress under its key and fingerprint, or the expiry of one.
   */
  ghost predicate Stray(w: World, step: Step)
    requires Enabled(w, step)
  {
    match step
    case Spawn(_) => false
    case Expire(key) => w.stores.entries[key].response.None?
    case Exec(id) =>
      var op := NextOp(w.threads[id]);
      op.ReleaseIdem? && !Pending(w.threads[id]) && Reserved(w.stores.entries, op.key, op.fingerprint)
  }

  // A world after one thread advanced and the entries changed.
  function Moved(w: World, id: nat, stores: Stores): World
    requires id < |w.threads|
  {
    World(stores, w.threads[id := Advance(w.threads[id])])
  }

  /** A leader is admitted: nobody else was pending on that key. */
  lemma LeadOwned(w: World, id: nat)
    requires Owned(w) && Enabled(w, Exec(id)) && NextOp(w.threads[id]).Begin? && w.threads[id].run.begin.Led?
    ensures Owned(Next(w, Exec(id)))
  {
    var t := w.threads[id];
    var v := Next(w, Exec(id));
    PendingAdvance(t);
    SaneNext(w, Exec(id));
    assert forall i :: 0 <= i < |w.threads| && i != id ==> v.threads[i] == w.threads[i];
    assert t.run.begin.key !in w.stores.entries;
    assert Holds(v, id, t.run.begin.key, t.run.begin.fingerprint);
    forall k | k in v.stores.entries && v.stores.entries[k].response.None? && k != t.run.begin.key
      ensures exists i :: Holds(v, i, k, v.stores.entries[k].fingerprint)
    {
      var i :| Holds(w, i, k, w.stores.entries[k].fingerprint);
      assert Holds(v, i, k, v.stores.entries[k].fingerprint);
    }
  }

  lemma BeginOwned(w: World, id: nat)
    requires Owned(w) && Enabled(w, Exec(id)) && NextOp(w.threads[id]).Begin?
    ensures Owned(Next(w, Exec(id)))
  {
    if w.threads[id].run.begin.Led? {
      LeadOwned(w, id);
    } else {
      PendingAdvance(w.threads[id]);
      QuietOwned(w, id, Next(w, Exec(id)).stores);
    }
  }

  lemma ResolveEffect(s: Stores, op: Op)
    requires Resolves(op) && Reserved(s.entries, op.key, op.fingerprint)
    ensures var e := Apply(s, op).entries;
            && (op.key in e ==> e[op.key].response.Some?)
            && (forall k :: k != op.key ==> (k in e <==> k in s.entries))
            && (forall k :: k != op.key && k in e ==> e[k] == s.entries[k])
  {
  }

  /** A pending leader resolves its own reservation. */
  lemma ResolveOwned(w: World, id: nat)
    requires Owned(w) && Enabled(w, Exec(id)) && Resolves(NextOp(w.threads[id])) && Pending(w.threads[id])
    ensures Owned(Next(w, Exec(id)))
  {
    var t := w.threads[id];
    var v := Next(w, Exec(id));
    PendingAdvance(t);
    SaneNext(w, Exec(id));
    ResolveEffect(w.stores, NextOp(t));
    assert forall i :: 0 <= i < |w.threads| && i != id ==> v.threads[i] == w.threads[i];
    forall k | k in v.stores.entries && v.stores.entries[k].response.None?
      ensures exists i :: Holds(v, i, k, v.stores.entries[k].fingerprint)
    {
      var i :| Holds(w, i, k, w.stores.entries[k].fingerprint);
      assert Holds(v, i, k, v.stores.entries[k].fingerprint);
    }
  }

  /** A call that leaves the entries alone, made by a thread whose pending status does not change. */
  lemma QuietOwned(w: World, id: nat, stores: Stores)
    requires Owned(w) && id < |w.threads| && w.threads[id].pc < |w.threads[id].ops|
    requires stores.entries == w.stores.entries && (Pending(Advance(w.threads[id])) <==> Pending(w.threads[id]))
    ensures Owned(Moved(w, id, stores))
  {
    var v := Moved(w, id, stores);
    assert forall i :: 0 <= i < |w.threads| && i != id ==> v.threads[i] == w.threads[i];
    forall k | k in v.stores.entries && v.stores.entries[k].response.None?
      ensures exists i :: Holds(v, i, k, v.stores.entries[k].fingerprint)
    {
      var i :| Holds(w, i, k, w.stores.entries[k].fingerprint);
      assert Holds(v, i, k, v.stores.entries[k].fingerprint);
    }
  }

  lemma SpawnOwned(w: World, run: Run)
    requires Owned(w) && Possible(run)
    ensures Owned(Next(w, Spawn(run)))
  {
    var v := Next(w, Spawn(run));
    SaneNext(w, Spawn(run));
    assert forall i :: 0 <= i < |w.threads| ==> v.threads[i] == w.threads[i];
    assert !Pending(v.threads[|w.threads|]);
    forall k | k in v.stores.entries && v.stores.entries[k].response.None?
      ensures exists i :: Holds(v, i, k, v.stores.entries[k].fingerprint)
    {
      var i :| Holds(w, i, k, w.stores.entries[k].fingerprint);
      assert Holds(v, i, k, v.stores.entries[k].fingerprint);
    }
  }

  /** Expiry is harmless exactly when the entry is a finished record. */
  lemma ExpireExact(w: World, key: string)
    requires Owned(w) && Enabled(w, Expire(key))
    ensures Owned(Next(w, Expire(key))) <==> !Stray(w, Expire(key))
  {
    var v := Next(w, Expire(key));
    if Stray(w, Expire(key)) {
      var i :| Holds(w, i, key, w.stores.entries[key].fingerprint);
      assert Pending(v.threads[i]) && v.threads[i].run.begin.key == key;
      assert !Reserved(v.stores.entries, key, v.threads[i].run.begin.fingerprint);
    } else {
      forall k | k in v.stores.entries && v.stores.entries[k].response.None?
        ensures exists i :: Holds(v, i, k, v.stores.entries[k].fingerprint)
      {
        var i :| Holds(w, i, k, w.stores.entries[k].fingerprint);
        assert Holds(v, i, k, v.stores.entries[k].fingerprint);
      }
    }
  }

  /** A second release is harmless exactly when it finds nothing in progress. */
  lemma SecondReleaseExact(w: World, id: nat)
    requires Owned(w) && Enabled(w, Exec(id)) && NextOp(w.threads[id]).ReleaseIdem? && !Pending(w.threads[id])
    ensures Owned(Next(w, Exec(id))) <==> !Stray(w, Exec(id))
  {
    var t := w.threads[id];
    var v := Next(w, Exec(id));
    var op := NextOp(t);
    PendingAdvance(t);
    if Stray(w, Exec(id)) {
      var i :| Holds(w, i, op.key, w.stores.entries[op.key].fingerprint);
      assert i != id && v.threads[i] == w.threads[i];
      assert !Reserved(v.stores.entries, op.key, v.threads[i].run.begin.fingerprint);
    } else {
      QuietOwned(w, id, v.stores);
    }
  }

  /** The exact condition, step by step: the correspondence survives exactly the steps that are not stray. */
  lemma StepExact(w: World, step: Step)
    requires Owned(w) && Enabled(w, step)
    ensures Owned(Next(w, step)) <==> !Stray(w, step)
  {
    match step
    case Spawn(run) => SpawnOwned(w, run);
    case Expire(key) => ExpireExact(w, key);
    case Exec(id) =>
      var t := w.threads[id];
      var op := NextOp(t);
      PendingAdvance(t);
      if op.Begin? { BeginOwned(w, id); }
      else if Resolves(op) && Pending(t) { ResolveOwned(w, id); }
      else if Resolves(op) { SecondReleaseExact(w, id); }
      else {
        QuietOwned(w, id, Next(w, step).stores);
      }
  }

  ghost predicate OwnedThroughout(w: World, steps: seq<Step>)
    requires Executable(w, steps)
    decreases |steps|
  {
    Owned(w) && (steps == [] || OwnedThroughout(Next(w, steps[0]), steps[1..]))
  }

  ghost predicate NoStray(w: World, steps: seq<Step>)
    requires Executable(w, steps)
    decreases |steps|
  {
    steps == [] || (!Stray(w, steps[0]) && NoStray(Next(w, steps[0]), steps[1..]))
  }

  /** Over whole runs: exclusivity with ownership holds throughout exactly when no step is stray. */
  lemma {:induction false} RunExact(w: World, steps: seq<Step>)
    requires Owned(w) && Executable(w, steps)
    ensures OwnedThroughout(w, steps) <==> NoStray(w, steps)
    ensures NoStray(w, steps) ==> Owned(Final(w, steps)) && Exclusive(Final(w, steps))
    decreases |steps|
  {
    if steps != [] {
      StepExact(w, steps[0]);
      if !Stray(w, steps[0]) { RunExact(Next(w, steps[0]), steps[1..]); }
      else { assert !OwnedThroughout(Next(w, steps[0]), steps[1..]); }
    }
  }

  // -- runs that release once ----------------------------------------------------------------

  ghost predicate OnceEach(w: World) {
    forall i :: 0 <= i < |w.threads| ==> CountResolves(w.threads[i].ops) <= 1
  }

  lemma OnceNeverStray(w: World, id: nat)
    requires Owned(w) && OnceEach(w) && Enabled(w, Exec(id))
    ensures !Stray(w, Exec(id))
  {
    var t := w.threads[id];
    PendingAdvance(t);
    if NextOp(t).ReleaseIdem? && !Pending(t) {
      var j :| 0 <= j < t.pc && j < |t.ops| && Resolves(t.ops[j]);
      TwoResolves(t.ops, j, t.pc);
    }
  }

  /** No reservation in progress is expired along the run. */
  ghost predicate KeepsReservations(w: World, steps: seq<Step>)
    requires Executable(w, steps)
    decreases |steps|
  {
    steps == [] || ((steps[0].Expire? ==> !Stray(w, steps[0])) && KeepsReservations(Next(w, steps[0]), steps[1..]))
  }

  /** If every request resolves at most once, leaders are exclusive in every interleaving. */
  lemma {:induction false} OnceExclusive(w: World, steps: seq<Step>)
    requires Owned(w) && OnceEach(w) && Executable(w, steps) && KeepsReservations(w, steps)
    requires forall s :: s in steps && s.Spawn? ==> CountResolves(Ops(s.run)) <= 1
    ensures Exclusive(Final(w, steps))
    decreases |steps|
  {
    if steps != [] {
      var step := steps[0];
      if step.Exec? { OnceNeverStray(w, step.id); }
      StepExact(w, step);
      OnceExclusive(Next(w, step), steps[1..]);
    }
  }

  // -- extending a run by one step ------------------------------------------------------------

  lemma {:induction false} Append(w: World, steps: seq<Step>, step: Step)
    requires Executable(w, steps) && Enabled(Final(w, steps), step)
    ensures Executable(w, steps + [step]) && Final(w, steps + [step]) == Next(Final(w, steps), step)
    decreases |steps|
  {
    var longer := steps + [step];
    if steps == [] {
      assert longer == [step] && longer[1..] == [];
    } else {
      assert longer[0] == steps[0] && longer[1..] == steps[1..] + [step];
      Append(Next(w, steps[0]), steps[1..], step);
    }
  }

  lemma ReachableNext(w: World, step: Step, v: World)
    requires Reachable(w) && Enabled(w, step) && v == Next(w, step)
    ensures Reachable(v)
  {
    var steps :| Executable(EMPTY, steps) && Final(EMPTY, steps) == w;
    Append(EMPTY, steps, step);
  }

  lemma ReachableEmpty()
    ensures Reachable(EMPTY)
  {
    assert Executable(EMPTY, []) && Final(EMPTY, []) == EMPTY;
  }

  /** A request whose next call leaves `stores` behind. */
  lemma Made(w: World, id: nat, stores: Stores, v: World)
    requires Reachable(w) && Enabled(w, Exec(id)) && stores == Apply(w.stores, NextOp(w.threads[id]))
    requires v == World(stores, w.threads[id := Advance(w.threads[id])])
    ensures Reachable(v)
  {
    ReachableNext(w, Exec(id), v);
  }

  // -- a second release that takes a later leader's reservation ---------------------------------

  function Problem(): Response {
    Response(403, false, 0, "")
  }

  /** A leader whose Authorization stage then fails. */
  function Refused(key: string, fp: string): Run {
    Run(false, Some(11), Led(key, fp), NoSlot, TimedOut, Problem(), false, 1000)
  }

  /** A leader whose handler answers. */
  function Served(key: string, fp: string): Run {
    Run(false, None, Led(key, fp), NoSlot, Responded(Response(200, false, 0, "")), Problem(), false, 1000)
  }

  function RefusedOps(key: string, fp: string): seq<Op> {
    [Begin(key, fp, Leader), ReleaseIdem(key, fp), ReleaseIdem(key, fp), Respond(FromProblem)]
  }

  function ServedOps(key: string, fp: string): seq<Op> {
    [Begin(key, fp, Leader),
     Complete(key, fp, Record(200, false, "")),
     Respond(FromHandler(Response(200, false, 0, "")))]
  }

  lemma TraceOps(key: string, fp: string)
    ensures Possible(Refused(key, fp)) && Possible(Served(key, fp))
    ensures Ops(Refused(key, fp)) == RefusedOps(key, fp) && Ops(Served(key, fp)) == ServedOps(key, fp)
  {
  }

  function TraceWorld(key: string, fp: string, entries: map<string, Entry>, a: nat, b: nat, c: nat): World {
    var refused, served := Refused(key, fp), Served(key, fp);
    World(Stores(entries, map[]),
          [Thread(refused, RefusedOps(key, fp), a),
           Thread(served, ServedOps(key, fp), b),
           Thread(served, ServedOps(key, fp), c)])
  }

  lemma TraceStart(key: string, fp: string)
    ensures Reachable(TraceWorld(key, fp, map[], 0, 0, 0))
  {
    var refused, served := Refused(key, fp), Served(key, fp);
    TraceOps(key, fp);
    ReachableEmpty();
    var a := Thread(refused, RefusedOps(key, fp), 0);
    var b := Thread(served, ServedOps(key, fp), 0);
    var w1, w2 := World(EMPTY.stores, [a]), World(EMPTY.stores, [a, b]);
    ReachableNext(EMPTY, Spawn(refused), w1);
    ReachableNext(w1, Spawn(served), w2);
    ReachableNext(w2, Spawn(served), TraceWorld(key, fp, map[], 0, 0, 0));
  }

  /** One of the three requests becomes the leader. */
  lemma TraceBegin(key: string, fp: string, a: nat, b: nat, c: nat, id: nat)
    requires Reachable(TraceWorld(key, fp, map[], a, b, c)) && id <= 2 && [a, b, c][id] == 0
    ensures Reachable(TraceWorld(key, fp, map[key := Entry(fp, None)],
                                 if id == 0 then 1 else a, if id == 1 then 1 else b, if id == 2 then 1 else c))
  {
    var w := TraceWorld(key, fp, map[], a, b, c);
    var v := TraceWorld(key, fp, map[key := Entry(fp, None)],
                        if id == 0 then 1 else a, if id == 1 then 1 else b, if id == 2 then 1 else c);
    assert v.threads == w.threads[id := Advance(w.threads[id])];
    Made(w, id, v.stores, v);
  }

  /** The refused request releases, for the first or the second time. */
  lemma TraceRelease(key: string, fp: string, a: nat, b: nat, c: nat)
    requires Reachable(TraceWorld(key, fp, map[key := Entry(fp, None)], a, b, c)) && 1 <= a <= 2
    ensures Reachable(TraceWorld(key, fp, map[], a + 1, b, c))
  {
    var w := TraceWorld(key, fp, map[key := Entry(fp, None)], a, b, c);
    var v := TraceWorld(key, fp, map[], a + 1, b, c);
    assert v.threads == w.threads[0 := Advance(w.threads[0])];
    assert map[key := Entry(fp, None)] - {key} == map[];
    Made(w, 0, v.stores, v);
  }

  /** Two unresolved leaders on one key and fingerprint: the second release of a refused request. */
  lemma ExclusivityFails(key: string, fp: string)
    ensures var w := TraceWorld(key, fp, map[key := Entry(fp, None)], 3, 1, 1);
            && Reachable(w) && !Exclusive(w)
            && Pending(w.threads[1]) && Pending(w.threads[2]) && w.threads[1].run.begin == w.threads[2].run.begin
  {
    TraceStart(key, fp);
    TraceBegin(key, fp, 0, 0, 0, 0);
    TraceRelease(key, fp, 1, 0, 0);
    TraceBegin(key, fp, 2, 0, 0, 1);
    TraceRelease(key, fp, 2, 1, 0);
    TraceBegin(key, fp, 3, 1, 0, 2);
    TwoPending(key, fp);
  }

  lemma TwoPending(key: string, fp: string)
    ensures var w := TraceWorld(key, fp, map[key := Entry(fp, None)], 3, 1, 1);
            Pending(w.threads[1]) && Pending(w.threads[2])
  {
  }

  // -- exactly when exclusivity is lost -----------------------------------------------------------

  /** Whatever harmless steps follow, leaders stay exclusive. */
  ghost predicate StaysExclusive(w: World) {
    forall more :: Executable(w, more) && NoStray(w, more) ==> Exclusive(Final(w, more))
  }

  lemma OwnedStaysExclusive(w: World)
    requires Owned(w)
    ensures StaysExclusive(w)
  {
    forall more | Executable(w, more) && NoStray(w, more) ensures Exclusive(Final(w, more)) { RunExact(w, more); }
  }

  /** A stray step orphans a leader: its key is free while it is still unresolved. */
  lemma StrayOrphans(w: World, step: Step) returns (i: nat)
    requires Owned(w) && Enabled(w, step) && Stray(w, step)
    ensures i < |Next(w, step).threads| && Pending(Next(w, step).threads[i])
    ensures Next(w, step).threads[i].run.begin.key !in Next(w, step).stores.entries
  {
    var key, fp;
    match step {
      case Expire(k) => key, fp := k, w.stores.entries[k].fingerprint;
      case Exec(id) => key, fp := NextOp(w.threads[id]).key, NextOp(w.threads[id]).fingerprint;
    }
    i :| Holds(w, i, key, fp);
    if step.Exec? { PendingAdvance(w.threads[step.id]); }
  }

  lemma TwoSteps(w: World, first: Step, second: Step)
    requires Enabled(w, first) && Enabled(Next(w, first), second)
    ensures Executable(w, [first, second]) && Final(w, [first, second]) == Next(Next(w, first), second)
    ensures NoStray(w, [first, second]) <==> !Stray(w, first) && !Stray(Next(w, first), second)
  {
    OneStep(Next(w, first), second);
    assert [first, second][1..] == [second];
  }

  lemma OneStep(w: World, step: Step)
    requires Enabled(w, step)
    ensures Executable(w, [step]) && Final(w, [step]) == Next(w, step)
    ensures NoStray(w, [step]) <==> !Stray(w, step)
  {
    assert [step][1..] == [];
    assert Executable(Next(w, step), []) && NoStray(Next(w, step), []);
  }

  /** A fresh request on the freed key becomes a second leader. */
  lemma OrphanIsDoubled(w: World, i: nat)
    requires i < |w.threads| && Pending(w.threads[i]) && w.threads[i].run.begin.key !in w.stores.entries
    ensures !StaysExclusive(w)
  {
    var key, fp := w.threads[i].run.begin.key, w.threads[i].run.begin.fingerprint;
    var run, n := Served(key, fp), |w.threads|;
    TraceOps(key, fp);
    var v := Next(w, Spawn(run));
    assert v.threads[n] == Thread(run, ServedOps(key, fp), 0) && v.threads[i] == w.threads[i];
    TwoSteps(w, Spawn(run), Exec(n));
    var u := Next(v, Exec(n));
    assert u.threads[i] == w.threads[i] && Pending(u.threads[n]) && u.threads[n].run.begin.key == key;
    assert !Exclusive(u);
    assert !(Executable(w, [Spawn(run), Exec(n)]) && NoStray(w, [Spawn(run), Exec(n)])
             ==> Exclusive(Final(w, [Spawn(run), Exec(n)])));
  }

  /**
   * The exact condition for exclusivity, step by step: leaders stay exclusive under everything that
   * may harmlessly follow exactly when the step is not stray.
   */
  lemma ExclusiveExactly(w: World, step: Step)
    requires Owned(w) && Enabled(w, step)
    ensures StaysExclusive(Next(w, step)) <==> !Stray(w, step)
  {
    StepExact(w, step);
    if Stray(w, step) {
      var i := StrayOrphans(w, step);
      OrphanIsDoubled(Next(w, step), i);
    } else {
      OwnedStaysExclusive(Next(w, step));
    }
  }

  ghost predicate SecureThroughout(w: World, steps: seq<Step>)
    requires Executable(w, steps)
    decreases |steps|
  {
    StaysExclusive(w) && (steps == [] || SecureThroughout(Next(w, steps[0]), steps[1..]))
  }

  /** Over whole runs: exclusivity is secure at every moment exactly when no step is stray. */
  lemma {:induction false} RunExclusiveExactly(w: World, steps: seq<Step>)
    requires Owned(w) && Executable(w, steps)
    ensures SecureThroughout(w, steps) <==> NoStray(w, steps)
    decreases |steps|
  {
    OwnedStaysExclusive(w);
    if steps != [] {
      StepExact(w, steps[0]);
      ExclusiveExactly(w, steps[0]);
      if !Stray(w, steps[0]) { RunExclusiveExactly(Next(w, steps[0]), steps[1..]); }
      else { assert !SecureThroughout(Next(w, steps[0]), steps[1..]); }
    }
  }

  /** From the start: every run of every set of requests. */
  lemma ExclusivityExactly(steps: seq<Step>)
    requires Executable(EMPTY, steps)
    ensures SecureThroughout(EMPTY, steps) <==> NoStray(EMPTY, steps)
    ensures OwnedThroughout(EMPTY, steps) <==> NoStray(EMPTY, steps)
  {
    assert Owned(EMPTY);
    RunExact(EMPTY, steps);
    RunExclusiveExactly(EMPTY, steps);
  }

  // -- the middleware's run is a run of this machine ------------------------------------------------

  function Execs(id: nat, n: nat): seq<Step> {
    seq(n, i => Exec(id))
  }

  /** What thread `id` leaves behind after its first `k` calls, made without interruption. */
  function After(w: World, id: nat, k: nat): World
    requires id < |w.threads| && k <= |w.threads[id].ops|
  {
    World(ApplyAll(w.stores, w.threads[id].ops[..k]), w.threads[id := w.threads[id].(pc := k)])
  }

  /** A request left alone makes its calls exactly when the stores give the answers its run records. */
  lemma {:induction false} AloneExactly(w: World, id: nat, k: nat)
    requires id < |w.threads| && w.threads[id].pc == 0 && k <= |w.threads[id].ops|
    ensures Executable(w, Execs(id, k)) <==> AllAgree(w.stores, w.threads[id].ops[..k])
    ensures Executable(w, Execs(id, k)) ==> Final(w, Execs(id, k)) == After(w, id, k)
    decreases k
  {
    var ops := w.threads[id].ops;
    if k == 0 {
      assert After(w, id, 0).threads == w.threads;
    } else {
      AloneExactly(w, id, k - 1);
      assert Execs(id, k) == Execs(id, k - 1) + [Exec(id)];
      assert ops[..k][..k - 1] == ops[..k - 1] && ops[..k][k - 1] == ops[k - 1];
      AppendExactly(w, Execs(id, k - 1), Exec(id));
      if Executable(w, Execs(id, k - 1)) {
        var v := After(w, id, k - 1);
        assert NextOp(v.threads[id]) == ops[k - 1];
        if Enabled(v, Exec(id)) { assert Next(v, Exec(id)).threads == After(w, id, k).threads; }
      }
    }
  }

  lemma {:induction false} AppendExactly(w: World, steps: seq<Step>, step: Step)
    ensures Executable(w, steps + [step]) <==> Executable(w, steps) && Enabled(Final(w, steps), step)
    ensures Executable(w, steps + [step]) ==> Final(w, steps + [step]) == Next(Final(w, steps), step)
    decreases |steps|
  {
    var longer := steps + [step];
    if steps == [] {
      assert longer == [step] && longer[1..] == [];
    } else {
      assert longer[0] == steps[0] && longer[1..] == steps[1..] + [step];
      if Enabled(w, steps[0]) { AppendExactly(Next(w, steps[0]), steps[1..], step); }
    }
  }

  /** A lone request in this machine: its spawn, and all of its calls. */
  ghost predicate RunsAlone(stores: Stores, run: Run, after: Stores) {
    var w := World(stores, [Thread(run, Ops(run), 0)]);
    && Possible(run) && w == Next(World(stores, []), Spawn(run))
    && Executable(w, Execs(0, |Ops(run)|))
    && Final(w, Execs(0, |Ops(run)|)) == World(after, [Thread(run, Ops(run), |Ops(run)|)])
  }

  lemma AgreeingRunsAlone(stores: Stores, run: Run)
    requires Possible(run) && AllAgree(stores, Ops(run))
    ensures RunsAlone(stores, run, ApplyAll(stores, Ops(run)))
  {
    var w, ops := World(stores, [Thread(run, Ops(run), 0)]), Ops(run);
    assert ops[..|ops|] == ops;
    AloneExactly(w, 0, |ops|);
    assert [] + [Thread(run, ops, 0)] == [Thread(run, ops, 0)];
  }

  /** The middleware on its own stores: the machine can make the same calls and ends with the same stores. */
  method Serve(stores: Stores, plan: Plan) returns (host: Host, run: Run)
    requires PlanOk(plan)
    ensures Follows(run, plan, stores) && RunsAlone(stores, run, host.stores)
  {
    host := new Host(stores);
    run := host.Middleware(plan);
    assert [] + Ops(run) == Ops(run);
    AgreeingRunsAlone(stores, run);
  }
}
