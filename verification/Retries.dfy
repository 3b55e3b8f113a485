/**
 * What an idempotency key answers: from a leader's reservation over its completion to the retry that is
 * replayed, in every interleaving and for requests one after the other.
 */
module Retries {
  import opened Sorting
  import opened Lifecycle
  import opened Interleavings

  /** The thread is about to begin under the key, and its run records this answer. */
  ghost predicate Asks(w: World, i: nat, key: string, fingerprint: string, answer: BeginAnswer) {
    i < |w.threads| && w.threads[i].pc < |w.threads[i].ops| && NextOp(w.threads[i]) == Begin(key, fingerprint, answer)
  }

  /** Whoever begins under the key and fingerprint gets this answer and no other. */
  ghost predicate Gets(w: World, key: string, fingerprint: string, answer: BeginAnswer) {
    && (forall i, given :: Asks(w, i, key, fingerprint, given) ==> (Enabled(w, Exec(i)) <==> given == answer))
    && (forall given :: Agrees(w.stores, Begin(key, fingerprint, given)) <==> given == answer)
  }

  // -- a reservation in progress --------------------------------------------------------------------

  /**
   * Between a leader's begin and its resolution every other begin under the key is refused, whatever its
   * fingerprint, as long as nobody takes the reservation away.
   */
  lemma PendingConflicts(w: World, i: nat, more: seq<Step>, fingerprint: string)
    requires Owned(w) && Executable(w, more) && NoStray(w, more)
    requires i < |Final(w, more).threads| && Pending(Final(w, more).threads[i])
    ensures Gets(Final(w, more), Final(w, more).threads[i].run.begin.key, fingerprint, Conflict)
  {
    RunExact(w, more);
    var begin := Final(w, more).threads[i].run.begin;
    assert Reserved(Final(w, more).stores.entries, begin.key, begin.fingerprint);
  }

  /** What a key answers whenever reservations and leaders correspond: it is free, taken, or completed. */
  lemma KeyAnswers(w: World, key: string, fingerprint: string)
    requires Owned(w)
    ensures Gets(w, key, fingerprint,
      if key !in w.stores.entries then Leader
      else if w.stores.entries[key].response.Some? && w.stores.entries[key].fingerprint == fingerprint
      then Replay(w.stores.entries[key].response.value)
      else Conflict)
    ensures key !in w.stores.entries ==>
      forall i :: 0 <= i < |w.threads| && Pending(w.threads[i]) ==> w.threads[i].run.begin.key != key
    ensures key in w.stores.entries && w.stores.entries[key].response.None? ==>
      exists i :: Holds(w, i, key, w.stores.entries[key].fingerprint)
  {
  }

  // -- a completed request -----------------------------------------------------------------------------

  /** The key is completed with this record, and no leader is left that could change it. */
  ghost predicate Completed(w: World, key: string, fingerprint: string, record: Record) {
    && Sane(w)
    && key in w.stores.entries && w.stores.entries[key] == Entry(fingerprint, Some(record))
    && forall i :: 0 <= i < |w.threads| && Pending(w.threads[i]) ==> w.threads[i].run.begin.key != key
  }

  lemma CompletedExec(w: World, id: nat, key: string, fingerprint: string, record: Record)
    requires Completed(w, key, fingerprint, record) && Enabled(w, Exec(id))
    ensures Completed(Next(w, Exec(id)), key, fingerprint, record)
  {
    var t := w.threads[id];
    var v := Next(w, Exec(id));
    SaneNext(w, Exec(id));
    PendingAdvance(t);
    assert forall i :: 0 <= i < |w.threads| && i != id ==> v.threads[i] == w.threads[i];
  }

  lemma CompletedNext(w: World, step: Step, key: string, fingerprint: string, record: Record)
    requires Completed(w, key, fingerprint, record) && Enabled(w, step) && step != Expire(key)
    ensures Completed(Next(w, step), key, fingerprint, record)
  {
    SaneNext(w, step);
    match step
    case Exec(id) => CompletedExec(w, id, key, fingerprint, record);
    case Expire(_) =>
    case Spawn(run) =>
      var v := Next(w, step);
      assert forall i :: 0 <= i < |w.threads| ==> v.threads[i] == w.threads[i];
      assert !Pending(v.threads[|w.threads|]);
  }

  lemma {:induction false} CompletedFinal(w: World, steps: seq<Step>, key: string, fingerprint: string, record: Record)
    requires Completed(w, key, fingerprint, record) && Executable(w, steps) && Expire(key) !in steps
    ensures Completed(Final(w, steps), key, fingerprint, record)
    decreases |steps|
  {
    if steps != [] {
      assert steps[0] in steps;
      CompletedNext(w, steps[0], key, fingerprint, record);
      CompletedFinal(Next(w, steps[0]), steps[1..], key, fingerprint, record);
    }
  }

  /** The leader's own completion. */
  lemma Completing(w: World, id: nat)
    requires Owned(w) && Enabled(w, Exec(id)) && NextOp(w.threads[id]).Complete?
    ensures var op := NextOp(w.threads[id]); Completed(Next(w, Exec(id)), op.key, op.fingerprint, op.record)
  {
    var t, op := w.threads[id], NextOp(w.threads[id]);
    var v := Next(w, Exec(id));
    SaneNext(w, Exec(id));
    PendingAdvance(t);
    assert forall i :: 0 <= i < |w.threads| && i != id ==> v.threads[i] == w.threads[i];
    assert Reserved(w.stores.entries, op.key, op.fingerprint);
  }

  /**
   * Once a leader has completed its request, and until the entry expires, whatever all other requests do,
   * second releases included: a begin with the same key and fingerprint is told to replay the record, and one
   * with another fingerprint is refused.
   */
  lemma CompletedAnswers(w: World, id: nat, more: seq<Step>, key: string, fingerprint: string, record: Record)
    requires Owned(w) && Enabled(w, Exec(id)) && NextOp(w.threads[id]) == Complete(key, fingerprint, record)
    requires Executable(Next(w, Exec(id)), more) && Expire(key) !in more
    ensures var v := Final(Next(w, Exec(id)), more);
            && Gets(v, key, fingerprint, Replay(record))
            && forall other :: other != fingerprint ==> Gets(v, key, other, Conflict)
  {
    Completing(w, id);
    CompletedFinal(Next(w, Exec(id)), more, key, fingerprint, record);
  }

  // -- one request after the other -----------------------------------------------------------------------

  lemma {:induction false} ApplyConcat(s: Stores, a: seq<Op>, b: seq<Op>)
    ensures ApplyAll(s, a + b) == ApplyAll(ApplyAll(s, a), b)
    decreases |b|
  {
    if b == [] {
      assert a + b == a;
    } else {
      assert (a + b)[..|a + b| - 1] == a + b[..|b| - 1];
      ApplyConcat(s, a, b[..|b| - 1]);
    }
  }

  lemma ApplyOne(s: Stores, op: Op)
    ensures ApplyAll(s, [op]) == Apply(s, op)
  {
    assert [op][..0] == [];
  }

  predicate LeavesEntries(op: Op) {
    !op.Begin? && !Resolves(op)
  }

  lemma {:induction false} QuietCalls(s: Stores, ops: seq<Op>)
    requires forall op :: op in ops ==> LeavesEntries(op)
    ensures ApplyAll(s, ops).entries == s.entries
    decreases |ops|
  {
    if ops != [] {
      assert ops[|ops| - 1] in ops;
      QuietCalls(s, ops[..|ops| - 1]);
    }
  }

  lemma ReleaseCalls(s: Stores, run: Run)
    requires run.begin.Led?
    ensures ApplyAll(s, LeaderReleaseOps(run)).entries ==
      AfterIdemRelease(s.entries, run.begin.key, run.begin.fingerprint)
  {
    ApplyOne(s, ReleaseIdem(run.begin.key, run.begin.fingerprint));
  }

  /** The first call of a leader, and the calls up to the end of the before chain. */
  lemma OpeningLeaves(s: Stores, run: Run)
    requires run.begin.Led? && AllAgree(s, Ops(run))
    ensures run.begin.key !in s.entries
    ensures ApplyAll(s, BeginOps(run) + AcquireOps(run)).entries ==
      s.entries[run.begin.key := Entry(run.begin.fingerprint, None)]
  {
    var ops := Ops(run);
    OpeningOps(run);
    AgreesAt(s, ops, 0);
    assert ops[..0] == [];
    ApplyConcat(s, BeginOps(run), AcquireOps(run));
    ApplyOne(s, Begin(run.begin.key, run.begin.fingerprint, Leader));
    QuietCalls(ApplyAll(s, BeginOps(run)), AcquireOps(run));
  }

  lemma {:induction false} AgreesAt(s: Stores, ops: seq<Op>, k: nat)
    requires AllAgree(s, ops) && k < |ops|
    ensures Agrees(ApplyAll(s, ops[..k]), ops[k])
    decreases |ops|
  {
    var n := |ops| - 1;
    if k < n {
      AgreesAt(s, ops[..n], k);
      assert ops[..n][..k] == ops[..k];
    }
  }

  lemma FinalLeaves(s: Stores, run: Run, response: Response, answer: Answer)
    ensures ApplyAll(s, FinalOps(run, response, answer)).entries == ApplyAll(s, AfterOps(run, response)).entries
  {
    var a, b := AfterOps(run, response), SlotReleaseOps(run);
    var c := [Respond(if AfterFails(run, response) then FromProblem else answer)];
    ApplyConcat(s, a + b, c);
    ApplyConcat(s, a, b);
    QuietCalls(ApplyAll(s, a), b);
    QuietCalls(ApplyAll(s, a + b), c);
  }

  lemma AfterLeaves(s: Stores, run: Run, response: Response)
    requires run.begin.Led?
    ensures var key, fp := run.begin.key, run.begin.fingerprint;
            ApplyAll(s, AfterOps(run, response)).entries ==
              if AfterFails(run, response) then s.entries
              else if response.eventStream || !Cacheable(response.status) then AfterIdemRelease(s.entries, key, fp)
              else AfterComplete(s.entries, key, fp, Record(response.status, response.eventStream, response.body))
  {
    if !AfterFails(run, response) { ApplyOne(s, AfterOps(run, response)[0]); }
  }

  /** What the calls behind the before chain do to the leader's entry. */
  lemma ClosingLeaves(s: Stores, run: Run)
    requires Possible(run) && run.begin.Led?
    ensures var (response, answer) := Finalizes(run);
            var key, fp := run.begin.key, run.begin.fingerprint;
            var freed := AfterIdemRelease(s.entries, key, fp);
            ApplyAll(s, ClosingOps(run)).entries ==
              if run.failedAt.None? && run.handler.Cancelled? then freed
              else
                var e := if run.failedAt.Some? || run.handler.Panicked? then freed else s.entries;
                ApplyAll(s.(entries := e), AfterOps(run, response)).entries
  {
    var (response, answer) := Finalizes(run);
    var slots, releases, final := SlotReleaseOps(run), LeaderReleaseOps(run), FinalOps(run, response, answer);
    ClosingShape(run);
    if run.failedAt.Some? {
      ApplyConcat(s, slots + releases, final);
      ApplyConcat(s, slots, releases);
      QuietCalls(s, slots);
      ReleaseCalls(ApplyAll(s, slots), run);
      Closes(ApplyAll(s, slots + releases), run, response, answer);
    } else if run.handler.Panicked? {
      ApplyConcat(s, releases, final);
      ReleaseCalls(s, run);
      Closes(ApplyAll(s, releases), run, response, answer);
    } else if run.handler.Cancelled? {
      ReleaseCalls(s, run);
    } else {
      Closes(s, run, response, answer);
    }
  }

  /** The after chain looks at the entries only. */
  lemma Closes(s: Stores, run: Run, response: Response, answer: Answer)
    requires run.begin.Led?
    ensures forall active ::
      ApplyAll(s, FinalOps(run, response, answer)).entries ==
        ApplyAll(Stores(s.entries, active), AfterOps(run, response)).entries
  {
    FinalLeaves(s, run, response, answer);
    AfterLeaves(s, run, response);
    forall active
      ensures ApplyAll(s, AfterOps(run, response)).entries ==
        ApplyAll(Stores(s.entries, active), AfterOps(run, response)).entries
    {
      AfterLeaves(Stores(s.entries, active), run, response);
    }
  }

  /** A leader left alone that completes leaves its record under the key. */
  lemma CompletionLeaves(s: Stores, run: Run, record: Record)
    requires Possible(run) && run.begin.Led? && AllAgree(s, Ops(run))
    requires Complete(run.begin.key, run.begin.fingerprint, record) in Ops(run)
    ensures ApplyAll(s, Ops(run)).entries ==
      s.entries[run.begin.key := Entry(run.begin.fingerprint, Some(record))]
  {
    var begun := ApplyAll(s, BeginOps(run) + AcquireOps(run));
    CompleteExactly(run, run.begin.key, run.begin.fingerprint, record);
    OpeningLeaves(s, run);
    ApplyConcat(s, BeginOps(run) + AcquireOps(run), ClosingOps(run));
    ClosingLeaves(begun, run);
    AfterLeaves(begun, run, run.handler.response);
  }

  /** A leader left alone that neither completes nor releases leaves its reservation behind. */
  lemma PendingLeaves(s: Stores, run: Run)
    requires Possible(run) && run.begin.Led? && AllAgree(s, Ops(run)) && LeavesPending(run)
    ensures ApplyAll(s, Ops(run)).entries == s.entries[run.begin.key := Entry(run.begin.fingerprint, None)]
  {
    var begun := ApplyAll(s, BeginOps(run) + AcquireOps(run));
    LeaderResolution(run);
    OpeningLeaves(s, run);
    ApplyConcat(s, BeginOps(run) + AcquireOps(run), ClosingOps(run));
    ClosingLeaves(begun, run);
    AfterLeaves(begun, run, HandlerResponse(run));
  }

  lemma ReleasedEntries(entries: map<string, Entry>, key: string, fp: string)
    requires key !in entries
    ensures AfterIdemRelease(entries[key := Entry(fp, None)], key, fp) == entries
  {
  }

  lemma FinalCalls(run: Run, op: Op)
    requires Possible(run) && !(run.failedAt.None? && run.handler.Cancelled?)
    ensures var (response, answer) := Finalizes(run); op in AfterOps(run, response) ==> op in Ops(run)
  {
    ClosingShape(run);
  }

  /** The after chain of a leader that does not complete, on a released key and on a pending one. */
  lemma AfterReleases(s: Stores, begun: Stores, run: Run, response: Response)
    requires run.begin.Led? && run.begin.key !in s.entries
    requires begun.entries == s.entries[run.begin.key := Entry(run.begin.fingerprint, None)]
    requires forall op :: op in AfterOps(run, response) ==> !op.Complete?
    ensures ApplyAll(begun.(entries := s.entries), AfterOps(run, response)).entries == s.entries
    ensures !AfterFails(run, response) ==> ApplyAll(begun, AfterOps(run, response)).entries == s.entries
  {
    var freed, ops := begun.(entries := s.entries), AfterOps(run, response);
    AfterLeaves(freed, run, response);
    AfterLeaves(begun, run, response);
    ReleasedEntries(s.entries, run.begin.key, run.begin.fingerprint);
    if !AfterFails(run, response) { assert !ops[0].Complete?; }
  }

  /** A leader left alone that releases leaves no trace, however often it releases. */
  lemma ReleaseLeaves(s: Stores, run: Run)
    requires Possible(run) && run.begin.Led? && AllAgree(s, Ops(run)) && !LeavesPending(run)
    requires forall op :: op in Ops(run) ==> !op.Complete?
    ensures ApplyAll(s, Ops(run)).entries == s.entries
  {
    var key, fp := run.begin.key, run.begin.fingerprint;
    var begun := ApplyAll(s, BeginOps(run) + AcquireOps(run));
    var (response, answer) := Finalizes(run);
    LeaderResolution(run);
    OpeningLeaves(s, run);
    ApplyConcat(s, BeginOps(run) + AcquireOps(run), ClosingOps(run));
    ClosingLeaves(begun, run);
    ReleasedEntries(s.entries, key, fp);
    if run.failedAt.Some? || !run.handler.Cancelled? {
      forall op | op in AfterOps(run, response) ensures !op.Complete? { FinalCalls(run, op); }
      AfterReleases(s, begun, run, response);
    }
  }

  /**
   * A second request with the key, after the first is over: it replays the first one's record if that was
   * stored and the fingerprint is the same, leads if the first one released the key, and is refused otherwise.
   */
  lemma RetryAnswered(s: Stores, first: Run, plan: Plan, again: Run, fingerprint: string)
    requires Possible(first) && first.begin.Led? && AllAgree(s, Ops(first))
    requires Follows(again, plan, ApplyAll(s, Ops(first)))
    requires plan.idempotent == Some((first.begin.key, fingerprint)) && !plan.preflight
    requires ReachesStore(plan, again.failedAt, IDEMPOTENCY_AT)
    ensures var key, fp := first.begin.key, first.begin.fingerprint;
            && (forall record :: Complete(key, fp, record) in Ops(first) ==>
                 again.begin == if fingerprint == fp then Replayed(key, fp, record) else BeginRefused(key, fingerprint))
            && (LeavesPending(first) ==> again.begin == BeginRefused(key, fingerprint))
            && (!LeavesPending(first) && (forall op :: op in Ops(first) ==> !op.Complete?) ==>
                 again.begin == Led(key, fingerprint))
  {
    var key, fp := first.begin.key, first.begin.fingerprint;
    OpeningLeaves(s, first);
    forall record | Complete(key, fp, record) in Ops(first)
      ensures again.begin == if fingerprint == fp then Replayed(key, fp, record) else BeginRefused(key, fingerprint)
    {
      CompletionLeaves(s, first, record);
    }
    if LeavesPending(first) { PendingLeaves(s, first); }
    else if forall op :: op in Ops(first) ==> !op.Complete? { ReleaseLeaves(s, first); }
  }

  lemma ResolvesNothing(run: Run)
    requires Possible(run) && !run.begin.Led?
    ensures forall op :: op in Ops(run) ==> !Resolves(op)
  {
    forall j | 0 <= j < |Ops(run)| ensures !Resolves(Ops(run)[j]) { OpsShape(run, j); }
  }

  /**
   * The purpose of the protocol: the retry of a request that was answered and recorded is answered with the
   * record, exactly when its own other stages and its audit hook pass, and never touches the entry.
   */
  lemma RetryReplays(s: Stores, first: Run, record: Record, plan: Plan, again: Run)
    requires Possible(first) && first.begin.Led? && AllAgree(s, Ops(first))
    requires Complete(first.begin.key, first.begin.fingerprint, record) in Ops(first)
    requires Follows(again, plan, ApplyAll(s, Ops(first))) && PlanOk(plan)
    requires plan.idempotent == Some((first.begin.key, first.begin.fingerprint)) && !plan.preflight
    ensures Respond(FromReplay(record)) in Ops(again) <==> again.failedAt.None? && !plan.auditFails
    ensures forall op :: op in Ops(again) ==> !Resolves(op)
  {
    FollowsPossible(again, plan, ApplyAll(s, Ops(first)));
    ReplayExactly(again, record);
    if again.failedAt.None? { assert !StageFails(ApplyAll(s, Ops(first)), plan, IDEMPOTENCY_AT); }
    if ReachesStore(plan, again.failedAt, IDEMPOTENCY_AT) {
      RetryAnswered(s, first, plan, again, first.begin.fingerprint);
    }
    ResolvesNothing(again);
  }

  /** The code, twice in a row: a request that is answered and recorded, and its retry. */
  method ServeTwice(stores: Stores, plan: Plan, retry: Plan) returns (first: Run, again: Run, log: seq<Op>)
    requires PlanOk(plan) && PlanOk(retry)
    requires plan.idempotent.Some? && retry.idempotent == plan.idempotent && !retry.preflight
    ensures Follows(first, plan, stores) && Follows(again, retry, ApplyAll(stores, Ops(first)))
    ensures log == Ops(first) + Ops(again)
    ensures var (key, fp) := plan.idempotent.value;
            forall record :: Complete(key, fp, record) in Ops(first) ==>
              (Respond(FromReplay(record)) in Ops(again) <==> again.failedAt.None? && !retry.auditFails)
  {
    var host := new Host(stores);
    first := host.Middleware(plan);
    assert [] + Ops(first) == Ops(first);
    assert host.stores == ApplyAll(stores, Ops(first)) && AllAgree(stores, Ops(first));
    ghost var between := host.stores;
    again := host.Middleware(retry);
    log := host.log;
    forall record | Complete(plan.idempotent.value.0, plan.idempotent.value.1, record) in Ops(first)
      ensures Respond(FromReplay(record)) in Ops(again) <==> again.failedAt.None? && !retry.auditFails
    {
      CompleteExactly(first, plan.idempotent.value.0, plan.idempotent.value.1, record);
      RetryReplays(stores, first, record, retry, again);
    }
  }
}
