/**
 * Where replayed answers come from, over every interleaving of requests, including those whose
 * second release or expiry breaks leader exclusivity.
 */
module ReplaySafety {
  import opened Lifecycle
  import opened Interleavings

  /** The thread has stored this record. */
  ghost predicate Stored(t: Thread, key: string, fingerprint: string, record: Record) {
    exists j :: 0 <= j < t.pc && j < |t.ops| && t.ops[j] == Complete(key, fingerprint, record)
  }

  ghost predicate StoredBySome(w: World, key: string, fingerprint: string, record: Record) {
    exists i :: 0 <= i < |w.threads| && Stored(w.threads[i], key, fingerprint, record)
  }

  /** The thread was told to replay. */
  predicate Told(t: Thread) {
    t.run.begin.Replayed? && t.pc > 0
  }

  /** Records in the store, and records handed out, were stored by some request of this world. */
  ghost predicate Traced(w: World) {
    && Sane(w)
    && (forall k :: k in w.stores.entries && w.stores.entries[k].response.Some? ==>
         StoredBySome(w, k, w.stores.entries[k].fingerprint, w.stores.entries[k].response.value))
    && (forall i :: 0 <= i < |w.threads| && Told(w.threads[i]) ==>
         StoredBySome(w, w.threads[i].run.begin.key, w.threads[i].run.begin.fingerprint, w.threads[i].run.begin.record))
  }

  /** Threads only move forward. */
  ghost predicate Later(w: World, v: World) {
    && |w.threads| <= |v.threads|
    && (forall i :: 0 <= i < |w.threads| ==> v.threads[i].ops == w.threads[i].ops && v.threads[i].pc >= w.threads[i].pc)
  }

  lemma StoredStays(w: World, v: World, key: string, fingerprint: string, record: Record)
    requires Later(w, v) && StoredBySome(w, key, fingerprint, record)
    ensures StoredBySome(v, key, fingerprint, record)
  {
    var i :| 0 <= i < |w.threads| && Stored(w.threads[i], key, fingerprint, record);
    var j :| 0 <= j < w.threads[i].pc && j < |w.threads[i].ops|
        && w.threads[i].ops[j] == Complete(key, fingerprint, record);
    assert v.threads[i].ops[j] == Complete(key, fingerprint, record);
  }

  lemma NextLater(w: World, step: Step)
    requires Enabled(w, step)
    ensures Later(w, Next(w, step))
  {
  }

  /** What one step can add: a stored record, by the thread that made the call. */
  lemma EntriesTraced(w: World, step: Step, k: string)
    requires Traced(w) && Enabled(w, step)
    requires var e := Next(w, step).stores.entries; k in e && e[k].response.Some?
    ensures var e := Next(w, step).stores.entries;
            StoredBySome(Next(w, step), k, e[k].fingerprint, e[k].response.value)
  {
    var v := Next(w, step);
    var e := v.stores.entries;
    NextLater(w, step);
    if k in w.stores.entries && w.stores.entries[k] == e[k] {
      StoredStays(w, v, k, e[k].fingerprint, e[k].response.value);
    } else {
      var t := v.threads[step.id];
      assert t.ops[t.pc - 1] == Complete(k, e[k].fingerprint, e[k].response.value);
      assert Stored(t, k, e[k].fingerprint, e[k].response.value);
    }
  }

  lemma ToldTraced(w: World, step: Step, i: nat)
    requires Traced(w) && Enabled(w, step) && i < |Next(w, step).threads| && Told(Next(w, step).threads[i])
    ensures var b := Next(w, step).threads[i].run.begin;
            StoredBySome(Next(w, step), b.key, b.fingerprint, b.record)
  {
    var v := Next(w, step);
    var b := v.threads[i].run.begin;
    NextLater(w, step);
    assert i < |w.threads|;
    if !Told(w.threads[i]) {
      var t := w.threads[i];
      assert step == Exec(i) && t.pc == 0;
      assert CallAt(t.run, 0, t.ops[0]);
      assert NextOp(t) == Begin(b.key, b.fingerprint, Replay(b.record));
    }
    StoredStays(w, v, b.key, b.fingerprint, b.record);
  }

  lemma TracedNext(w: World, step: Step)
    requires Traced(w) && Enabled(w, step)
    ensures Traced(Next(w, step))
  {
    var v := Next(w, step);
    SaneNext(w, step);
    forall k | k in v.stores.entries && v.stores.entries[k].response.Some?
      ensures StoredBySome(v, k, v.stores.entries[k].fingerprint, v.stores.entries[k].response.value)
    {
      EntriesTraced(w, step, k);
    }
    forall i | 0 <= i < |v.threads| && Told(v.threads[i])
      ensures StoredBySome(v, v.threads[i].run.begin.key, v.threads[i].run.begin.fingerprint,
        v.threads[i].run.begin.record)
    {
      ToldTraced(w, step, i);
    }
  }

  lemma {:induction false} TracedFinal(w: World, steps: seq<Step>)
    requires Traced(w) && Executable(w, steps)
    ensures Traced(Final(w, steps))
    decreases |steps|
  {
    if steps != [] {
      TracedNext(w, steps[0]);
      TracedFinal(Next(w, steps[0]), steps[1..]);
    }
  }

  /** Every thread runs the calls of a possible run. */
  ghost predicate Genuine(t: Thread) {
    Possible(t.run) && t.ops == Ops(t.run)
  }

  lemma {:induction false} GenuineFinal(w: World, steps: seq<Step>)
    requires Executable(w, steps) && forall i :: 0 <= i < |w.threads| ==> Genuine(w.threads[i])
    ensures forall i :: 0 <= i < |Final(w, steps).threads| ==> Genuine(Final(w, steps).threads[i])
    decreases |steps|
  {
    if steps != [] { GenuineFinal(Next(w, steps[0]), steps[1..]); }
  }

  lemma ReachableInvariants(w: World)
    requires Reachable(w)
    ensures Traced(w) && forall i :: 0 <= i < |w.threads| ==> Genuine(w.threads[i])
  {
    var steps :| Executable(EMPTY, steps) && Final(EMPTY, steps) == w;
    TracedFinal(EMPTY, steps);
    GenuineFinal(EMPTY, steps);
  }

  /** The request that earned a record: a leader whose whole before chain passed and whose handler answered it. */
  ghost predicate Earned(run: Run, key: string, fingerprint: string, record: Record) {
    && run.begin == Led(key, fingerprint) && run.failedAt.None?
    && run.handler.Responded? && run.handler.response.status == record.status
    && run.handler.response.body == record.body
    && 200 <= record.status < 300 && !record.eventStream
  }

  ghost predicate EarnedBySome(w: World, key: string, fingerprint: string, record: Record) {
    exists i :: 0 <= i < |w.threads| && Earned(w.threads[i].run, key, fingerprint, record)
  }

  lemma StoredEarned(w: World, key: string, fingerprint: string, record: Record)
    requires StoredBySome(w, key, fingerprint, record) && forall i :: 0 <= i < |w.threads| ==> Genuine(w.threads[i])
    ensures EarnedBySome(w, key, fingerprint, record)
  {
    var i :| 0 <= i < |w.threads| && Stored(w.threads[i], key, fingerprint, record);
    var t := w.threads[i];
    assert Genuine(t);
    CompleteExactly(t.run, key, fingerprint, record);
    assert Earned(t.run, key, fingerprint, record);
  }

  /** In every reachable world, every stored record was earned under its own key and fingerprint. */
  lemma RecordsEarned(w: World, key: string)
    requires Reachable(w) && key in w.stores.entries && w.stores.entries[key].response.Some?
    ensures EarnedBySome(w, key, w.stores.entries[key].fingerprint, w.stores.entries[key].response.value)
  {
    ReachableInvariants(w);
    StoredEarned(w, key, w.stores.entries[key].fingerprint, w.stores.entries[key].response.value);
  }

  /**
   * In every reachable world, a request that answered with a replay passed its whole before chain,
   * and the record was earned by a request with the same key and fingerprint.
   */
  lemma ReplaysEarned(w: World, i: nat, j: nat, record: Record)
    requires Reachable(w) && i < |w.threads| && j < w.threads[i].pc && j < |w.threads[i].ops|
    requires w.threads[i].ops[j] == Respond(FromReplay(record))
    ensures var run := w.threads[i].run;
            && run.failedAt.None? && run.begin.Replayed? && run.begin.record == record
            && EarnedBySome(w, run.begin.key, run.begin.fingerprint, record)
  {
    ReachableInvariants(w);
    var t := w.threads[i];
    assert Genuine(t) && t.ops[j] in t.ops;
    ReplayExactly(t.run, record);
    assert Told(t);
    StoredEarned(w, t.run.begin.key, t.run.begin.fingerprint, record);
  }
}
