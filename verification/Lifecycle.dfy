/**
 * One HTTP request through `web_request_context_middleware` and the standard interceptor chain,
 * reduced to the calls it makes on the two shared stores (idempotency and tenant admission).
 *
 * Everything a request cannot control (which stage fails, what the stores answer, how the handler
 * ends, whether audit emission fails) is recorded in a `Run`; `Ops` gives the store calls of the
 * run in order, and the methods of `Host` are the code that makes them.
 */
module Lifecycle {
  import opened Sorting
  import opened AdmissionStore

  // -- the standard chain -------------------------------------------------------------------

  datatype Kind =
    | RequestIdentity | SurfaceClassification | Cors | MethodGuard | CrossSiteRequest
    | SqlInjectionGuard | RequestSizeLimit | RateLimit | Idempotency | RequestContextResolution
    | Authentication | Authorization | TenantIsolation | ContextInjection | Logging | Audit
    | HeaderSecurity | ResponseIdentity

  /** `WebCallInterceptorChain::standard`: before hooks in this order, after hooks in reverse. */
  const STANDARD: seq<Kind> :=
    [RequestIdentity, SurfaceClassification, Cors, MethodGuard, CrossSiteRequest, SqlInjectionGuard,
     RequestSizeLimit, RateLimit, Idempotency, RequestContextResolution, Authentication, Authorization,
     TenantIsolation, ContextInjection, Logging, Audit, HeaderSecurity, ResponseIdentity]

  const STAGES := 18
  const IDEMPOTENCY_AT := 8
  const AUTHENTICATION_AT := 10
  const AUDIT_AT := 15

  /** The only stages with store effects or fallible after hooks, and where they sit. */
  lemma StandardPositions()
    ensures |STANDARD| == STAGES
    ensures forall i :: 0 <= i < STAGES ==> (STANDARD[i] == Idempotency <==> i == IDEMPOTENCY_AT)
    ensures forall i :: 0 <= i < STAGES ==> (STANDARD[i] == Authentication <==> i == AUTHENTICATION_AT)
    ensures forall i :: 0 <= i < STAGES ==> (STANDARD[i] == Audit <==> i == AUDIT_AT)
  {
  }

  // -- responses and records ----------------------------------------------------------------

  datatype Response = Response(status: nat, eventStream: bool, bodyBytes: nat, body: string)

  datatype Record = Record(status: nat, eventStream: bool, body: string)

  datatype BeginAnswer = Leader | Replay(record: Record) | Conflict

  datatype Entry = Entry(fingerprint: string, response: Option<Record>)

  /** The idempotency calls on the in-process store; an expired or evicted entry is simply absent. */
  function BeginOn(entries: map<string, Entry>, key: string, fingerprint: string): BeginAnswer {
    if key !in entries then Leader
    else if entries[key].fingerprint == fingerprint && entries[key].response.Some? then
      Replay(entries[key].response.value)
    else Conflict
  }

  function AfterBegin(entries: map<string, Entry>, key: string, fingerprint: string): map<string, Entry> {
    if key !in entries then entries[key := Entry(fingerprint, None)] else entries
  }

  function AfterComplete(entries: map<string, Entry>, key: string, fingerprint: string, record: Record):
    map<string, Entry>
  {
    if key in entries && entries[key].fingerprint == fingerprint
    then entries[key := Entry(fingerprint, Some(record))]
    else entries
  }

  /** A reservation in progress under this key and fingerprint. */
  predicate Reserved(entries: map<string, Entry>, key: string, fingerprint: string) {
    key in entries && entries[key].fingerprint == fingerprint && entries[key].response.None?
  }

  function AfterIdemRelease(entries: map<string, Entry>, key: string, fingerprint: string): map<string, Entry> {
    if Reserved(entries, key, fingerprint) then entries - {key} else entries
  }

  // -- runs ---------------------------------------------------------------------------------

  datatype BeginResult = NoBegin | Led(key: string, fingerprint: string)
                       | Replayed(key: string, fingerprint: string, record: Record)
                       | BeginRefused(key: string, fingerprint: string)

  datatype SlotResult = NoSlot | Slot(key: string, limit: nat) | SlotRefused(key: string, limit: nat)

  datatype Handler = Responded(response: Response) | TimedOut | Panicked | Cancelled

  datatype Run = Run(
    preflight: bool,
    failedAt: Option<nat>,      // index of the before stage that failed
    begin: BeginResult,         // what the Idempotency stage did
    slot: SlotResult,           // what the Authentication stage did
    handler: Handler,           // looked at only when the handler runs
    problem: Response,          // the problem response of this run, if it comes to one
    auditFails: bool,
    maxCachedBytes: nat)

  /** Runs the code can produce: a stage that fails had no store effect, and later ones never ran. */
  ghost predicate Possible(run: Run) {
    && (run.failedAt.Some? ==> run.failedAt.value < STAGES)
    && (run.preflight ==> run.begin == NoBegin)
    && run.problem.status >= 400 && !run.problem.eventStream
    && (run.begin.Led? || run.begin.Replayed? ==> run.failedAt.None? || run.failedAt.value > IDEMPOTENCY_AT)
    && (run.begin.BeginRefused? ==> run.failedAt == Some(IDEMPOTENCY_AT))
    && (run.slot.Slot? ==> run.failedAt.None? || run.failedAt.value > AUTHENTICATION_AT)
    && (run.slot.SlotRefused? ==> run.failedAt == Some(AUTHENTICATION_AT))
  }

  datatype Answer = FromProblem | FromPreflight | FromReplay(record: Record) | FromHandler(response: Response)

  datatype Op =
    | Begin(key: string, fingerprint: string, answer: BeginAnswer)
    | Complete(key: string, fingerprint: string, record: Record)
    | ReleaseIdem(key: string, fingerprint: string)
    | Acquire(key: string, limit: nat, granted: bool)
    | ReleaseSlot(key: string)
    | Respond(with: Answer)

  function BeginOpsOf(begin: BeginResult): seq<Op> {
    match begin
    case NoBegin => []
    case Led(key, fp) => [Begin(key, fp, Leader)]
    case Replayed(key, fp, record) => [Begin(key, fp, Replay(record))]
    case BeginRefused(key, fp) => [Begin(key, fp, Conflict)]
  }

  function BeginOps(run: Run): seq<Op> {
    BeginOpsOf(run.begin)
  }

  function AcquireOps(run: Run): seq<Op> {
    AcquireOpsOf(run.slot)
  }

  function AcquireOpsOf(slot: SlotResult): seq<Op> {
    match slot
    case NoSlot => []
    case Slot(key, limit) => [Acquire(key, limit, true)]
    case SlotRefused(key, limit) => [Acquire(key, limit, false)]
  }

  function SlotReleaseOps(run: Run): seq<Op> {
    if run.slot.Slot? then [ReleaseSlot(run.slot.key)] else []
  }

  function LeaderReleaseOps(run: Run): seq<Op> {
    if run.begin.Led? then [ReleaseIdem(run.begin.key, run.begin.fingerprint)] else []
  }

  function Cacheable(status: nat): bool {
    200 <= status < 300
  }

  /** The after chain: audit comes before idempotency, and its failure skips everything behind it. */
  function AfterOps(run: Run, response: Response): seq<Op> {
    if run.auditFails || !run.begin.Led? then []
    else if response.eventStream then LeaderReleaseOps(run)
    else if response.bodyBytes > run.maxCachedBytes then []
    else if !Cacheable(response.status) then LeaderReleaseOps(run)
    else [Complete(run.begin.key, run.begin.fingerprint, Record(response.status, response.eventStream, response.body))]
  }

  /** An after hook failed: audit emission, or buffering the leader's response. */
  predicate AfterFails(run: Run, response: Response) {
    run.auditFails || (run.begin.Led? && !response.eventStream && response.bodyBytes > run.maxCachedBytes)
  }

  /** `finalize_response`: after chain, then the tenant slot, then the answer leaves. */
  function FinalOps(run: Run, response: Response, answer: Answer): seq<Op> {
    AfterOps(run, response) + SlotReleaseOps(run) + [Respond(if AfterFails(run, response) then FromProblem else answer)]
  }

  function ReplayResponse(record: Record): Response {
    Response(record.status, record.eventStream, |record.body|, record.body)
  }

  function ClosingOps(run: Run): seq<Op> {
    if run.failedAt.Some? then
      SlotReleaseOps(run) + LeaderReleaseOps(run) + FinalOps(run, run.problem, FromProblem)
    else if run.preflight then FinalOps(run, Response(204, false, 0, ""), FromPreflight)
    else if run.begin.Replayed? then FinalOps(run, ReplayResponse(run.begin.record), FromReplay(run.begin.record))
    else
      match run.handler
      case Responded(response) => FinalOps(run, response, FromHandler(response))
      case TimedOut => FinalOps(run, run.problem, FromProblem)
      case Panicked => LeaderReleaseOps(run) + FinalOps(run, run.problem, FromProblem)
      case Cancelled => LeaderReleaseOps(run)  // the guard's Drop; nothing else runs
  }

  function Ops(run: Run): seq<Op> {
    BeginOps(run) + AcquireOps(run) + ClosingOps(run)
  }

  // -- what a single run does ---------------------------------------------------------------

  function CountOp(ops: seq<Op>, op: Op): nat {
    multiset(ops)[op]
  }

  lemma CountJoin(a: seq<Op>, b: seq<Op>, op: Op)
    ensures CountOp(a + b, op) == CountOp(a, op) + CountOp(b, op)
  {
  }

  /** `finalize_response` gives the slot back once. */
  lemma FinalCounts(run: Run, response: Response, answer: Answer)
    requires run.slot.Slot?
    ensures CountOp(FinalOps(run, response, answer), ReleaseSlot(run.slot.key)) == 1
  {
    var a, b := AfterOps(run, response), SlotReleaseOps(run);
    var c := [Respond(if AfterFails(run, response) then FromProblem else answer)];
    var op := ReleaseSlot(run.slot.key);
    CountJoin(a, b, op);
    CountJoin(a + b, c, op);
    assert op !in a;
  }

  lemma OpeningCounts(run: Run, op: Op)
    requires op.ReleaseSlot? || op.ReleaseIdem?
    ensures CountOp(Ops(run), op) == CountOp(ClosingOps(run), op)
  {
    var a, b, c := BeginOps(run), AcquireOps(run), ClosingOps(run);
    assert CountOp(a, op) == 0 && CountOp(b, op) == 0 by { NoneOpens(run, op); }
    CountJoin(a, b, op);
    CountJoin(a + b, c, op);
  }

  lemma NoneOpens(run: Run, op: Op)
    requires op.ReleaseSlot? || op.ReleaseIdem?
    ensures op !in BeginOps(run) && op !in AcquireOps(run)
  {
  }

  /** The response and answer a run finalizes with, when it gets that far. */
  function Finalizes(run: Run): (Response, Answer) {
    if run.failedAt.Some? then (run.problem, FromProblem)
    else if run.preflight then (Response(204, false, 0, ""), FromPreflight)
    else if run.begin.Replayed? then (ReplayResponse(run.begin.record), FromReplay(run.begin.record))
    else if run.handler.Responded? then (run.handler.response, FromHandler(run.handler.response))
    else (run.problem, FromProblem)
  }

  /** The extra releases made before finalization, and whether finalization happens. */
  lemma ClosingShape(run: Run)
    requires Possible(run)
    ensures var (response, answer) := Finalizes(run);
            ClosingOps(run) ==
              if run.failedAt.Some? then SlotReleaseOps(run) + LeaderReleaseOps(run) + FinalOps(run, response, answer)
              else if run.preflight || run.begin.Replayed? || run.handler.Responded? || run.handler.TimedOut?
              then FinalOps(run, response, answer)
              else if run.handler.Panicked? then LeaderReleaseOps(run) + FinalOps(run, response, answer)
              else LeaderReleaseOps(run)
  {
  }

  /** A tenant slot is given back once, twice or never, and exactly when. */
  lemma SlotReleaseCount(run: Run)
    requires Possible(run) && run.slot.Slot?
    ensures CountOp(Ops(run), ReleaseSlot(run.slot.key)) ==
      if run.failedAt.Some? then 2
      else if !run.preflight && !run.begin.Replayed? && run.handler == Cancelled then 0
      else 1
  {
    var op := ReleaseSlot(run.slot.key);
    var (response, answer) := Finalizes(run);
    var final := FinalOps(run, response, answer);
    OpeningCounts(run, op);
    ClosingShape(run);
    FinalCounts(run, response, answer);
    assert op !in LeaderReleaseOps(run);
    CountJoin(SlotReleaseOps(run), LeaderReleaseOps(run), op);
    CountJoin(SlotReleaseOps(run) + LeaderReleaseOps(run), final, op);
    CountJoin(LeaderReleaseOps(run), final, op);
  }

  predicate Resolves(op: Op) {
    op.ReleaseIdem? || op.Complete?
  }

  ghost predicate LeavesPending(run: Run) {
    forall op :: op in Ops(run) ==> !Resolves(op)
  }

  /** What the handler path hands to `finalize_response`. */
  function HandlerResponse(run: Run): Response
    requires run.handler.Responded? || run.handler.TimedOut?
  {
    if run.handler.Responded? then run.handler.response else run.problem
  }

  /**
   * A leader's reservation is left pending exactly when its handler answered (or timed out) and the
   * audit hook failed, or the answer was too large to buffer; every other run completes or releases it.
   */
  lemma LeaderResolution(run: Run)
    requires Possible(run) && run.begin.Led?
    ensures LeavesPending(run) <==>
      && run.failedAt.None? && (run.handler.Responded? || run.handler.TimedOut?)
      && (run.auditFails || (!HandlerResponse(run).eventStream && HandlerResponse(run).bodyBytes > run.maxCachedBytes))
  {
    var (response, answer) := Finalizes(run);
    ClosingShape(run);
    FinalMembers(run, response, answer);
    if run.failedAt.Some? || run.handler.Panicked? || run.handler.Cancelled? {
      var op := LeaderReleaseOps(run)[0];
      assert op in LeaderReleaseOps(run);
      assert op in ClosingOps(run);
      assert op in Ops(run) && Resolves(op);
    }
  }

  lemma FinalMembers(run: Run, response: Response, answer: Answer)
    requires run.begin.Led?
    ensures (forall op :: op in FinalOps(run, response, answer) ==> !Resolves(op)) <==> AfterFails(run, response)
  {
    if !AfterFails(run, response) {
      var op := AfterOps(run, response)[0];
      assert op in FinalOps(run, response, answer) && Resolves(op);
    }
  }

  /** How often a run completes or releases its reservation. */
  function CountResolves(ops: seq<Op>): nat {
    if ops == [] then 0
    else CountResolves(ops[..|ops| - 1]) + (if Resolves(ops[|ops| - 1]) then 1 else 0)
  }

  lemma {:induction false} CountResolvesJoin(a: seq<Op>, b: seq<Op>)
    ensures CountResolves(a + b) == CountResolves(a) + CountResolves(b)
    decreases |b|
  {
    if b == [] {
      assert a + b == a;
    } else {
      assert (a + b)[..|a + b| - 1] == a + b[..|b| - 1];
      CountResolvesJoin(a, b[..|b| - 1]);
    }
  }

  lemma {:induction false} TwoResolves(ops: seq<Op>, i: nat, j: nat)
    requires i < j < |ops| && Resolves(ops[i]) && Resolves(ops[j])
    ensures CountResolves(ops) >= 2
    decreases |ops|
  {
    var n := |ops| - 1;
    if j < n { TwoResolves(ops[..n], i, j); } else { OneResolve(ops[..n], i); }
  }

  lemma {:induction false} OneResolve(ops: seq<Op>, i: nat)
    requires i < |ops| && Resolves(ops[i])
    ensures CountResolves(ops) >= 1
    decreases |ops|
  {
    var n := |ops| - 1;
    if i < n { OneResolve(ops[..n], i); }
  }

  lemma SmallResolveCounts(run: Run, response: Response)
    ensures CountResolves(BeginOps(run)) == 0 && CountResolves(AcquireOps(run)) == 0
    ensures CountResolves(SlotReleaseOps(run)) == 0
    ensures CountResolves(LeaderReleaseOps(run)) == (if run.begin.Led? then 1 else 0)
    ensures CountResolves(AfterOps(run, response)) == (if run.begin.Led? && !AfterFails(run, response) then 1 else 0)
    ensures forall a :: CountResolves([Respond(a)]) == 0
  {
    if run.begin != NoBegin { assert BeginOps(run)[..0] == []; }
    if run.slot != NoSlot { assert AcquireOps(run)[..0] == []; }
    if run.slot.Slot? { assert SlotReleaseOps(run)[..0] == []; }
    if run.begin.Led? {
      assert LeaderReleaseOps(run)[..0] == [];
      if !AfterFails(run, response) { assert AfterOps(run, response)[..0] == []; }
    }
    forall a ensures CountResolves([Respond(a)]) == 0 { assert [Respond(a)][..0] == []; }
  }

  lemma FinalResolveCount(run: Run, response: Response, answer: Answer)
    ensures CountResolves(FinalOps(run, response, answer)) ==
      if run.begin.Led? && !AfterFails(run, response) then 1 else 0
  {
    SmallResolveCounts(run, response);
    var c := [Respond(if AfterFails(run, response) then FromProblem else answer)];
    CountResolvesJoin(AfterOps(run, response), SlotReleaseOps(run));
    CountResolvesJoin(AfterOps(run, response) + SlotReleaseOps(run), c);
  }

  /** A leader resolves at most twice, and twice exactly on these runs: a failed stage or a panic. */
  lemma DoubleReleaseExactly(run: Run)
    requires Possible(run)
    ensures CountResolves(Ops(run)) <= 2
    ensures CountResolves(Ops(run)) == 2 <==>
      && run.begin.Led? && (run.failedAt.Some? || run.handler.Panicked?)
      && !run.auditFails && run.problem.bodyBytes <= run.maxCachedBytes
  {
    var (response, answer) := Finalizes(run);
    var final := FinalOps(run, response, answer);
    SmallResolveCounts(run, response);
    FinalResolveCount(run, response, answer);
    ClosingShape(run);
    CountResolvesJoin(BeginOps(run), AcquireOps(run));
    CountResolvesJoin(BeginOps(run) + AcquireOps(run), ClosingOps(run));
    CountResolvesJoin(SlotReleaseOps(run), LeaderReleaseOps(run));
    CountResolvesJoin(SlotReleaseOps(run) + LeaderReleaseOps(run), final);
    CountResolvesJoin(LeaderReleaseOps(run), final);
  }

  /**
   * A record is stored exactly by a leader whose whole before chain passed and whose handler gave a 2xx answer
   * that is no stream and small enough to buffer, unless the audit hook failed; and it is that answer.
   */
  lemma CompleteExactly(run: Run, key: string, fingerprint: string, record: Record)
    requires Possible(run)
    ensures Complete(key, fingerprint, record) in Ops(run) <==>
      && run.begin == Led(key, fingerprint) && run.failedAt.None? && run.handler.Responded? && !run.auditFails
      && var r := run.handler.response;
         !r.eventStream && r.bodyBytes <= run.maxCachedBytes && 200 <= r.status < 300
         && record == Record(r.status, false, r.body)
  {
    var (response, answer) := Finalizes(run);
    var op := Complete(key, fingerprint, record);
    CompleteFinal(run, op);
    FinalComplete(run, response, answer, op);
  }

  /** Only finalization completes. */
  lemma CompleteFinal(run: Run, op: Op)
    requires Possible(run) && op.Complete?
    ensures var (response, answer) := Finalizes(run);
            op in Ops(run) <==>
              && op in FinalOps(run, response, answer)
              && (run.failedAt.Some? || run.preflight || run.begin.Replayed? || !run.handler.Cancelled?)
  {
    ClosingShape(run);
  }

  lemma FinalComplete(run: Run, response: Response, answer: Answer, op: Op)
    requires op.Complete?
    ensures op in FinalOps(run, response, answer) <==>
      && run.begin.Led? && !AfterFails(run, response) && !response.eventStream && 200 <= response.status < 300
      && op == Complete(run.begin.key, run.begin.fingerprint, Record(response.status, false, response.body))
  {
    if op in AfterOps(run, response) { assert op == AfterOps(run, response)[0]; }
    if run.begin.Led? && !AfterFails(run, response) {
      assert AfterOps(run, response)[0] in FinalOps(run, response, answer);
    }
  }

  /** A replay is the answer only of a request whose own before chain passed. */
  lemma ReplayProvenance(run: Run, record: Record)
    requires Possible(run) && Respond(FromReplay(record)) in Ops(run)
    ensures run.failedAt.None? && !run.auditFails && run.begin.Replayed? && run.begin.record == record
  {
  }

  lemma ReplayResponds(run: Run)
    requires Possible(run) && run.failedAt.None? && !run.auditFails && run.begin.Replayed?
    ensures Respond(FromReplay(run.begin.record)) in Ops(run)
  {
    var ops := ClosingOps(run);
    assert ops == FinalOps(run, ReplayResponse(run.begin.record), FromReplay(run.begin.record));
    assert ops[|ops| - 1] in Ops(run);
  }

  /** A replay is the answer exactly of a request told to replay whose other stages and audit hook passed. */
  lemma ReplayExactly(run: Run, record: Record)
    requires Possible(run)
    ensures Respond(FromReplay(record)) in Ops(run) <==>
      run.failedAt.None? && !run.auditFails && run.begin.Replayed? && run.begin.record == record
  {
    if Respond(FromReplay(record)) in Ops(run) { ReplayProvenance(run, record); }
    if run.failedAt.None? && !run.auditFails && run.begin.Replayed? { ReplayResponds(run); }
  }

  // -- the stores under a sequence of calls --------------------------------------------------

  datatype Stores = Stores(entries: map<string, Entry>, active: Active)

  /** The answer recorded in a call is the one the stores give. */
  predicate Agrees(s: Stores, op: Op) {
    match op
    case Begin(key, fp, answer) => answer == BeginOn(s.entries, key, fp)
    case Acquire(key, limit, granted) => granted <==> AcquireOutcome(s.active, key, limit) == Acquired
    case _ => true
  }

  function Apply(s: Stores, op: Op): Stores {
    match op
    case Begin(key, fp, _) => s.(entries := AfterBegin(s.entries, key, fp))
    case Complete(key, fp, record) => s.(entries := AfterComplete(s.entries, key, fp, record))
    case ReleaseIdem(key, fp) => s.(entries := AfterIdemRelease(s.entries, key, fp))
    case Acquire(key, limit, _) => s.(active := AfterAcquire(s.active, key, limit))
    case ReleaseSlot(key) => s.(active := AfterRelease(s.active, key))
    case Respond(_) => s
  }

  function ApplyAll(s: Stores, ops: seq<Op>): Stores {
    if ops == [] then s else Apply(ApplyAll(s, ops[..|ops| - 1]), ops[|ops| - 1])
  }

  predicate AllAgree(s: Stores, ops: seq<Op>) {
    ops == [] || (AllAgree(s, ops[..|ops| - 1]) && Agrees(ApplyAll(s, ops[..|ops| - 1]), ops[|ops| - 1]))
  }

  lemma Regroup(log: seq<Op>, a: seq<Op>, b: seq<Op>, c: seq<Op>)
    ensures log + a + b + c == log + (a + b + c)
    ensures log + b + c == log + (b + c)
  {
  }

  lemma AppendClosing(log: seq<Op>, run: Run)
    ensures log + (BeginOpsOf(run.begin) + AcquireOpsOf(run.slot)) + ClosingOps(run) == log + Ops(run)
  {
    Regroup(log, [], BeginOps(run) + AcquireOps(run), ClosingOps(run));
  }

  /** A chain's log after one more stage. */
  lemma Grown(start: seq<Op>, before: seq<Op>, after: seq<Op>, begin0: BeginResult, slot0: SlotResult,
      begin: BeginResult, slot: SlotResult)
    requires before == start + (BeginOpsOf(begin0) + AcquireOpsOf(slot0))
    requires begin != begin0 ==>
      begin0 == NoBegin && slot0 == NoSlot && slot == NoSlot && after == before + BeginOpsOf(begin)
    requires slot != slot0 ==> slot0 == NoSlot && begin == begin0 && after == before + AcquireOpsOf(slot)
    requires begin == begin0 && slot == slot0 ==> after == before
    ensures after == start + (BeginOpsOf(begin) + AcquireOpsOf(slot))
  {
    var b0, s0, b, s := BeginOpsOf(begin0), AcquireOpsOf(slot0), BeginOpsOf(begin), AcquireOpsOf(slot);
    Joins(start, before, after, b0, s0, b, s);
  }

  lemma Joins<T>(start: seq<T>, before: seq<T>, after: seq<T>, b0: seq<T>, s0: seq<T>, b: seq<T>, s: seq<T>)
    requires before == start + (b0 + s0)
    requires
      || (after == before && b == b0 && s == s0)
      || (b0 == [] && s0 == [] && s == [] && after == before + b)
      || (s0 == [] && b == b0 && after == before + s)
    ensures after == start + (b + s)
  {
  }

  // -- the middleware -----------------------------------------------------------------------

  /** What the request brings along and how its surroundings behave. */
  datatype Plan = Plan(
    preflight: bool,
    failAt: Option<nat>,                    // a stage that fails for reasons of its own
    idempotent: Option<(string, string)>,   // store key and fingerprint, when the stage applies
    admission: Option<(string, nat)>,       // scope key and limit, when the stage applies
    handler: Handler,
    problem: Response,
    auditFails: bool,
    maxCachedBytes: nat)

  /** What the Idempotency stage makes of the store's answer. */
  function BeginResultOf(key: string, fingerprint: string, answer: BeginAnswer): BeginResult {
    match answer
    case Leader => Led(key, fingerprint)
    case Replay(record) => Replayed(key, fingerprint, record)
    case Conflict => BeginRefused(key, fingerprint)
  }

  function SlotResultOf(key: string, limit: nat, outcome: AcquireResult): SlotResult {
    if outcome == Acquired then Slot(key, limit) else SlotRefused(key, limit)
  }

  /** The stage rejects the request when the chain comes to it. */
  predicate StageFails(s: Stores, plan: Plan, i: nat) {
    || plan.failAt == Some(i)
    || (i == IDEMPOTENCY_AT && plan.idempotent.Some? && !plan.preflight
        && BeginOn(s.entries, plan.idempotent.value.0, plan.idempotent.value.1) == Conflict)
    || (i == AUTHENTICATION_AT && plan.admission.Some?
        && AcquireOutcome(s.active, plan.admission.value.0, plan.admission.value.1) != Acquired)
  }

  /** The chain comes to the stage, and the stage to its store call. */
  predicate ReachesStore(plan: Plan, failedAt: Option<nat>, i: nat) {
    (failedAt.None? || i <= failedAt.value) && plan.failAt != Some(i)
  }

  predicate BeginAnswered(s: Stores, plan: Plan, failedAt: Option<nat>, begin: BeginResult) {
    if plan.idempotent.Some? && !plan.preflight && ReachesStore(plan, failedAt, IDEMPOTENCY_AT) then
      var (key, fp) := plan.idempotent.value;
      begin == BeginResultOf(key, fp, BeginOn(s.entries, key, fp))
    else
      begin == NoBegin
  }

  predicate SlotAnswered(s: Stores, plan: Plan, failedAt: Option<nat>, slot: SlotResult) {
    if plan.admission.Some? && ReachesStore(plan, failedAt, AUTHENTICATION_AT) then
      var (key, limit) := plan.admission.value;
      slot == SlotResultOf(key, limit, AcquireOutcome(s.active, key, limit))
    else
      slot == NoSlot
  }

  /** The store answers a request gets in its before chain, given how far the chain came. */
  predicate Answered(s: Stores, plan: Plan, failedAt: Option<nat>, begin: BeginResult, slot: SlotResult) {
    BeginAnswered(s, plan, failedAt, begin) && SlotAnswered(s, plan, failedAt, slot)
  }

  /** The first failing stage, or none. */
  ghost predicate FirstFailure(s: Stores, plan: Plan, failedAt: Option<nat>) {
    match failedAt
    case None => forall i :: 0 <= i < STAGES ==> !StageFails(s, plan, i)
    case Some(n) => n < STAGES && StageFails(s, plan, n) && forall i :: 0 <= i < n ==> !StageFails(s, plan, i)
  }

  /** The run is what the plan comes to on these stores. */
  ghost predicate Follows(run: Run, plan: Plan, s: Stores) {
    && FirstFailure(s, plan, run.failedAt)
    && Answered(s, plan, run.failedAt, run.begin, run.slot)
    && run.preflight == plan.preflight && run.handler == plan.handler && run.problem == plan.problem
    && run.auditFails == plan.auditFails && run.maxCachedBytes == plan.maxCachedBytes
  }

  /** A plan has one run on given stores. */
  lemma FollowsUnique(a: Run, b: Run, plan: Plan, s: Stores)
    requires Follows(a, plan, s) && Follows(b, plan, s)
    ensures a == b
  {
    if a.failedAt.Some? && b.failedAt.Some? {
      assert !(a.failedAt.value < b.failedAt.value) && !(b.failedAt.value < a.failedAt.value);
    }
  }

  ghost predicate PlanOk(plan: Plan) {
    plan.problem.status >= 400 && !plan.problem.eventStream
  }

  lemma OpeningAgrees(run: Run, s: Stores)
    ensures AllAgree(s, BeginOps(run) + AcquireOps(run)) <==>
      && (run.begin != NoBegin ==> Agrees(s, BeginOps(run)[0]))
      && (run.slot != NoSlot ==> Agrees(s, AcquireOps(run)[0]))
  {
    var a, b := BeginOps(run), AcquireOps(run);
    if a != [] {
      assert a[..0] == [] && AllAgree(s, a) == Agrees(s, a[0]);
      assert ApplyAll(s, a).active == s.active;
    }
    if b == [] {
      assert a + b == a;
    } else {
      assert (a + b)[..|a + b| - 1] == a && (a + b)[|a + b| - 1] == b[0];
    }
  }

  /** A plan under which the code makes this run, if the stores give its answers. */
  function PlanFor(run: Run): Plan {
    Plan(run.preflight,
         if run.begin.BeginRefused? || run.slot.SlotRefused? then None else run.failedAt,
         if run.begin == NoBegin then None else Some((run.begin.key, run.begin.fingerprint)),
         if run.slot == NoSlot then None else Some((run.slot.key, run.slot.limit)),
         run.handler, run.problem, run.auditFails, run.maxCachedBytes)
  }

  lemma PlanForFollows(run: Run, s: Stores)
    requires Possible(run) && AllAgree(s, BeginOps(run) + AcquireOps(run))
    ensures PlanOk(PlanFor(run)) && Follows(run, PlanFor(run), s)
  {
    OpeningAgrees(run, s);
  }

  lemma FollowsPossible(run: Run, plan: Plan, s: Stores)
    requires PlanOk(plan) && Follows(run, plan, s)
    ensures Possible(run) && AllAgree(s, BeginOps(run) + AcquireOps(run))
  {
    if run.begin.BeginRefused? { assert StageFails(s, plan, IDEMPOTENCY_AT); }
    if run.slot.SlotRefused? { assert StageFails(s, plan, AUTHENTICATION_AT); }
    OpeningAgrees(run, s);
  }

  /** The possible runs whose first answers the stores give are exactly those that some plan comes to. */
  lemma PossibleExactly(run: Run, s: Stores)
    ensures Possible(run) && AllAgree(s, BeginOps(run) + AcquireOps(run)) <==>
      exists plan :: PlanOk(plan) && Follows(run, plan, s)
  {
    if Possible(run) && AllAgree(s, BeginOps(run) + AcquireOps(run)) {
      PlanForFollows(run, s);
    } else if plan :| PlanOk(plan) && Follows(run, plan, s) {
      FollowsPossible(run, plan, s);
    }
  }

  /** The fields of `WebCallState` the two protocols use. */
  class CallState {
    var idempotencyKey: Option<string>
    var fingerprint: Option<string>
    var leader: bool
    var replay: Option<Record>
    var admissionKey: Option<string>

    constructor ()
      ensures !leader && replay.None? && admissionKey.None?
    {
      idempotencyKey, fingerprint, leader, replay, admissionKey := None, None, false, None, None;
    }

    ghost predicate Reflects(begin: BeginResult, slot: SlotResult)
      reads this
    {
      && (leader <==> begin.Led?)
      && (begin.Led? ==> idempotencyKey == Some(begin.key) && fingerprint == Some(begin.fingerprint))
      && (replay.Some? <==> begin.Replayed?)
      && (begin.Replayed? ==> replay.value == begin.record)
      && (admissionKey.Some? <==> slot.Slot?)
      && (slot.Slot? ==> admissionKey.value == slot.key)
    }
  }

  class Host {
    var stores: Stores
    var log: seq<Op>
    ghost const initial: Stores

    ghost predicate Valid()
      reads this
    {
      stores == ApplyAll(initial, log) && AllAgree(initial, log)
    }

    constructor (stores: Stores)
      ensures Valid() && log == [] && this.stores == stores && initial == stores
    {
      this.stores := stores;
      log := [];
      initial := stores;
    }

    /** One store call. */
    method Call(op: Op)
      requires Valid() && Agrees(stores, op)
      modifies this
      ensures Valid() && stores == Apply(old(stores), op) && log == old(log) + [op]
    {
      stores := Apply(stores, op);
      log := log + [op];
      assert log[..|log| - 1] == old(log);
    }

    method IdempotencyBefore(state: CallState, key: string, fingerprint: string) returns (begin: BeginResult)
      requires Valid() && state.Reflects(NoBegin, NoSlot)
      modifies this, state
      ensures Valid() && log == old(log) + BeginOpsOf(begin)
      ensures begin == BeginResultOf(key, fingerprint, BeginOn(old(stores.entries), key, fingerprint))
      ensures stores.active == old(stores.active) && state.Reflects(begin, NoSlot)
    {
      var answer := BeginOn(stores.entries, key, fingerprint);
      Call(Begin(key, fingerprint, answer));
      match answer
      case Leader =>
        state.idempotencyKey, state.fingerprint, state.leader := Some(key), Some(fingerprint), true;
        begin := Led(key, fingerprint);
      case Replay(record) =>
        state.replay := Some(record);
        begin := Replayed(key, fingerprint, record);
      case Conflict => begin := BeginRefused(key, fingerprint);
    }

    /** `try_acquire_tenant_concurrency`. */
    method TryAcquireTenantConcurrency(state: CallState, key: string, limit: nat, ghost begin: BeginResult)
      returns (slot: SlotResult)
      requires Valid() && state.Reflects(begin, NoSlot)
      modifies this, state
      ensures Valid() && log == old(log) + AcquireOpsOf(slot)
      ensures slot == SlotResultOf(key, limit, AcquireOutcome(old(stores.active), key, limit))
      ensures stores.entries == old(stores.entries) && state.Reflects(begin, slot)
    {
      var granted := AcquireOutcome(stores.active, key, limit) == Acquired;
      Call(Acquire(key, limit, granted));
      if granted {
        state.admissionKey := Some(key);
        slot := Slot(key, limit);
      } else {
        slot := SlotRefused(key, limit);
      }
    }

    /** One before stage of the chain; only two of them call a store. */
    method StageBefore(i: nat, state: CallState, plan: Plan, begin0: BeginResult, slot0: SlotResult)
      returns (ok: bool, begin: BeginResult, slot: SlotResult)
      requires Valid() && state.Reflects(begin0, slot0)
      requires (i <= IDEMPOTENCY_AT ==> begin0 == NoBegin) && (i <= AUTHENTICATION_AT ==> slot0 == NoSlot)
      modifies this, state
      ensures Valid() && state.Reflects(begin, slot)
      ensures ok <==> !StageFails(old(stores), plan, i)
      ensures begin != begin0 ==> log == old(log) + BeginOpsOf(begin) && slot == NoSlot
      ensures slot != slot0 ==> log == old(log) + AcquireOpsOf(slot) && begin == begin0
      ensures begin == begin0 && slot == slot0 ==> log == old(log) && stores == old(stores)
      ensures begin ==
        if i == IDEMPOTENCY_AT && plan.idempotent.Some? && !plan.preflight && plan.failAt != Some(i) then
          var (key, fp) := plan.idempotent.value;
          BeginResultOf(key, fp, BeginOn(old(stores.entries), key, fp))
        else begin0
      ensures slot ==
        if i == AUTHENTICATION_AT && plan.admission.Some? && plan.failAt != Some(i) then
          var (key, limit) := plan.admission.value;
          SlotResultOf(key, limit, AcquireOutcome(old(stores.active), key, limit))
        else slot0
      ensures i != IDEMPOTENCY_AT ==> stores.entries == old(stores.entries)
      ensures i != AUTHENTICATION_AT ==> stores.active == old(stores.active)
    {
      ok, begin, slot := true, begin0, slot0;
      if plan.failAt == Some(i) { return false, begin0, slot0; }
      if i == IDEMPOTENCY_AT && plan.idempotent.Some? && !plan.preflight {
        begin := IdempotencyBefore(state, plan.idempotent.value.0, plan.idempotent.value.1);
        ok := !begin.BeginRefused?;
      } else if i == AUTHENTICATION_AT && plan.admission.Some? {
        slot := TryAcquireTenantConcurrency(state, plan.admission.value.0, plan.admission.value.1, begin);
        ok := !slot.SlotRefused?;
      }
    }

    /** `WebCallInterceptorChain::before` over the standard chain. */
    method ChainBefore(state: CallState, plan: Plan)
      returns (failedAt: Option<nat>, begin: BeginResult, slot: SlotResult)
      requires Valid() && state.Reflects(NoBegin, NoSlot)
      modifies this, state
      ensures Valid() && state.Reflects(begin, slot)
      ensures log == old(log) + (BeginOpsOf(begin) + AcquireOpsOf(slot))
      ensures FirstFailure(old(stores), plan, failedAt)
      ensures Answered(old(stores), plan, failedAt, begin, slot)
    {
      failedAt, begin, slot := None, NoBegin, NoSlot;
      for i := 0 to STAGES
        invariant Valid() && state.Reflects(begin, slot) && failedAt.None?
        invariant log == old(log) + (BeginOpsOf(begin) + AcquireOpsOf(slot))
        invariant forall j :: 0 <= j < i ==> !StageFails(old(stores), plan, j)
        invariant i <= IDEMPOTENCY_AT ==> begin == NoBegin && stores == old(stores)
        invariant i <= AUTHENTICATION_AT ==> slot == NoSlot && stores.active == old(stores.active)
        invariant i > IDEMPOTENCY_AT ==> BeginAnswered(old(stores), plan, None, begin)
        invariant i > AUTHENTICATION_AT ==> SlotAnswered(old(stores), plan, None, slot)
      {
        var begin0, slot0, ok := begin, slot, true;
        ghost var before := log;
        ok, begin, slot := StageBefore(i, state, plan, begin0, slot0);
        Grown(old(log), before, log, begin0, slot0, begin, slot);
        if !ok {
          failedAt := Some(i);
          return;
        }
      }
    }

    method ReleaseConcurrentAdmission(state: CallState, ghost run: Run)
      requires Valid() && state.Reflects(run.begin, run.slot)
      modifies this
      ensures Valid() && log == old(log) + SlotReleaseOps(run)
    {
      if state.admissionKey.Some? { Call(ReleaseSlot(state.admissionKey.value)); }
    }

    method ReleaseIdempotencyLeader(state: CallState, ghost run: Run)
      requires Valid() && state.Reflects(run.begin, run.slot)
      modifies this
      ensures Valid() && log == old(log) + LeaderReleaseOps(run)
    {
      if !state.leader { return; }
      if state.idempotencyKey.Some? && state.fingerprint.Some? {
        Call(ReleaseIdem(state.idempotencyKey.value, state.fingerprint.value));
      }
    }

    /** The Idempotency arm of `after`; failing means the response was too large to buffer. */
    method IdempotencyAfter(state: CallState, response: Response, run: Run) returns (ok: bool)
      requires Valid() && state.Reflects(run.begin, run.slot) && !run.auditFails
      modifies this
      ensures Valid() && log == old(log) + AfterOps(run, response)
      ensures ok <==> !AfterFails(run, response)
      ensures var entries, r := old(stores.entries), response;
              stores.entries ==
                if !run.begin.Led? || (!r.eventStream && r.bodyBytes > run.maxCachedBytes) then entries
                else
                  var key, fp := run.begin.key, run.begin.fingerprint;
                  if r.eventStream || r.status < 200 || r.status >= 300 then
                    if key in entries && entries[key] == Entry(fp, None) then entries - {key} else entries
                  else if key in entries && entries[key].fingerprint == fp then
                    entries[key := Entry(fp, Some(Record(r.status, false, r.body)))]
                  else entries
    {
      if !state.leader { return true; }
      if response.eventStream {
        ReleaseIdempotencyLeader(state, run);
        return true;
      }
      if response.bodyBytes > run.maxCachedBytes { return false; }
      if response.status >= 500 || !Cacheable(response.status) {
        ReleaseIdempotencyLeader(state, run);
      } else {
        Call(Complete(state.idempotencyKey.value, state.fingerprint.value,
                      Record(response.status, response.eventStream, response.body)));
      }
      ok := true;
    }

    /** `WebCallInterceptorChain::after`: reverse order, the first failing hook skips the rest. */
    method ChainAfter(state: CallState, response: Response, run: Run) returns (ok: bool)
      requires Valid() && state.Reflects(run.begin, run.slot)
      modifies this
      ensures Valid() && log == old(log) + AfterOps(run, response)
      ensures ok <==> !AfterFails(run, response)
    {
      var i := STAGES;
      while i > 0
        invariant 0 <= i <= STAGES && Valid()
        invariant i <= AUDIT_AT ==> !run.auditFails
        invariant i > IDEMPOTENCY_AT ==> log == old(log)
        invariant i <= IDEMPOTENCY_AT ==> log == old(log) + AfterOps(run, response) && !AfterFails(run, response)
      {
        i := i - 1;
        if i == AUDIT_AT {
          if run.auditFails { return false; }
        } else if i == IDEMPOTENCY_AT {
          var buffered := IdempotencyAfter(state, response, run);
          if !buffered { return false; }
        }
      }
      ok := true;
    }

    /** `finalize_response`. */
    method FinalizeResponse(state: CallState, response: Response, answer: Answer, run: Run)
      requires Valid() && state.Reflects(run.begin, run.slot)
      modifies this
      ensures Valid() && log == old(log) + FinalOps(run, response, answer)
    {
      var ok := ChainAfter(state, response, run);
      ReleaseConcurrentAdmission(state, run);
      var answered := if ok then answer else FromProblem;
      Call(Respond(answered));
      Regroup(old(log), AfterOps(run, response), SlotReleaseOps(run), [Respond(answered)]);
    }

    /** `web_request_context_middleware`: the log grows by exactly the calls of the run it returns. */
    method Middleware(plan: Plan) returns (run: Run)
      requires Valid() && PlanOk(plan)
      modifies this
      ensures Valid() && Possible(run) && log == old(log) + Ops(run)
      ensures Follows(run, plan, old(stores))
    {
      var state := new CallState();
      var failedAt, begin, slot := ChainBefore(state, plan);
      run := Run(plan.preflight, failedAt, begin, slot, plan.handler, plan.problem, plan.auditFails,
                 plan.maxCachedBytes);
      FollowsPossible(run, plan, old(stores));
      Close(state, run);
      AppendClosing(old(log), run);
    }

    /** The before chain failed: slot, reservation, then `finalize_response`. */
    method CloseFailed(state: CallState, run: Run)
      requires Valid() && state.Reflects(run.begin, run.slot)
      modifies this
      ensures Valid()
      ensures log == old(log) + (SlotReleaseOps(run) + LeaderReleaseOps(run) + FinalOps(run, run.problem, FromProblem))
    {
      ReleaseConcurrentAdmission(state, run);
      ReleaseIdempotencyLeader(state, run);
      FinalizeResponse(state, run.problem, FromProblem, run);
      Regroup(old(log), SlotReleaseOps(run), LeaderReleaseOps(run), FinalOps(run, run.problem, FromProblem));
    }

    /** The handler panicked: reservation, then `finalize_response`. */
    method ClosePanicked(state: CallState, run: Run)
      requires Valid() && state.Reflects(run.begin, run.slot)
      modifies this
      ensures Valid() && log == old(log) + (LeaderReleaseOps(run) + FinalOps(run, run.problem, FromProblem))
    {
      ReleaseIdempotencyLeader(state, run);
      FinalizeResponse(state, run.problem, FromProblem, run);
      Regroup(old(log), [], LeaderReleaseOps(run), FinalOps(run, run.problem, FromProblem));
    }

    /** Everything after the before chain. */
    method Close(state: CallState, run: Run)
      requires Valid() && state.Reflects(run.begin, run.slot)
      modifies this
      ensures Valid() && log == old(log) + ClosingOps(run)
    {
      if run.failedAt.Some? {
        CloseFailed(state, run);
      } else if run.preflight {
        FinalizeResponse(state, Response(204, false, 0, ""), FromPreflight, run);
      } else if state.replay.Some? {
        FinalizeResponse(state, ReplayResponse(state.replay.value), FromReplay(state.replay.value), run);
      } else {
        match run.handler {
          case Responded(response) => FinalizeResponse(state, response, FromHandler(response), run);
          case TimedOut => FinalizeResponse(state, run.problem, FromProblem, run);
          case Panicked => ClosePanicked(state, run);
          case Cancelled => ReleaseIdempotencyLeader(state, run);  // IdempotencyReleaseGuard::drop
        }
      }
    }
  }
}
