/** The relay as a machine of single steps.  Calls, machine replies, timeouts, envelope
    submissions and every `then` and `finally` callback are separate events, so a run is any
    interleaving of them that the event loop allows. */
module RelayRuns {
  import opened Outcomes
  import opened Texts
  import opened Protocol
  import opened EvaluationKey
  import opened Threshold
  import opened Evaluation
  import opened Telemetry
  import opened InFlight

  /** One evaluation: the call it answers, with checksummed machines; the replies that have
      settled; and its result, Err standing for a rejected promise. */
  datatype EvaluationJob = EvaluationJob(
    call: Call, slots: seq<Option<Reply>>, nows: seq<int>, result: Option<Result<RelayOutcome>>)

  datatype SubmissionJob = SubmissionJob(outcome: RelayOutcome, sent: seq<Envelope>, failed: bool)

  datatype RelayState = RelayState(
    cap: nat, evaluations: Registry<EvaluationJob>, active: int, submissions: Registry<SubmissionJob>, meter: Meter)

  datatype Event =
    | EvaluateCalled(call: Call)
    | MachineSettled(id: nat, slot: nat, reply: Reply)
    | EvaluationSettled(id: nat, nows: Option<seq<int>>)
    | EvaluationRecorded(id: nat)
    | EvaluationCleared(id: nat)
    | SubmitCalled(outcome: RelayOutcome)
    | EnvelopeSent(id: nat)
    | EnvelopeRefused(id: nat)
    | SubmissionRecorded(id: nat)
    | SubmissionCleared(id: nat)

  datatype Response = Invalid | NotReady | AtCapacity | Joined(id: nat) | Started(id: nat)

  function Initial(cap: nat): RelayState {
    RelayState(cap, EmptyRegistry(), 0, EmptyRegistry(), ZERO)
  }

  // ---- evaluations ----------------------------------------------------------------------

  /** The call as it is keyed and run, after `validateMachines`. */
  function Prepared(p: Primitives, call: Call): Call { call.(machines := Checksummed(p, call.machines)) }

  ghost predicate ValidCall(p: Primitives, call: Call) {
    FrozenMachines(p, call.machines) && Encodable(p, call)
  }

  const NO_REPLIES: seq<Option<Reply>> := [None, None, None]

  ghost function RespondEvaluate(p: Primitives, s: RelayState, call: Call): Response {
    if !ValidCall(p, call) then Invalid
    else
      var key := Key(p, Prepared(p, call));
      if key in s.evaluations.inFlight then Joined(s.evaluations.inFlight[key])
      else if s.active >= s.cap then AtCapacity
      else Started(|s.evaluations.ops|)
  }

  function NewEvaluation(p: Primitives, s: RelayState, call: Call): RelayState {
    s.(evaluations := s.evaluations.Start(Key(p, call), FreshJob(call)),
       active := s.active + 1, meter := s.meter.(active := s.meter.active + 1))
  }

  ghost function AfterEvaluate(p: Primitives, s: RelayState, call: Call): RelayState {
    match RespondEvaluate(p, s, call)
    case Joined(_) => s.(meter := s.meter.(coalesced := s.meter.coalesced + 1))
    case AtCapacity => s.(meter := s.meter.(atCapacity := s.meter.atCapacity + 1))
    case Started(_) => NewEvaluation(p, s, Prepared(p, call))
    case _ => s.(meter := s.meter.(invalid := s.meter.invalid + 1))
  }

  function PutEvaluation(s: RelayState, id: nat, stage: Stage, job: EvaluationJob): RelayState
    requires id < |s.evaluations.ops|
  {
    s.(evaluations := s.evaluations.Put(id, stage, job))
  }

  predicate AllSettled(slots: seq<Option<Reply>>) { forall i :: 0 <= i < |slots| ==> slots[i].Some? }

  function Replies(slots: seq<Option<Reply>>): seq<Reply>
    requires AllSettled(slots)
  {
    seq(|slots|, i requires 0 <= i < |slots| => slots[i].value)
  }

  /** What `evaluateOnce` resolves to; the clock it consults may throw. */
  function Settle(p: Primitives, job: EvaluationJob, nows: Option<seq<int>>): EvaluationJob
    requires AllSettled(job.slots) && (nows.Some? ==> |nows.value| == |job.slots|)
  {
    match nows
    case None => job.(result := Some(Err("clock failed")))
    case Some(ns) =>
      job.(nows := ns, result := Some(Ok(OutcomeOf(p, job.call.request, job.call.machines, Replies(job.slots), ns))))
  }

  function EndingOf(result: Result<RelayOutcome>): Ending {
    match result case Ok(o) => Ended(o.selection.status) case Err(_) => Threw
  }

  function ValidCount(result: Result<RelayOutcome>): nat {
    match result case Ok(o) => |o.selection.valid| case Err(_) => 0
  }

  function FailedCount(result: Result<RelayOutcome>): nat {
    match result case Ok(o) => o.failures case Err(_) => 3
  }

  /** The `then` callbacks: a guard of the telemetry that throws replaces the result. */
  function AfterRecorded(s: RelayState, id: nat): RelayState
    requires id < |s.evaluations.ops| && s.evaluations.ops[id].payload.result.Some?
  {
    var job := s.evaluations.ops[id].payload;
    var r := job.result.value;
    if FinishAllowed(s.meter, ValidCount(r), FailedCount(r)) then
      PutEvaluation(s, id, Recorded, job).(meter := FinishMeter(s.meter, EndingOf(r), ValidCount(r), FailedCount(r)))
    else
      PutEvaluation(s, id, Recorded, job.(result := Some(Err("telemetry lifecycle is unbalanced"))))
  }

  function AfterCleared(s: RelayState, id: nat): RelayState
    requires id < |s.evaluations.ops|
  {
    s.(evaluations := s.evaluations.Finish(id), active := s.active - 1)
  }

  // ---- submissions ----------------------------------------------------------------------

  predicate ReadyToSubmit(o: RelayOutcome) {
    && o.selection.status == THRESHOLD_READY
    && o.selection.digest.Some? && o.selection.digest.value != []
    && |o.selection.matching| >= 2
  }

  function SubmissionKey(o: RelayOutcome): Text
    requires o.selection.digest.Some?
  {
    ToLower(o.requestId) + [0x3A] + ToLower(o.selection.digest.value)
  }

  function RespondSubmit(s: RelayState, o: RelayOutcome): Response {
    if !ReadyToSubmit(o) then NotReady
    else if SubmissionKey(o) in s.submissions.inFlight then Joined(s.submissions.inFlight[SubmissionKey(o)])
    else Started(|s.submissions.ops|)
  }

  function NewSubmission(s: RelayState, o: RelayOutcome): RelayState
    requires o.selection.digest.Some?
  {
    s.(submissions := s.submissions.Start(SubmissionKey(o), SubmissionJob(o, [], false)))
  }

  function AfterSubmit(s: RelayState, o: RelayOutcome): RelayState {
    match RespondSubmit(s, o)
    case Joined(_) => s.(meter := s.meter.(submitCoalesced := s.meter.submitCoalesced + 1))
    case Started(_) => NewSubmission(s, o)
    case _ => s.(meter := s.meter.(notReady := s.meter.notReady + 1))
  }

  function PutSubmission(s: RelayState, id: nat, stage: Stage, job: SubmissionJob): RelayState
    requires id < |s.submissions.ops|
  {
    s.(submissions := s.submissions.Put(id, stage, job))
  }

  /** The submitter accepted the next of the first two matching envelopes. */
  function AfterSent(s: RelayState, id: nat): RelayState
    requires id < |s.submissions.ops|
    requires |s.submissions.ops[id].payload.sent| < 2 <= |s.submissions.ops[id].payload.outcome.selection.matching|
  {
    var job := s.submissions.ops[id].payload;
    var sent := job.sent + [job.outcome.selection.matching[|job.sent|]];
    PutSubmission(s, id, if |sent| == 2 then Settled else Running, job.(sent := sent))
  }

  function AfterSubmissionRecorded(s: RelayState, id: nat): RelayState
    requires id < |s.submissions.ops|
  {
    var job := s.submissions.ops[id].payload;
    var t := PutSubmission(s, id, Recorded, job);
    if job.failed then t.(meter := s.meter.(submitErrors := s.meter.submitErrors + 1))
    else t.(meter := s.meter.(submitted := s.meter.submitted + 1))
  }

  // ---- steps and runs -------------------------------------------------------------------

  predicate EvaluationAt(s: RelayState, id: nat, stage: Stage) {
    id < |s.evaluations.ops| && s.evaluations.ops[id].stage == stage
  }

  predicate SubmissionAt(s: RelayState, id: nat, stage: Stage) {
    id < |s.submissions.ops| && s.submissions.ops[id].stage == stage
  }

  /** What the event loop can deliver next. */
  predicate Enabled(s: RelayState, e: Event) {
    match e
    case EvaluateCalled(_) => true
    case MachineSettled(id, slot, _) =>
      && EvaluationAt(s, id, Running)
      && slot < |s.evaluations.ops[id].payload.slots| && s.evaluations.ops[id].payload.slots[slot] == None
    case EvaluationSettled(id, nows) =>
      && EvaluationAt(s, id, Running) && AllSettled(s.evaluations.ops[id].payload.slots)
      && (nows.Some? ==> |nows.value| == |s.evaluations.ops[id].payload.slots|)
    case EvaluationRecorded(id) => EvaluationAt(s, id, Settled) && s.evaluations.ops[id].payload.result.Some?
    case EvaluationCleared(id) => EvaluationAt(s, id, Recorded)
    case SubmitCalled(_) => true
    case EnvelopeSent(id) =>
      && SubmissionAt(s, id, Running)
      && |s.submissions.ops[id].payload.sent| < 2 <= |s.submissions.ops[id].payload.outcome.selection.matching|
    case EnvelopeRefused(id) => SubmissionAt(s, id, Running)
    case SubmissionRecorded(id) => SubmissionAt(s, id, Settled)
    case SubmissionCleared(id) => SubmissionAt(s, id, Recorded)
  }

  ghost function Step(p: Primitives, s: RelayState, e: Event): RelayState
    requires Enabled(s, e)
  {
    match e
    case EvaluateCalled(call) => AfterEvaluate(p, s, call)
    case MachineSettled(id, slot, reply) =>
      var job := s.evaluations.ops[id].payload;
      PutEvaluation(s, id, Running, job.(slots := job.slots[slot := Some(reply)]))
    case EvaluationSettled(id, nows) => PutEvaluation(s, id, Settled, Settle(p, s.evaluations.ops[id].payload, nows))
    case EvaluationRecorded(id) => AfterRecorded(s, id)
    case EvaluationCleared(id) => AfterCleared(s, id)
    case SubmitCalled(outcome) => AfterSubmit(s, outcome)
    case EnvelopeSent(id) => AfterSent(s, id)
    case EnvelopeRefused(id) => PutSubmission(s, id, Settled, s.submissions.ops[id].payload.(failed := true))
    case SubmissionRecorded(id) => AfterSubmissionRecorded(s, id)
    case SubmissionCleared(id) => s.(submissions := s.submissions.Finish(id))
  }

  /** The events are delivered one after another, each when it can be. */
  ghost predicate Legal(p: Primitives, cap: nat, events: seq<Event>)
    decreases |events|, 0
  {
    events == [] || var n := |events| - 1;
      Legal(p, cap, events[..n]) && Enabled(Run(p, cap, events[..n]), events[n])
  }

  ghost function Run(p: Primitives, cap: nat, events: seq<Event>): RelayState
    requires Legal(p, cap, events)
    decreases |events|, 1
  {
    if events == [] then Initial(cap)
    else Step(p, Run(p, cap, events[..|events| - 1]), events[|events| - 1])
  }

  // ---- the invariant --------------------------------------------------------------------

  ghost predicate SoundEvaluation(p: Primitives, op: Op<EvaluationJob>) {
    var job := op.payload;
    && op.key == Key(p, job.call) && Encodable(p, job.call)
    && |job.slots| == 3 && |job.call.machines| == 3 && DistinctIds(job.call.machines)
    && (op.stage != Running ==> job.result.Some?)
    && (job.result.Some? && job.result.value.Ok? ==>
          && AllSettled(job.slots) && |job.nows| == 3
          && job.result.value.value == OutcomeOf(p, job.call.request, job.call.machines, Replies(job.slots), job.nows))
  }

  ghost predicate SoundSubmission(op: Op<SubmissionJob>) {
    var job := op.payload;
    && ReadyToSubmit(job.outcome) && op.key == SubmissionKey(job.outcome)
    && |job.sent| <= 2 && job.sent == job.outcome.selection.matching[..|job.sent|]
    && (op.stage == Running ==> |job.sent| < 2 && !job.failed)
    && (op.stage != Running ==> (job.failed <==> |job.sent| < 2))
  }

  ghost predicate EvaluationsInv(p: Primitives, s: RelayState) {
    && s.evaluations.Tracks()
    && s.active == |s.evaluations.inFlight| <= s.cap
    && forall i :: 0 <= i < |s.evaluations.ops| ==> SoundEvaluation(p, s.evaluations.ops[i])
  }

  ghost predicate SubmissionsInv(s: RelayState) {
    && s.submissions.Tracks()
    && forall i :: 0 <= i < |s.submissions.ops| ==> SoundSubmission(s.submissions.ops[i])
  }

  /** The counters are balanced against the operations. */
  ghost predicate MeterInv(s: RelayState) {
    && s.meter.active == Count(s.evaluations.ops, UNRECORDED)
    && |s.evaluations.ops| == Completed(s.meter) + s.meter.active
    && s.meter.valid + s.meter.failed == 3 * Completed(s.meter)
    && |s.submissions.ops| == s.meter.submitted + s.meter.submitErrors + Count(s.submissions.ops, UNRECORDED)
  }

  ghost predicate Inv(p: Primitives, s: RelayState) {
    EvaluationsInv(p, s) && SubmissionsInv(s) && MeterInv(s)
  }

  // ---- every step keeps it --------------------------------------------------------------

  lemma PutKeepsEvaluations(p: Primitives, s: RelayState, id: nat, stage: Stage, job: EvaluationJob)
    requires EvaluationsInv(p, s) && id < |s.evaluations.ops|
    requires s.evaluations.ops[id].stage in OPEN && stage in OPEN
    requires SoundEvaluation(p, Op(s.evaluations.ops[id].key, stage, job))
    ensures EvaluationsInv(p, PutEvaluation(s, id, stage, job))
  {
    hide Registry.Tracks, SoundEvaluation;
    PutTracks(s.evaluations, id, stage, job);
  }

  function FreshJob(c: Call): EvaluationJob { EvaluationJob(c, NO_REPLIES, [], None) }

  lemma FreshJobIsSound(p: Primitives, c: Call)
    requires Encodable(p, c) && |c.machines| == 3 && DistinctIds(c.machines)
    ensures SoundEvaluation(p, Op(Key(p, c), Running, FreshJob(c)))
  {
    hide Key, Encodable;
  }

  lemma StartKeepsSound(p: Primitives, ops: seq<Op<EvaluationJob>>, op: Op<EvaluationJob>)
    requires (forall i :: 0 <= i < |ops| ==> SoundEvaluation(p, ops[i])) && SoundEvaluation(p, op)
    ensures forall i :: 0 <= i < |ops + [op]| ==> SoundEvaluation(p, (ops + [op])[i])
  {
    hide SoundEvaluation;
  }

  lemma NewEvaluationKeepsEvaluations(p: Primitives, s: RelayState, c: Call)
    requires EvaluationsInv(p, s) && Key(p, c) !in s.evaluations.inFlight && s.active < s.cap
    requires Encodable(p, c) && |c.machines| == 3 && DistinctIds(c.machines)
    ensures EvaluationsInv(p, NewEvaluation(p, s, c))
  {
    FreshJobIsSound(p, c);
    hide SoundEvaluation, Registry.Tracks, Key, Encodable, FreshJob;
    StartTracks(s.evaluations, Key(p, c), FreshJob(c));
    StartKeepsSound(p, s.evaluations.ops, Op(Key(p, c), Running, FreshJob(c)));
  }

  lemma NewEvaluationKeepsMeter(p: Primitives, s: RelayState, c: Call)
    requires MeterInv(s)
    ensures MeterInv(NewEvaluation(p, s, c))
  {
    hide Key, Encodable, FreshJob, Count;
    CountAppend(s.evaluations.ops, Op(Key(p, c), Running, FreshJob(c)), UNRECORDED);
  }

  lemma EvaluateKeepsInv(p: Primitives, s: RelayState, call: Call)
    requires Inv(p, s)
    ensures Inv(p, AfterEvaluate(p, s, call))
  {
    hide SubmissionsInv, EvaluationsInv, Key, Encodable, FrozenMachines, Checksummed;
    var t := AfterEvaluate(p, s, call);
    if RespondEvaluate(p, s, call).Started? {
      StartedIsNew(p, s, call);
      NewEvaluationKeepsEvaluations(p, s, Prepared(p, call));
      NewEvaluationKeepsMeter(p, s, Prepared(p, call));
      SameSubmissions(s, t);
    } else {
      SameEvaluations(p, s, t);
      SameSubmissions(s, t);
    }
  }

  lemma StartedIsNew(p: Primitives, s: RelayState, call: Call)
    requires RespondEvaluate(p, s, call).Started?
    ensures var c := Prepared(p, call);
      && Key(p, c) !in s.evaluations.inFlight && s.active < s.cap
      && Encodable(p, c) && |c.machines| == 3 && DistinctIds(c.machines)
  {
    hide Key;
    assert forall i :: 0 <= i < 3 ==> IdOf(Prepared(p, call).machines[i]) == IdOf(call.machines[i]);
  }

  lemma SameSubmissions(s: RelayState, t: RelayState)
    requires SubmissionsInv(s) && t.submissions == s.submissions
    ensures SubmissionsInv(t)
  {
  }

  lemma SameEvaluations(p: Primitives, s: RelayState, t: RelayState)
    requires EvaluationsInv(p, s) && t.evaluations == s.evaluations && t.active == s.active && t.cap == s.cap
    ensures EvaluationsInv(p, t)
  {
  }

  lemma PutKeepsMeter(s: RelayState, id: nat, stage: Stage, job: EvaluationJob)
    requires MeterInv(s) && id < |s.evaluations.ops|
    requires s.evaluations.ops[id].stage in UNRECORDED && stage in UNRECORDED
    ensures MeterInv(PutEvaluation(s, id, stage, job))
  {
    CountUpdate(s.evaluations.ops, id, Op(s.evaluations.ops[id].key, stage, job), UNRECORDED);
  }

  lemma RunningStepKeepsInv(p: Primitives, s: RelayState, e: Event)
    requires Inv(p, s) && Enabled(s, e) && (e.MachineSettled? || e.EvaluationSettled?)
    ensures Inv(p, Step(p, s, e))
  {
    hide SubmissionsInv, EvaluationsInv, MeterInv;
    SoundAt(p, s, e.id);
    var op := s.evaluations.ops[e.id];
    var stage, job :=
      if e.MachineSettled? then Running else Settled,
      if e.MachineSettled? then op.payload.(slots := op.payload.slots[e.slot := Some(e.reply)])
      else Settle(p, op.payload, e.nows);
    SettledJobIsSound(p, op, e, job);
    PutKeepsEvaluations(p, s, e.id, stage, job);
    PutKeepsMeter(s, e.id, stage, job);
    SameSubmissions(s, Step(p, s, e));
  }

  lemma SoundAt(p: Primitives, s: RelayState, id: nat)
    requires EvaluationsInv(p, s) && id < |s.evaluations.ops|
    ensures SoundEvaluation(p, s.evaluations.ops[id])
  {
  }

  lemma SettledJobIsSound(p: Primitives, op: Op<EvaluationJob>, e: Event, job: EvaluationJob)
    requires SoundEvaluation(p, op) && op.stage == Running
    requires e.MachineSettled? ==>
      e.slot < |op.payload.slots| && op.payload.slots[e.slot] == None
        && job == op.payload.(slots := op.payload.slots[e.slot := Some(e.reply)])
    requires e.EvaluationSettled? ==>
      && AllSettled(op.payload.slots) && (e.nows.Some? ==> |e.nows.value| == |op.payload.slots|)
      && job == Settle(p, op.payload, e.nows)
    requires e.MachineSettled? || e.EvaluationSettled?
    ensures SoundEvaluation(p, Op(op.key, if e.MachineSettled? then Running else Settled, job))
  {
    hide OutcomeOf, Key, Encodable;
  }

  /** `evaluateOnce` accounts for all three machines. */
  lemma ThreeMachinesCounted(p: Primitives, op: Op<EvaluationJob>)
    requires SoundEvaluation(p, op) && op.payload.result.Some?
    ensures var r := op.payload.result.value;
      ValidCount(r) <= 3 && FailedCount(r) <= 3 && ValidCount(r) + FailedCount(r) == 3
  {
    hide Key, Encodable;
    if op.payload.result.value.Ok? {
      var job := op.payload;
      var valid := ValidReplies(p, job.call.request, job.call.machines, Replies(job.slots), job.nows);
      SelectKeepsValid(FirstPerMachine(valid));
      KeptAreReplies(p, job.call.request, job.call.machines, Replies(job.slots), job.nows);
    }
  }

  /** An unrecorded operation is counted, so the lifecycle guard sees a positive gauge. */
  lemma GaugeIsPositive<P>(ops: seq<Op<P>>, id: nat)
    requires id < |ops| && ops[id].stage in UNRECORDED
    ensures Count(ops, UNRECORDED) > 0
  {
    CountNone(ops, UNRECORDED);
  }

  /** The telemetry guards never throw. */
  lemma GuardsNeverFire(p: Primitives, s: RelayState, id: nat)
    requires Inv(p, s) && EvaluationAt(s, id, Settled)
    ensures s.evaluations.ops[id].payload.result.Some?
    ensures var r := s.evaluations.ops[id].payload.result.value; FinishAllowed(s.meter, ValidCount(r), FailedCount(r))
  {
    ThreeMachinesCounted(p, s.evaluations.ops[id]);
    GaugeIsPositive(s.evaluations.ops, id);
  }

  lemma RecordKeepsInv(p: Primitives, s: RelayState, id: nat)
    requires Inv(p, s) && EvaluationAt(s, id, Settled) && s.evaluations.ops[id].payload.result.Some?
    ensures Inv(p, AfterRecorded(s, id))
  {
    hide SubmissionsInv, EvaluationsInv, SoundEvaluation;
    SoundAt(p, s, id);
    var op := s.evaluations.ops[id];
    GuardsNeverFire(p, s, id);
    ThreeMachinesCounted(p, op);
    RecordedIsSound(p, op);
    PutKeepsEvaluations(p, s, id, Recorded, op.payload);
    CountUpdate(s.evaluations.ops, id, Op(op.key, Recorded, op.payload), UNRECORDED);
    SameEvaluations(p, PutEvaluation(s, id, Recorded, op.payload), AfterRecorded(s, id));
    SameSubmissions(s, AfterRecorded(s, id));
  }

  lemma RecordedIsSound(p: Primitives, op: Op<EvaluationJob>)
    requires SoundEvaluation(p, op) && op.stage == Settled
    ensures SoundEvaluation(p, Op(op.key, Recorded, op.payload))
  {
    hide OutcomeOf, Key, Encodable;
  }

  lemma ClearKeepsEvaluations(p: Primitives, s: RelayState, id: nat)
    requires EvaluationsInv(p, s) && EvaluationAt(s, id, Recorded)
    ensures EvaluationsInv(p, AfterCleared(s, id))
  {
    hide Registry.Tracks, SoundEvaluation;
    FinishTracks(s.evaluations, id);
    ClearedIsSound(p, s.evaluations.ops[id]);
  }

  lemma ClearedIsSound(p: Primitives, op: Op<EvaluationJob>)
    requires SoundEvaluation(p, op) && op.stage == Recorded
    ensures SoundEvaluation(p, op.(stage := Finished))
  {
    hide OutcomeOf, Key, Encodable;
  }

  lemma ClearKeepsInv(p: Primitives, s: RelayState, id: nat)
    requires Inv(p, s) && EvaluationAt(s, id, Recorded)
    ensures Inv(p, AfterCleared(s, id))
  {
    hide SubmissionsInv, EvaluationsInv;
    ClearKeepsEvaluations(p, s, id);
    CountUpdate(s.evaluations.ops, id, s.evaluations.ops[id].(stage := Finished), UNRECORDED);
    SameSubmissions(s, AfterCleared(s, id));
  }

  lemma PutKeepsSubmissions(s: RelayState, id: nat, stage: Stage, job: SubmissionJob)
    requires SubmissionsInv(s) && id < |s.submissions.ops|
    requires s.submissions.ops[id].stage in OPEN && stage in OPEN
    requires SoundSubmission(Op(s.submissions.ops[id].key, stage, job))
    ensures SubmissionsInv(PutSubmission(s, id, stage, job))
  {
    hide Registry.Tracks, SoundSubmission;
    PutTracks(s.submissions, id, stage, job);
  }

  lemma NewSubmissionIsSound(o: RelayOutcome)
    requires ReadyToSubmit(o)
    ensures SoundSubmission(Op(SubmissionKey(o), Running, SubmissionJob(o, [], false)))
  {
    hide SubmissionKey;
  }

  lemma NewSubmissionKeepsSubmissions(s: RelayState, o: RelayOutcome)
    requires SubmissionsInv(s) && ReadyToSubmit(o) && SubmissionKey(o) !in s.submissions.inFlight
    ensures SubmissionsInv(NewSubmission(s, o))
  {
    hide SoundSubmission, Registry.Tracks, SubmissionKey;
    NewSubmissionIsSound(o);
    StartTracks(s.submissions, SubmissionKey(o), SubmissionJob(o, [], false));
  }

  lemma NewSubmissionKeepsMeter(s: RelayState, o: RelayOutcome)
    requires MeterInv(s) && o.selection.digest.Some?
    ensures MeterInv(NewSubmission(s, o))
  {
    hide Count, SubmissionKey;
    CountAppend(s.submissions.ops, Op(SubmissionKey(o), Running, SubmissionJob(o, [], false)), UNRECORDED);
  }

  lemma SubmitKeepsInv(p: Primitives, s: RelayState, o: RelayOutcome)
    requires Inv(p, s)
    ensures Inv(p, AfterSubmit(s, o))
  {
    hide EvaluationsInv, SubmissionsInv;
    var t := AfterSubmit(s, o);
    if RespondSubmit(s, o).Started? {
      NewSubmissionKeepsSubmissions(s, o);
      NewSubmissionKeepsMeter(s, o);
    } else {
      SameSubmissions(s, t);
    }
    SameEvaluations(p, s, t);
  }

  lemma SubmissionStepIsSound(p: Primitives, s: RelayState, e: Event)
    requires SubmissionsInv(s) && Enabled(s, e) && (e.EnvelopeSent? || e.EnvelopeRefused? || e.SubmissionRecorded?)
    ensures var t := Step(p, s, e);
      && t.submissions.ops == s.submissions.ops[e.id := t.submissions.ops[e.id]]
      && t.submissions.ops[e.id].key == s.submissions.ops[e.id].key
      && s.submissions.ops[e.id].stage in OPEN && t.submissions.ops[e.id].stage in OPEN
      && SoundSubmission(t.submissions.ops[e.id])
  {
    hide Registry.Tracks, SubmissionKey, ReadyToSubmit;
    assert SoundSubmission(s.submissions.ops[e.id]);
  }

  lemma SubmissionStepKeepsInv(p: Primitives, s: RelayState, e: Event)
    requires Inv(p, s) && Enabled(s, e) && (e.EnvelopeSent? || e.EnvelopeRefused? || e.SubmissionRecorded?)
    ensures Inv(p, Step(p, s, e))
  {
    hide EvaluationsInv, SubmissionsInv, SoundSubmission;
    var t := Step(p, s, e);
    SubmissionStepIsSound(p, s, e);
    var op := t.submissions.ops[e.id];
    PutKeepsSubmissions(s, e.id, op.stage, op.payload);
    CountUpdate(s.submissions.ops, e.id, op, UNRECORDED);
    SameSubmissions(PutSubmission(s, e.id, op.stage, op.payload), t);
    SameEvaluations(p, s, t);
  }

  lemma SubmissionClearKeepsSubmissions(s: RelayState, id: nat)
    requires SubmissionsInv(s) && SubmissionAt(s, id, Recorded)
    ensures SubmissionsInv(s.(submissions := s.submissions.Finish(id)))
  {
    assert SoundSubmission(s.submissions.ops[id].(stage := Finished));
    hide Registry.Tracks, SoundSubmission;
    FinishTracks(s.submissions, id);
  }

  lemma SubmissionClearKeepsInv(p: Primitives, s: RelayState, id: nat)
    requires Inv(p, s) && SubmissionAt(s, id, Recorded)
    ensures Inv(p, s.(submissions := s.submissions.Finish(id)))
  {
    hide EvaluationsInv, SubmissionsInv;
    SubmissionClearKeepsSubmissions(s, id);
    CountUpdate(s.submissions.ops, id, s.submissions.ops[id].(stage := Finished), UNRECORDED);
    SameEvaluations(p, s, s.(submissions := s.submissions.Finish(id)));
  }

  lemma StepKeepsInv(p: Primitives, s: RelayState, e: Event)
    requires Inv(p, s) && Enabled(s, e)
    ensures Inv(p, Step(p, s, e))
  {
    hide Inv;
    match e
    case EvaluateCalled(call) => EvaluateKeepsInv(p, s, call);
    case EvaluationRecorded(id) => RecordKeepsInv(p, s, id);
    case EvaluationCleared(id) => ClearKeepsInv(p, s, id);
    case SubmitCalled(outcome) => SubmitKeepsInv(p, s, outcome);
    case SubmissionCleared(id) => SubmissionClearKeepsInv(p, s, id);
    case MachineSettled(_, _, _) => RunningStepKeepsInv(p, s, e);
    case EvaluationSettled(_, _) => RunningStepKeepsInv(p, s, e);
    case _ => SubmissionStepKeepsInv(p, s, e);
  }

  lemma InitialInv(p: Primitives, cap: nat)
    ensures Inv(p, Initial(cap))
  {
    hide SoundEvaluation, SoundSubmission, Registry.Tracks, Count, Completed, ZERO;
    ZeroCounters();
  }

  lemma {:induction false} RunsKeepInv(p: Primitives, cap: nat, events: seq<Event>)
    requires Legal(p, cap, events)
    ensures Inv(p, Run(p, cap, events))
  {
    hide Inv, Step, Enabled;
    if events == [] {
      InitialInv(p, cap);
    } else {
      var n := |events| - 1;
      RunsKeepInv(p, cap, events[..n]);
      StepKeepsInv(p, Run(p, cap, events[..n]), events[n]);
    }
  }
}
