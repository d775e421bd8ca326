/** What the relay's counters say of its runs, counter by counter. */
module RelayTallies {
  import opened Outcomes
  import opened Texts
  import opened Protocol
  import opened EvaluationKey
  import opened Threshold
  import opened Evaluation
  import opened Telemetry
  import opened InFlight
  import opened RelayRuns
  import opened RelayGuarantees

  // ---- summing over operations ----------------------------------------------------------

  function Sum<P>(ops: seq<Op<P>>, weight: Op<P> -> int): int {
    if ops == [] then 0 else Sum(ops[..|ops| - 1], weight) + weight(ops[|ops| - 1])
  }

  lemma SumAppend<P>(ops: seq<Op<P>>, op: Op<P>, weight: Op<P> -> int)
    ensures Sum(ops + [op], weight) == Sum(ops, weight) + weight(op)
  {
    assert (ops + [op])[..|ops|] == ops;
  }

  lemma {:induction false} SumUpdate<P>(ops: seq<Op<P>>, id: nat, op: Op<P>, weight: Op<P> -> int)
    requires id < |ops|
    ensures Sum(ops[id := op], weight) == Sum(ops, weight) - weight(ops[id]) + weight(op)
  {
    var n := |ops| - 1;
    if id < n {
      SumUpdate(ops[..n], id, op, weight);
      assert ops[id := op][..n] == ops[..n][id := op];
    } else {
      assert ops[id := op][..n] == ops[..n];
    }
  }

  // ---- what is summed -------------------------------------------------------------------

  /** The `then` callback of the operation has run. */
  predicate IsPast<P>(op: Op<P>) { op.stage == Stage.Recorded || op.stage == Finished }

  predicate Resolved(op: Op<EvaluationJob>) { IsPast(op) && op.payload.result.Some? && op.payload.result.value.Ok? }

  predicate Failed(op: Op<EvaluationJob>) { IsPast(op) && op.payload.result.Some? && op.payload.result.value.Err? }

  function EndedAs(status: Status): Op<EvaluationJob> -> int {
    (op: Op<EvaluationJob>) => if Resolved(op) && op.payload.result.value.value.selection.status == status then 1 else 0
  }

  function FailedOnes(): Op<EvaluationJob> -> int { (op: Op<EvaluationJob>) => if Failed(op) then 1 else 0 }

  /** The machines whose envelopes an evaluation kept; none when it failed. */
  function KeptMachines(): Op<EvaluationJob> -> int {
    (op: Op<EvaluationJob>) => if Resolved(op) then |op.payload.result.value.value.selection.valid| else 0
  }

  /** The machine calls that failed an evaluation; all three when it failed. */
  function LostMachines(): Op<EvaluationJob> -> int {
    (op: Op<EvaluationJob>) =>
      if Resolved(op) then op.payload.result.value.value.failures else if Failed(op) then 3 else 0
  }

  /** The submissions all of whose envelopes were sent. */
  function SentOnes(): Op<SubmissionJob> -> int {
    (op: Op<SubmissionJob>) => if IsPast(op) && |op.payload.sent| == 2 then 1 else 0
  }

  /** And the others. */
  function UnsentOnes(): Op<SubmissionJob> -> int {
    (op: Op<SubmissionJob>) => if IsPast(op) && |op.payload.sent| < 2 then 1 else 0
  }

  ghost predicate EvaluationsTold(s: RelayState) {
    var ops, m := s.evaluations.ops, s.meter;
    && m.ready == Sum(ops, EndedAs(THRESHOLD_READY)) && m.split == Sum(ops, EndedAs(SPLIT))
    && m.unavailable == Sum(ops, EndedAs(UNAVAILABLE)) && m.errors == Sum(ops, FailedOnes())
    && m.valid == Sum(ops, KeptMachines()) && m.failed == Sum(ops, LostMachines())
  }

  ghost predicate SubmissionsTold(s: RelayState) {
    && s.meter.submitted == Sum(s.submissions.ops, SentOnes())
    && s.meter.submitErrors == Sum(s.submissions.ops, UnsentOnes())
  }

  // ---- every step keeps it --------------------------------------------------------------

  predicate SameEvaluationCounters(m: Meter, n: Meter) {
    && m.ready == n.ready && m.split == n.split && m.unavailable == n.unavailable && m.errors == n.errors
    && m.valid == n.valid && m.failed == n.failed
  }

  lemma AppendKeepsTold(s: RelayState, t: RelayState, op: Op<EvaluationJob>)
    requires EvaluationsTold(s) && !IsPast(op) && t.evaluations.ops == s.evaluations.ops + [op]
    requires SameEvaluationCounters(s.meter, t.meter)
    ensures EvaluationsTold(t)
  {
    var ops := s.evaluations.ops;
    SumAppend(ops, op, EndedAs(THRESHOLD_READY));
    SumAppend(ops, op, EndedAs(SPLIT));
    SumAppend(ops, op, EndedAs(UNAVAILABLE));
    SumAppend(ops, op, FailedOnes());
    SumAppend(ops, op, KeptMachines());
    SumAppend(ops, op, LostMachines());
  }

  /** An update that does not record the operation, or that finishes a recorded one. */
  lemma UpdateKeepsTold(s: RelayState, t: RelayState, id: nat, op: Op<EvaluationJob>)
    requires EvaluationsTold(s) && id < |s.evaluations.ops| && t.evaluations.ops == s.evaluations.ops[id := op]
    requires var was := s.evaluations.ops[id];
      (!IsPast(was) && !IsPast(op)) || (IsPast(was) && IsPast(op) && op.payload == was.payload)
    requires SameEvaluationCounters(s.meter, t.meter)
    ensures EvaluationsTold(t)
  {
    var ops := s.evaluations.ops;
    SumUpdate(ops, id, op, EndedAs(THRESHOLD_READY));
    SumUpdate(ops, id, op, EndedAs(SPLIT));
    SumUpdate(ops, id, op, EndedAs(UNAVAILABLE));
    SumUpdate(ops, id, op, FailedOnes());
    SumUpdate(ops, id, op, KeptMachines());
    SumUpdate(ops, id, op, LostMachines());
  }

  lemma Recording(s: RelayState, id: nat)
    requires EvaluationAt(s, id, Settled) && s.evaluations.ops[id].payload.result.Some?
    requires var r := s.evaluations.ops[id].payload.result.value; FinishAllowed(s.meter, ValidCount(r), FailedCount(r))
    ensures var r := s.evaluations.ops[id].payload.result.value; var t := AfterRecorded(s, id);
      && t.evaluations.ops == s.evaluations.ops[id := s.evaluations.ops[id].(stage := Stage.Recorded)]
      && t.meter == FinishMeter(s.meter, EndingOf(r), ValidCount(r), FailedCount(r))
  {
    hide FinishMeter, FinishAllowed, ValidCount, FailedCount, EndingOf;
  }

  lemma RecordingIsTold(s: RelayState, id: nat)
    requires EvaluationsTold(s) && EvaluationAt(s, id, Settled) && s.evaluations.ops[id].payload.result.Some?
    requires var r := s.evaluations.ops[id].payload.result.value; FinishAllowed(s.meter, ValidCount(r), FailedCount(r))
    ensures EvaluationsTold(AfterRecorded(s, id))
  {
    Recording(s, id);
    hide Sum, AfterRecorded, FinishAllowed;
    var ops, op := s.evaluations.ops, s.evaluations.ops[id].(stage := Stage.Recorded);
    SumUpdate(ops, id, op, EndedAs(THRESHOLD_READY));
    SumUpdate(ops, id, op, EndedAs(SPLIT));
    SumUpdate(ops, id, op, EndedAs(UNAVAILABLE));
    SumUpdate(ops, id, op, FailedOnes());
    SumUpdate(ops, id, op, KeptMachines());
    SumUpdate(ops, id, op, LostMachines());
  }

  lemma SubmissionUpdateIsTold(s: RelayState, t: RelayState, id: nat, op: Op<SubmissionJob>)
    requires SubmissionsTold(s) && id < |s.submissions.ops| && t.submissions.ops == s.submissions.ops[id := op]
    requires t.meter.submitted == s.meter.submitted - SentOnes()(s.submissions.ops[id]) + SentOnes()(op)
    requires t.meter.submitErrors == s.meter.submitErrors - UnsentOnes()(s.submissions.ops[id]) + UnsentOnes()(op)
    ensures SubmissionsTold(t)
  {
    SumUpdate(s.submissions.ops, id, op, SentOnes());
    SumUpdate(s.submissions.ops, id, op, UnsentOnes());
  }

  lemma CallIsTold(p: Primitives, s: RelayState, call: Call)
    requires EvaluationsTold(s)
    ensures EvaluationsTold(AfterEvaluate(p, s, call))
  {
    hide EvaluationsTold, Key, FrozenMachines, Encodable, Checksummed, Sum;
    var t := AfterEvaluate(p, s, call);
    if RespondEvaluate(p, s, call).Started? {
      var c := Prepared(p, call);
      AppendKeepsTold(s, t, Op(Key(p, c), Running, FreshJob(c)));
    } else {
      SameOperationsAreTold(s, t);
    }
  }

  lemma EvaluationStepIsTold(p: Primitives, s: RelayState, e: Event)
    requires Inv(p, s) && Enabled(s, e) && EvaluationsTold(s)
    ensures EvaluationsTold(Step(p, s, e))
  {
    if e.EvaluateCalled? {
      CallIsTold(p, s, e.call);
    } else if e.EvaluationRecorded? {
      GuardsNeverFire(p, s, e.id);
      RecordingIsTold(s, e.id);
    } else if e.MachineSettled? || e.EvaluationSettled? || e.EvaluationCleared? {
      UpdatesOne(p, s, e);
      hide Inv, EvaluationsTold, Step;
      UpdateKeepsTold(s, Step(p, s, e), e.id, Step(p, s, e).evaluations.ops[e.id]);
    } else {
      SubmissionsLeaveEvaluations(p, s, e);
      hide Inv, EvaluationsTold, Step;
      SameOperationsAreTold(s, Step(p, s, e));
    }
  }

  lemma UpdatesOne(p: Primitives, s: RelayState, e: Event)
    requires Enabled(s, e) && (e.MachineSettled? || e.EvaluationSettled? || e.EvaluationCleared?)
    ensures var ops, t := s.evaluations.ops, Step(p, s, e);
      && e.id < |ops| == |t.evaluations.ops| && t.evaluations.ops == ops[e.id := t.evaluations.ops[e.id]]
      && t.meter == s.meter
      && var was, op := ops[e.id], t.evaluations.ops[e.id];
         (!IsPast(was) && !IsPast(op)) || (IsPast(was) && IsPast(op) && op.payload == was.payload)
  {
    hide OutcomeOf;
  }

  lemma SubmissionsLeaveEvaluations(p: Primitives, s: RelayState, e: Event)
    requires Enabled(s, e)
    requires || e.SubmitCalled? || e.EnvelopeSent? || e.EnvelopeRefused? || e.SubmissionRecorded?
             || e.SubmissionCleared?
    ensures Step(p, s, e).evaluations == s.evaluations
    ensures SameEvaluationCounters(s.meter, Step(p, s, e).meter)
  {
    hide SubmissionKey, ReadyToSubmit;
  }

  lemma SameOperationsAreTold(s: RelayState, t: RelayState)
    requires EvaluationsTold(s) && t.evaluations.ops == s.evaluations.ops && SameEvaluationCounters(s.meter, t.meter)
    ensures EvaluationsTold(t)
  {
    hide Sum;
  }

  lemma SubmitCallIsTold(s: RelayState, o: RelayOutcome)
    requires SubmissionsTold(s)
    ensures SubmissionsTold(AfterSubmit(s, o))
  {
    hide Sum, SubmissionKey;
    if RespondSubmit(s, o).Started? {
      var op := Op(SubmissionKey(o), Running, SubmissionJob(o, [], false));
      SumAppend(s.submissions.ops, op, SentOnes());
      SumAppend(s.submissions.ops, op, UnsentOnes());
    }
  }

  lemma SubmissionStepIsTold(p: Primitives, s: RelayState, e: Event)
    requires Inv(p, s) && Enabled(s, e) && SubmissionsTold(s)
    ensures SubmissionsTold(Step(p, s, e))
  {
    hide EvaluationsInv, MeterInv, Sum, Key, OutcomeOf, AfterEvaluate, AfterSubmit, FinishMeter, SubmissionKey,
      ReadyToSubmit;
    var t := Step(p, s, e);
    if e.SubmitCalled? {
      SubmitCallIsTold(s, e.outcome);
    } else if e.EnvelopeSent? || e.EnvelopeRefused? || e.SubmissionRecorded? || e.SubmissionCleared? {
      assert SoundSubmission(s.submissions.ops[e.id]);
      UpdatesOneSubmission(p, s, e);
      hide Step, SubmissionsInv, SoundSubmission;
      SubmissionUpdateIsTold(s, t, e.id, t.submissions.ops[e.id]);
    } else {
      EvaluationsLeaveSubmissions(p, s, e);
    }
  }

  lemma UpdatesOneSubmission(p: Primitives, s: RelayState, e: Event)
    requires Enabled(s, e)
    requires e.EnvelopeSent? || e.EnvelopeRefused? || e.SubmissionRecorded? || e.SubmissionCleared?
    requires SoundSubmission(s.submissions.ops[e.id])
    ensures var ops, t := s.submissions.ops, Step(p, s, e);
      && e.id < |ops| == |t.submissions.ops| && t.submissions.ops == ops[e.id := t.submissions.ops[e.id]]
      && t.meter.submitted == s.meter.submitted - SentOnes()(ops[e.id]) + SentOnes()(t.submissions.ops[e.id])
      && t.meter.submitErrors == s.meter.submitErrors - UnsentOnes()(ops[e.id]) + UnsentOnes()(t.submissions.ops[e.id])
  {
    hide SubmissionKey, ReadyToSubmit;
  }

  lemma EvaluationsLeaveSubmissions(p: Primitives, s: RelayState, e: Event)
    requires Enabled(s, e)
    requires || e.EvaluateCalled? || e.MachineSettled? || e.EvaluationSettled? || e.EvaluationRecorded?
             || e.EvaluationCleared?
    ensures var t := Step(p, s, e);
      && t.submissions == s.submissions
      && t.meter.submitted == s.meter.submitted && t.meter.submitErrors == s.meter.submitErrors
  {
    hide Key, OutcomeOf, FrozenMachines, Encodable, Checksummed;
  }

  // ---- responses ------------------------------------------------------------------------

  datatype Way = Refusing | AtTheCap | Joining | Unready

  predicate Is(r: Response, way: Way) {
    match way
    case Refusing => r.Invalid?
    case AtTheCap => r.AtCapacity?
    case Joining => r.Joined?
    case Unready => r.NotReady?
  }

  /** How many calls for evaluation were answered in a way. */
  ghost function EvaluationsAnswered(p: Primitives, cap: nat, events: seq<Event>, way: Way): nat
    requires Legal(p, cap, events)
  {
    if events == [] then 0
    else
      var n := |events| - 1;
      EvaluationsAnswered(p, cap, events[..n], way)
        + (match events[n]
           case EvaluateCalled(call) => if Is(RespondEvaluate(p, Run(p, cap, events[..n]), call), way) then 1 else 0
           case _ => 0)
  }

  ghost function SubmissionsAnswered(p: Primitives, cap: nat, events: seq<Event>, way: Way): nat
    requires Legal(p, cap, events)
  {
    if events == [] then 0
    else
      var n := |events| - 1;
      SubmissionsAnswered(p, cap, events[..n], way)
        + (match events[n]
           case SubmitCalled(o) => if Is(RespondSubmit(Run(p, cap, events[..n]), o), way) then 1 else 0
           case _ => 0)
  }

  function One(b: bool): nat { if b then 1 else 0 }

  lemma StepCountsAnswer(p: Primitives, s: RelayState, e: Event)
    requires Enabled(s, e)
    ensures var m, n := s.meter, Step(p, s, e).meter;
      if e.EvaluateCalled? then
        var r := RespondEvaluate(p, s, e.call);
        && n.invalid == m.invalid + One(r.Invalid?) && n.atCapacity == m.atCapacity + One(r.AtCapacity?)
        && n.coalesced == m.coalesced + One(r.Joined?)
      else n.invalid == m.invalid && n.atCapacity == m.atCapacity && n.coalesced == m.coalesced
    ensures var m, n := s.meter, Step(p, s, e).meter;
      if e.SubmitCalled? then
        var r := RespondSubmit(s, e.outcome);
        n.notReady == m.notReady + One(r.NotReady?) && n.submitCoalesced == m.submitCoalesced + One(r.Joined?)
      else n.notReady == m.notReady && n.submitCoalesced == m.submitCoalesced
  {
    hide Key, OutcomeOf, FrozenMachines, Checksummed, SubmissionKey, ReadyToSubmit, Encodable;
  }

  lemma {:induction false} AnswersAreTold(p: Primitives, cap: nat, events: seq<Event>)
    requires Legal(p, cap, events)
    ensures var m := Run(p, cap, events).meter;
      && m.invalid == EvaluationsAnswered(p, cap, events, Refusing)
      && m.atCapacity == EvaluationsAnswered(p, cap, events, AtTheCap)
      && m.coalesced == EvaluationsAnswered(p, cap, events, Joining)
      && m.notReady == SubmissionsAnswered(p, cap, events, Unready)
      && m.submitCoalesced == SubmissionsAnswered(p, cap, events, Joining)
  {
    hide Step, Enabled, RespondEvaluate, RespondSubmit;
    if events != [] {
      var n := |events| - 1;
      AnswersAreTold(p, cap, events[..n]);
      StepCountsAnswer(p, Run(p, cap, events[..n]), events[n]);
    }
  }

  // ---- whole runs -----------------------------------------------------------------------

  lemma {:induction false} OperationsAreTold(p: Primitives, cap: nat, events: seq<Event>)
    requires Legal(p, cap, events)
    ensures EvaluationsTold(Run(p, cap, events)) && SubmissionsTold(Run(p, cap, events))
  {
    if events != [] {
      var n := |events| - 1;
      OperationsAreTold(p, cap, events[..n]);
      RunsKeepInv(p, cap, events[..n]);
      hide Inv, Step, Enabled, EvaluationsTold, SubmissionsTold;
      EvaluationStepIsTold(p, Run(p, cap, events[..n]), events[n]);
      SubmissionStepIsTold(p, Run(p, cap, events[..n]), events[n]);
    }
  }

  /** In every run every counter is what its name says: the recorded evaluations by the status they
      ended with, or errors; the machines whose envelopes they kept and lost; the submissions that
      sent both envelopes and those that did not; and the calls by how they were answered. */
  lemma CountersTellTheRun(p: Primitives, cap: nat, events: seq<Event>)
    requires Legal(p, cap, events)
    ensures var s := Run(p, cap, events); var m, ops := s.meter, s.evaluations.ops;
      && m.ready == Sum(ops, EndedAs(THRESHOLD_READY)) && m.split == Sum(ops, EndedAs(SPLIT))
      && m.unavailable == Sum(ops, EndedAs(UNAVAILABLE)) && m.errors == Sum(ops, FailedOnes())
      && m.valid == Sum(ops, KeptMachines()) && m.failed == Sum(ops, LostMachines())
      && m.submitted == Sum(s.submissions.ops, SentOnes()) && m.submitErrors == Sum(s.submissions.ops, UnsentOnes())
    ensures var m := Run(p, cap, events).meter;
      && m.invalid == EvaluationsAnswered(p, cap, events, Refusing)
      && m.atCapacity == EvaluationsAnswered(p, cap, events, AtTheCap)
      && m.coalesced == EvaluationsAnswered(p, cap, events, Joining)
      && m.notReady == SubmissionsAnswered(p, cap, events, Unready)
      && m.submitCoalesced == SubmissionsAnswered(p, cap, events, Joining)
  {
    OperationsAreTold(p, cap, events);
    AnswersAreTold(p, cap, events);
  }
}
