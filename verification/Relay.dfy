/** The relay object.  Its promises are kept in two tables, and each method is one turn of the
    event loop; the guarantees about whole runs are stated on the steps these methods refine. */
module Relays {
  import opened Outcomes
  import opened Texts
  import opened Protocol
  import opened EvaluationKey
  import opened Threshold
  import opened Evaluation
  import opened Telemetry
  import opened InFlight
  import opened RelayRuns

  class Relay {
    const p: Primitives
    const maxConcurrentEvaluations: nat
    const telemetry: RelayTelemetry
    var inFlightEvaluations: map<Text, nat>
    var inFlightSubmissions: map<Text, nat>
    var activeEvaluations: int
    var evaluations: seq<Op<EvaluationJob>>
    var submissions: seq<Op<SubmissionJob>>

    constructor (p: Primitives, maxConcurrentEvaluations: nat, telemetry: RelayTelemetry)
      requires maxConcurrentEvaluations > 0 && telemetry.Snapshot() == ZERO
      ensures State() == Initial(maxConcurrentEvaluations)
      ensures this.p == p && this.telemetry == telemetry
    {
      this.p, this.maxConcurrentEvaluations, this.telemetry := p, maxConcurrentEvaluations, telemetry;
      inFlightEvaluations, inFlightSubmissions, activeEvaluations := map[], map[], 0;
      evaluations, submissions := [], [];
      hide ZERO;
    }

    function State(): RelayState
      reads this, telemetry
    {
      RelayState(maxConcurrentEvaluations, Registry(inFlightEvaluations, evaluations), activeEvaluations,
                 Registry(inFlightSubmissions, submissions), telemetry.Snapshot())
    }

    method Evaluate(call: Call) returns (response: Response)
      modifies this, telemetry
      ensures response == RespondEvaluate(p, old(State()), call)
      ensures State() == Step(p, old(State()), EvaluateCalled(call))
    {
      hide FrozenMachines, Key;
      var machines := ValidateMachines(p, call.machines);
      if machines.Err? || !Encodable(p, call) {
        telemetry.EvaluationRejected(false);
        return Invalid;
      }
      var prepared := call.(machines := machines.value);
      var key := Key(p, prepared);
      if key in inFlightEvaluations {
        telemetry.EvaluationWasCoalesced();
        return Joined(inFlightEvaluations[key]);
      }
      if activeEvaluations >= maxConcurrentEvaluations {
        telemetry.EvaluationRejected(true);
        return AtCapacity;
      }
      activeEvaluations := activeEvaluations + 1;
      telemetry.EvaluationStarted();
      response := Started(|evaluations|);
      inFlightEvaluations := inFlightEvaluations[key := |evaluations|];
      evaluations := evaluations + [Op(key, Running, FreshJob(prepared))];
    }

    /** One machine call answers, fails or times out. */
    method MachineCallSettles(id: nat, slot: nat, reply: Reply)
      requires Enabled(State(), MachineSettled(id, slot, reply))
      modifies this
      ensures State() == Step(p, old(State()), MachineSettled(id, slot, reply))
    {
      var op := evaluations[id];
      var job := op.payload.(slots := op.payload.slots[slot := Some(reply)]);
      evaluations := evaluations[id := Op(op.key, Running, job)];
    }

    /** All three machine calls have settled; `nows` are the clock readings, None a clock that throws. */
    method EvaluateOnceResumes(id: nat, nows: Option<seq<int>>)
      requires Enabled(State(), EvaluationSettled(id, nows))
      modifies this
      ensures State() == Step(p, old(State()), EvaluationSettled(id, nows))
    {
      hide OutcomeOf;
      var op := evaluations[id];
      var job := op.payload;
      if nows.None? {
        job := job.(result := Some(Err("clock failed")));
      } else {
        var outcome := EvaluateOnce(p, job.call.request, job.call.machines, Replies(job.slots), nows.value);
        job := job.(nows := nows.value, result := Some(Ok(outcome)));
      }
      evaluations := evaluations[id := Op(op.key, Settled, job)];
    }

    /** The two handlers passed to `then`. */
    method EvaluationThen(id: nat)
      requires Enabled(State(), EvaluationRecorded(id))
      modifies this, telemetry
      ensures State() == Step(p, old(State()), EvaluationRecorded(id))
    {
      hide FinishMeter;
      var op := evaluations[id];
      var job := op.payload;
      var ok;
      match job.result.value {
        case Ok(o) => ok := telemetry.EvaluationFinished(Ended(o.selection.status), |o.selection.valid|, o.failures);
        case Err(_) => ok := telemetry.EvaluationFinished(Threw, 0, 3);
      }
      if !ok { job := job.(result := Some(Err("telemetry lifecycle is unbalanced"))); }
      evaluations := evaluations[id := Op(op.key, Recorded, job)];
    }

    method EvaluationFinally(id: nat)
      requires Enabled(State(), EvaluationCleared(id))
      modifies this
      ensures State() == Step(p, old(State()), EvaluationCleared(id))
    {
      inFlightEvaluations := inFlightEvaluations - {evaluations[id].key};
      activeEvaluations := activeEvaluations - 1;
      evaluations := evaluations[id := evaluations[id].(stage := Finished)];
    }

    method SubmitThreshold(outcome: RelayOutcome) returns (response: Response)
      modifies this, telemetry
      ensures response == RespondSubmit(old(State()), outcome)
      ensures State() == Step(p, old(State()), SubmitCalled(outcome))
    {
      var sel := outcome.selection;
      if sel.status != THRESHOLD_READY || sel.digest.None? || sel.digest.value == [] || |sel.matching| < 2 {
        telemetry.SubmissionRejected();
        return NotReady;
      }
      var key := SubmissionKey(outcome);
      if key in inFlightSubmissions {
        telemetry.SubmissionWasCoalesced();
        return Joined(inFlightSubmissions[key]);
      }
      response := Started(|submissions|);
      inFlightSubmissions := inFlightSubmissions[key := |submissions|];
      submissions := submissions + [Op(key, Running, SubmissionJob(outcome, [], false))];
    }

    /** One turn of the loop over the first two matching envelopes. */
    method SubmitOnceResumes(id: nat, accepted: bool)
      requires Enabled(State(), if accepted then EnvelopeSent(id) else EnvelopeRefused(id))
      modifies this
      ensures State() == Step(p, old(State()), if accepted then EnvelopeSent(id) else EnvelopeRefused(id))
    {
      var op := submissions[id];
      var job, stage := op.payload, Settled;
      if accepted {
        job := job.(sent := job.sent + [job.outcome.selection.matching[|job.sent|]]);
        stage := if |job.sent| == 2 then Settled else Running;
      } else {
        job := job.(failed := true);
      }
      submissions := submissions[id := Op(op.key, stage, job)];
    }

    method SubmissionThen(id: nat)
      requires Enabled(State(), SubmissionRecorded(id))
      modifies this, telemetry
      ensures State() == Step(p, old(State()), SubmissionRecorded(id))
    {
      var op := submissions[id];
      telemetry.SubmissionFinished(!op.payload.failed);
      submissions := submissions[id := op.(stage := Recorded)];
    }

    method SubmissionFinally(id: nat)
      requires Enabled(State(), SubmissionCleared(id))
      modifies this
      ensures State() == Step(p, old(State()), SubmissionCleared(id))
    {
      inFlightSubmissions := inFlightSubmissions - {submissions[id].key};
      submissions := submissions[id := submissions[id].(stage := Finished)];
    }
  }
}
