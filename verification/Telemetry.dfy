/** The relay's aggregate counters, with the lifecycle guards of `evaluationFinished`. */
module Telemetry {
  import opened Threshold

  /** How an evaluation ended: with a relay status, or by an error. */
  datatype Ending = Ended(status: Status) | Threw

  datatype Meter = Meter(
    active: int, ready: nat, split: nat, unavailable: nat, errors: nat, invalid: nat, atCapacity: nat,
    coalesced: nat, valid: int, failed: int, submitted: nat, submitErrors: nat, notReady: nat,
    submitCoalesced: nat)

  const ZERO: Meter := Meter(0, 0, 0, 0, 0, 0, 0, 0, 0, 0, 0, 0, 0, 0)

  function Completed(m: Meter): nat { m.ready + m.split + m.unavailable + m.errors }

  function Refused(m: Meter): nat { m.invalid + m.atCapacity }

  predicate IsMachineCount(n: int) { 0 <= n <= 3 }

  lemma ZeroCounters()
    ensures Completed(ZERO) == Refused(ZERO) == 0 && ZERO.active == ZERO.valid == ZERO.failed == 0
    ensures ZERO.coalesced == ZERO.submitted == ZERO.submitErrors == ZERO.notReady == ZERO.submitCoalesced == 0
  {
  }

  /** When none of the guards of `evaluationFinished` throws. */
  predicate FinishAllowed(m: Meter, valid: int, failed: int) {
    m.active > 0 && IsMachineCount(valid) && IsMachineCount(failed) && valid + failed == 3
  }

  function FinishMeter(m: Meter, ending: Ending, valid: int, failed: int): (r: Meter)
    ensures Completed(r) == Completed(m) + 1 && r.active == m.active - 1
  {
    var n := m.(active := m.active - 1, valid := m.valid + valid, failed := m.failed + failed);
    match ending
    case Ended(THRESHOLD_READY) => n.(ready := n.ready + 1)
    case Ended(SPLIT) => n.(split := n.split + 1)
    case Ended(UNAVAILABLE) => n.(unavailable := n.unavailable + 1)
    case Threw => n.(errors := n.errors + 1)
  }

  class RelayTelemetry {
    var activeEvaluations: int
    var ready: nat
    var split: nat
    var unavailable: nat
    var errors: nat
    var invalid: nat
    var atCapacity: nat
    var coalesced: nat
    var valid: int
    var failed: int
    var submitted: nat
    var submitErrors: nat
    var notReady: nat
    var submitCoalesced: nat

    constructor ()
      ensures Snapshot() == ZERO
    {
      activeEvaluations, ready, split, unavailable, errors, invalid, atCapacity := 0, 0, 0, 0, 0, 0, 0;
      coalesced, valid, failed, submitted, submitErrors, notReady, submitCoalesced := 0, 0, 0, 0, 0, 0, 0;
    }

    function Snapshot(): Meter
      reads this
    {
      Meter(activeEvaluations, ready, split, unavailable, errors, invalid, atCapacity, coalesced, valid, failed,
            submitted, submitErrors, notReady, submitCoalesced)
    }

    method EvaluationStarted()
      modifies this
      ensures Snapshot() == old(Snapshot()).(active := old(activeEvaluations) + 1)
    {
      activeEvaluations := activeEvaluations + 1;
    }

    /** False when a guard throws, and then nothing has changed. */
    method EvaluationFinished(ending: Ending, validMachines: int, failedMachines: int) returns (ok: bool)
      modifies this
      ensures ok <==>
        && old(activeEvaluations) > 0 && 0 <= validMachines <= 3 && 0 <= failedMachines <= 3
        && validMachines + failedMachines == 3
      ensures ok == FinishAllowed(old(Snapshot()), validMachines, failedMachines)
      ensures ok ==>
        && activeEvaluations == old(activeEvaluations) - 1
        && valid == old(valid) + validMachines && failed == old(failed) + failedMachines
        && ready == old(ready) + (if ending == Ended(THRESHOLD_READY) then 1 else 0)
        && split == old(split) + (if ending == Ended(SPLIT) then 1 else 0)
        && unavailable == old(unavailable) + (if ending == Ended(UNAVAILABLE) then 1 else 0)
        && errors == old(errors) + (if ending == Threw then 1 else 0)
      ensures Snapshot() ==
              if ok then FinishMeter(old(Snapshot()), ending, validMachines, failedMachines) else old(Snapshot())
    {
      if activeEvaluations <= 0 || !IsMachineCount(validMachines) || !IsMachineCount(failedMachines) {
        return false;
      }
      if validMachines + failedMachines != 3 {
        return false;
      }
      activeEvaluations := activeEvaluations - 1;
      match ending {
        case Ended(THRESHOLD_READY) => ready := ready + 1;
        case Ended(SPLIT) => split := split + 1;
        case Ended(UNAVAILABLE) => unavailable := unavailable + 1;
        case Threw => errors := errors + 1;
      }
      valid := valid + validMachines;
      failed := failed + failedMachines;
      return true;
    }

    method EvaluationRejected(full: bool)
      modifies this
      ensures full ==> Snapshot() == old(Snapshot()).(atCapacity := old(atCapacity) + 1)
      ensures !full ==> Snapshot() == old(Snapshot()).(invalid := old(invalid) + 1)
    {
      if full { atCapacity := atCapacity + 1; } else { invalid := invalid + 1; }
    }

    method EvaluationWasCoalesced()
      modifies this
      ensures Snapshot() == old(Snapshot()).(coalesced := old(coalesced) + 1)
    {
      coalesced := coalesced + 1;
    }

    method SubmissionFinished(success: bool)
      modifies this
      ensures success ==> Snapshot() == old(Snapshot()).(submitted := old(submitted) + 1)
      ensures !success ==> Snapshot() == old(Snapshot()).(submitErrors := old(submitErrors) + 1)
    {
      if success { submitted := submitted + 1; } else { submitErrors := submitErrors + 1; }
    }

    method SubmissionRejected()
      modifies this
      ensures Snapshot() == old(Snapshot()).(notReady := old(notReady) + 1)
    {
      notReady := notReady + 1;
    }

    method SubmissionWasCoalesced()
      modifies this
      ensures Snapshot() == old(Snapshot()).(submitCoalesced := old(submitCoalesced) + 1)
    {
      submitCoalesced := submitCoalesced + 1;
    }
  }
}
