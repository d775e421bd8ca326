/** What every run of the relay guarantees. */
module RelayGuarantees {
  import opened Outcomes
  import opened Texts
  import opened Protocol
  import opened EvaluationKey
  import opened Threshold
  import opened Evaluation
  import opened Telemetry
  import opened InFlight
  import opened RelayRuns

  // ---- concurrency ----------------------------------------------------------------------

  /** The counter is the number of keys in flight, which is the number of operations not yet
      cleared; it never exceeds the cap, no two of these share a key, and nothing is left
      behind when all are cleared. */
  lemma ActiveIsInFlight(p: Primitives, cap: nat, events: seq<Event>)
    requires Legal(p, cap, events)
    ensures var s := Run(p, cap, events);
      && s.active == |s.evaluations.inFlight| == Count(s.evaluations.ops, OPEN) <= cap
      && NoSharedKey(s.evaluations.ops)
      && ((forall i :: 0 <= i < |s.evaluations.ops| ==> s.evaluations.ops[i].stage == Finished)
            <==> s.active == 0 && s.evaluations.inFlight == map[])
  {
    hide SoundEvaluation, SubmissionsInv, MeterInv;
    RunsKeepInv(p, cap, events);
    CapIsKept(p, cap, events);
    OneOpenPerKey(Run(p, cap, events).evaluations);
  }

  ghost predicate NoSharedKey<P>(ops: seq<Op<P>>) {
    forall i, j :: 0 <= i < j < |ops| && ops[i].stage in OPEN && ops[j].stage in OPEN ==> ops[i].key != ops[j].key
  }

  lemma {:induction false} CapIsKept(p: Primitives, cap: nat, events: seq<Event>)
    requires Legal(p, cap, events)
    ensures Run(p, cap, events).cap == cap
  {
    if events != [] {
      CapIsKept(p, cap, events[..|events| - 1]);
      StepKeepsCap(p, Run(p, cap, events[..|events| - 1]), events[|events| - 1]);
    }
  }

  lemma StepKeepsCap(p: Primitives, s: RelayState, e: Event)
    requires Enabled(s, e)
    ensures Step(p, s, e).cap == s.cap
  {
  }

  // ---- sharing --------------------------------------------------------------------------

  /** How every call is answered: with an error if and only if its machines are not three frozen ones
      or it cannot be hashed; otherwise it joins the open operation that was asked the same thing, if
      there is one, and if not it is refused at the cap and starts its own below it. */
  lemma JoinsExactlyEqualCalls(p: Primitives, cap: nat, events: seq<Event>, call: Call)
    requires Legal(p, cap, events)
    requires KeccakInjective(p) && RequestHashIdentifies(p)
    ensures var s := Run(p, cap, events); var r := RespondEvaluate(p, s, call);
      && (r.Invalid? <==> !(FrozenMachines(p, call.machines) && Encodable(p, call)))
      && (r.Joined? ==> SameQuestion(p, s, r.id, call))
      && (forall id :: !r.Invalid? && SameQuestion(p, s, id, call) ==> r == Joined(id))
      && (r.AtCapacity? ==> |s.evaluations.inFlight| == cap)
      && (r.Started? ==> |s.evaluations.inFlight| < cap && r.id == |s.evaluations.ops|)
      && !r.NotReady?
  {
    hide SubmissionsInv, MeterInv, Registry.Tracks, OutcomeOf, FrozenMachines, Encodable;
    RunsKeepInv(p, cap, events);
    CapIsKept(p, cap, events);
    var s := Run(p, cap, events);
    if ValidCall(p, call) {
      var key := Key(p, Prepared(p, call));
      if key in s.evaluations.inFlight {
        EntryIsOpen(s.evaluations, key);
        SameKeySameQuestion(p, s, s.evaluations.inFlight[key], call);
      }
      forall id | SameQuestion(p, s, id, call) ensures RespondEvaluate(p, s, call) == Joined(id) {
        SameKeySameQuestion(p, s, id, call);
        OpenIsEntry(s.evaluations, id);
      }
    }
  }

  /** A started evaluation is of the call that started it, with the signers checksummed, and none of
      its machines has answered. */
  lemma StartsTheCall(p: Primitives, s: RelayState, call: Call)
    requires RespondEvaluate(p, s, call).Started?
    ensures var id := RespondEvaluate(p, s, call).id; var t := Step(p, s, EvaluateCalled(call));
      && id == |s.evaluations.ops| && |t.evaluations.ops| == id + 1
      && var job := t.evaluations.ops[id].payload;
         && job.call.request == call.request && job.call.state == call.state
         && |job.call.machines| == |call.machines| == |job.slots| == 3 && job.result.None?
         && forall i :: 0 <= i < 3 ==>
              && job.call.machines[i] == call.machines[i].(signer := GetAddress(p, call.machines[i].signer))
              && job.slots[i].None?
  {
    hide Key, ToLower;
  }

  /** An open evaluation that was asked the same as the call, up to letter case and URL spelling. */
  ghost predicate SameQuestion(p: Primitives, s: RelayState, id: nat, call: Call) {
    && id < |s.evaluations.ops| && s.evaluations.ops[id].stage in OPEN
    && NormalCall(p, s.evaluations.ops[id].payload.call) == NormalCall(p, Prepared(p, call))
  }

  lemma SameKeySameQuestion(p: Primitives, s: RelayState, id: nat, call: Call)
    requires EvaluationsInv(p, s) && id < |s.evaluations.ops| && ValidCall(p, call)
    requires KeccakInjective(p) && RequestHashIdentifies(p)
    ensures s.evaluations.ops[id].key == Key(p, Prepared(p, call))
       <==> NormalCall(p, s.evaluations.ops[id].payload.call) == NormalCall(p, Prepared(p, call))
  {
    hide Key, NormalCall, OutcomeOf, Registry.Tracks;
    assert SoundEvaluation(p, s.evaluations.ops[id]);
    KeyIdentifiesCall(p, s.evaluations.ops[id].payload.call, Prepared(p, call));
  }

  lemma EntryIsOpen<P>(r: Registry<P>, key: Text)
    requires r.Tracks() && key in r.inFlight
    ensures r.inFlight[key] < |r.ops| && r.ops[r.inFlight[key]].key == key && r.ops[r.inFlight[key]].stage in OPEN
  {
  }

  lemma OpenIsEntry<P>(r: Registry<P>, id: nat)
    requires r.Tracks() && id < |r.ops| && r.ops[id].stage in OPEN
    ensures r.ops[id].key in r.inFlight && r.inFlight[r.ops[id].key] == id
  {
  }

  /** Only its own `finally` callback closes an evaluation, and nothing changes its question. */
  lemma StepKeepsOpen(p: Primitives, s: RelayState, e: Event, id: nat)
    requires Enabled(s, e) && id < |s.evaluations.ops| && s.evaluations.ops[id].stage in OPEN
    requires e != EvaluationCleared(id)
    ensures var t := Step(p, s, e);
      && id < |t.evaluations.ops| && t.evaluations.ops[id].stage in OPEN
      && t.evaluations.ops[id].key == s.evaluations.ops[id].key
  {
    hide Key, OutcomeOf, ReadyToSubmit, SubmissionKey, FrozenMachines, FinishMeter;
  }

  lemma {:induction false} OpenUntilCleared(p: Primitives, cap: nat, before: seq<Event>, after: seq<Event>, id: nat)
    requires Legal(p, cap, before) && Legal(p, cap, before + after)
    requires id < |Run(p, cap, before).evaluations.ops| && Run(p, cap, before).evaluations.ops[id].stage in OPEN
    requires EvaluationCleared(id) !in after
    ensures var s, t := Run(p, cap, before).evaluations, Run(p, cap, before + after).evaluations;
      id < |t.ops| && t.ops[id].stage in OPEN && t.ops[id].key == s.ops[id].key
  {
    hide Step, Enabled;
    if after == [] {
      assert before + after == before;
    } else {
      var n := |after| - 1;
      assert (before + after)[..|before + after| - 1] == before + after[..n];
      OpenUntilCleared(p, cap, before, after[..n], id);
      StepKeepsOpen(p, Run(p, cap, before + after[..n]), after[n], id);
    }
  }

  /** After a call has started an evaluation, every call with the same key gets that very
      evaluation, whatever happens in between, until its own `finally` callback runs. */
  lemma SharedUntilCleared(p: Primitives, cap: nat, before: seq<Event>, call: Call, between: seq<Event>, again: Call)
    requires Legal(p, cap, before) && Legal(p, cap, before + [EvaluateCalled(call)] + between)
    requires ValidCall(p, again) && Key(p, Prepared(p, again)) == Key(p, Prepared(p, call))
    requires RespondEvaluate(p, Run(p, cap, before), call).Started?
    requires EvaluationCleared(RespondEvaluate(p, Run(p, cap, before), call).id) !in between
    ensures RespondEvaluate(p, Run(p, cap, before + [EvaluateCalled(call)] + between), again)
         == Joined(RespondEvaluate(p, Run(p, cap, before), call).id)
  {
    hide Key, FrozenMachines, Encodable, Inv, Checksummed;
    var s := Run(p, cap, before);
    var started := before + [EvaluateCalled(call)];
    assert started[..|started| - 1] == before;
    LegalPrefix(p, cap, started, between);
    var id := RespondEvaluate(p, s, call).id;
    var prepared := Prepared(p, call);
    assert Run(p, cap, started).evaluations.ops[id] == Op(Key(p, prepared), Running, FreshJob(prepared));
    OpenUntilCleared(p, cap, started, between, id);
    RunsKeepInv(p, cap, started + between);
    InvTracks(p, Run(p, cap, started + between));
    OpenIsEntry(Run(p, cap, started + between).evaluations, id);
  }

  lemma InvTracks(p: Primitives, s: RelayState)
    requires Inv(p, s)
    ensures s.evaluations.Tracks() && s.submissions.Tracks()
  {
  }

  lemma {:induction false} LegalPrefix(p: Primitives, cap: nat, before: seq<Event>, after: seq<Event>)
    requires Legal(p, cap, before + after)
    ensures Legal(p, cap, before)
  {
    if after == [] {
      assert before + after == before;
    } else {
      assert (before + after)[..|before + after| - 1] == before + after[..|after| - 1];
      LegalPrefix(p, cap, before, after[..|after| - 1]);
    }
  }

  // ---- telemetry ------------------------------------------------------------------------

  function EvaluateCalls(events: seq<Event>): nat {
    if events == [] then 0
    else EvaluateCalls(events[..|events| - 1]) + (if events[|events| - 1].EvaluateCalled? then 1 else 0)
  }

  function SubmitCalls(events: seq<Event>): nat {
    if events == [] then 0
    else SubmitCalls(events[..|events| - 1]) + (if events[|events| - 1].SubmitCalled? then 1 else 0)
  }

  function EvaluateAnswers(s: RelayState): int { |s.evaluations.ops| + s.meter.coalesced + Refused(s.meter) }

  function SubmitAnswers(s: RelayState): int { |s.submissions.ops| + s.meter.submitCoalesced + s.meter.notReady }

  lemma StepAnswersCalls(p: Primitives, s: RelayState, e: Event)
    requires Enabled(s, e)
    ensures EvaluateAnswers(Step(p, s, e)) == EvaluateAnswers(s) + (if e.EvaluateCalled? then 1 else 0)
    ensures SubmitAnswers(Step(p, s, e)) == SubmitAnswers(s) + (if e.SubmitCalled? then 1 else 0)
  {
    hide Key, OutcomeOf, ReadyToSubmit, SubmissionKey, FrozenMachines, Encodable;
  }

  lemma {:induction false} CallsAreAnswered(p: Primitives, cap: nat, events: seq<Event>)
    requires Legal(p, cap, events)
    ensures EvaluateAnswers(Run(p, cap, events)) == EvaluateCalls(events)
    ensures SubmitAnswers(Run(p, cap, events)) == SubmitCalls(events)
  {
    hide Step, Enabled, ZERO, Refused;
    if events == [] {
      ZeroCounters();
    } else {
      CallsAreAnswered(p, cap, events[..|events| - 1]);
      StepAnswersCalls(p, Run(p, cap, events[..|events| - 1]), events[|events| - 1]);
    }
  }

  /** Every call is counted exactly once, every completed evaluation accounts for three machines,
      and the gauge is the number of evaluations whose `then` callback has not run. */
  lemma TelemetryBalances(p: Primitives, cap: nat, events: seq<Event>)
    requires Legal(p, cap, events)
    ensures var s := Run(p, cap, events); var m := s.meter;
      && m.active == Count(s.evaluations.ops, UNRECORDED)
      && EvaluateCalls(events) == Completed(m) + m.active + m.coalesced + m.invalid + m.atCapacity
      && m.valid + m.failed == 3 * Completed(m)
      && SubmitCalls(events)
         == m.submitted + m.submitErrors + Count(s.submissions.ops, UNRECORDED) + m.submitCoalesced + m.notReady
  {
    hide EvaluationsInv, SubmissionsInv;
    RunsKeepInv(p, cap, events);
    CallsAreAnswered(p, cap, events);
  }

  /** In no run does a guard of `evaluationFinished` throw. */
  lemma NoGuardFiresInAnyRun(p: Primitives, cap: nat, events: seq<Event>, id: nat)
    requires Legal(p, cap, events) && EvaluationAt(Run(p, cap, events), id, Settled)
    ensures Enabled(Run(p, cap, events), EvaluationRecorded(id))
    ensures var s := Run(p, cap, events); var r := s.evaluations.ops[id].payload.result.value;
      FinishAllowed(s.meter, ValidCount(r), FailedCount(r))
  {
    RunsKeepInv(p, cap, events);
    GuardsNeverFire(p, Run(p, cap, events), id);
  }

  // ---- replies --------------------------------------------------------------------------

  /** In every run, what an evaluation that has its outcome kept are exactly the replies its machines
      vouch for in time, in order, except repeated ones of a machine; all others are its failures. */
  lemma KeepsExactlyAttested(p: Primitives, cap: nat, events: seq<Event>, id: nat) returns (places: seq<nat>)
    requires Legal(p, cap, events)
    requires var ops := Run(p, cap, events).evaluations.ops;
      id < |ops| && ops[id].payload.result.Some? && ops[id].payload.result.value.Ok?
    ensures var job := Run(p, cap, events).evaluations.ops[id].payload; var outcome := job.result.value.value;
      && |job.slots| == |job.nows| == 3 && AllSettled(job.slots)
      && outcome.requestId == job.call.request.requestId
      && (forall k, l :: 0 <= k < l < |places| ==> places[k] < places[l])
      && (forall i: nat :: i in places <==>
            KeptAt(p, job.call.request, job.call.machines, Replies(job.slots), job.nows, i))
      && |outcome.selection.valid| == |places| && outcome.failures == 3 - |places|
      && forall k :: 0 <= k < |places| ==>
           places[k] < 3 && job.slots[places[k]] == Some(Replied(outcome.selection.valid[k]))
  {
    RunsKeepInv(p, cap, events);
    hide MeterInv, SubmissionsInv, Registry.Tracks, Key, Encodable, OutcomeOf, Run, Legal, KeptAt, DistinctIds;
    var s := Run(p, cap, events);
    assert SoundEvaluation(p, s.evaluations.ops[id]);
    var job := s.evaluations.ops[id].payload;
    places := KeptExactly(p, job.call.request, job.call.machines, Replies(job.slots), job.nows);
  }

  // ---- quorums --------------------------------------------------------------------------

  /** The evaluation ended ready, with this selection. */
  ghost predicate EndedReady(s: RelayState, id: nat, sel: Selection) {
    && id < |s.evaluations.ops|
    && s.evaluations.ops[id].payload.result.Some? && s.evaluations.ops[id].payload.result.value.Ok?
    && s.evaluations.ops[id].payload.result.value.value.selection == sel && sel.status == THRESHOLD_READY
  }

  /** Two evaluations of one request over the same machines that end ready in one run have a
      machine that signed both digests; when these differ, the machine equivocated. */
  lemma QuorumsIntersectInRuns(p: Primitives, cap: nat, events: seq<Event>, i: nat, j: nat, x: Selection, y: Selection)
    requires Legal(p, cap, events)
    requires var s := Run(p, cap, events);
      && EndedReady(s, i, x) && EndedReady(s, j, y)
      && s.evaluations.ops[i].payload.call.request == s.evaluations.ops[j].payload.call.request
      && s.evaluations.ops[i].payload.call.machines == s.evaluations.ops[j].payload.call.machines
    ensures x.digest.Some? && y.digest.Some?
    ensures var machines := Run(p, cap, events).evaluations.ops[i].payload.call.machines;
      exists k, e, f :: 0 <= k < |machines| && e in x.matching && f in y.matching
                          && Vouches(p, machines[k], e, x.digest.value) && Vouches(p, machines[k], f, y.digest.value)
  {
    var s := Run(p, cap, events);
    RunsKeepInv(p, cap, events);
    hide MeterInv, SubmissionsInv, Registry.Tracks, Key, Encodable, OutcomeOf, Vouches, Run, Legal;
    assert SoundEvaluation(p, s.evaluations.ops[i]) && SoundEvaluation(p, s.evaluations.ops[j]);
    var a, b := s.evaluations.ops[i].payload, s.evaluations.ops[j].payload;
    QuorumsIntersect(p, a.call.request, a.call.machines, Replies(a.slots), a.nows, Replies(b.slots), b.nows);
  }

  /** When the relay's own outcome is submitted, what the router is sent is the start of the
      outcome's first two matching envelopes, in order, and all of it when nothing failed; the
      two are vouched for, over the outcome's digest, by different machines of the call. */
  lemma SubmitsTwoVouchers(p: Primitives, cap: nat, events: seq<Event>, id: nat, source: nat)
    requires Legal(p, cap, events)
    requires var s := Run(p, cap, events);
      && id < |s.submissions.ops|
      && EndedReady(s, source, s.submissions.ops[id].payload.outcome.selection)
    ensures var s := Run(p, cap, events);
      var job, machines := s.submissions.ops[id].payload, s.evaluations.ops[source].payload.call.machines;
      var sel := job.outcome.selection;
      && |sel.matching| >= 2 && sel.digest.Some?
      && job.sent <= sel.matching[..2]
      && (s.submissions.ops[id].stage != Running && !job.failed ==> job.sent == sel.matching[..2])
      && exists a, b :: 0 <= a < 3 && 0 <= b < 3 && a != b && |machines| == 3
           && Vouches(p, machines[a], sel.matching[0], sel.digest.value)
           && Vouches(p, machines[b], sel.matching[1], sel.digest.value)
  {
    var s := Run(p, cap, events);
    RunsKeepInv(p, cap, events);
    hide MeterInv, Registry.Tracks, Key, Encodable, OutcomeOf, Vouches, SubmissionKey, Run, Legal;
    assert SoundSubmission(s.submissions.ops[id]) && SoundEvaluation(p, s.evaluations.ops[source]);
    var job := s.evaluations.ops[source].payload;
    var a, b := ReadyOutcomeHasTwoVouchers(p, job.call.request, job.call.machines, Replies(job.slots), job.nows);
  }

  /** The submission key tells (request, digest) pairs apart, up to letter case. */
  lemma SubmissionKeyIdentifies(o: RelayOutcome, q: RelayOutcome)
    requires o.selection.digest.Some? && q.selection.digest.Some?
    requires 0x3A !in o.selection.digest.value && 0x3A !in q.selection.digest.value
    ensures SubmissionKey(o) == SubmissionKey(q) <==>
      && ToLower(o.requestId) == ToLower(q.requestId)
      && ToLower(o.selection.digest.value) == ToLower(q.selection.digest.value)
  {
    var a, c := ToLower(o.requestId), ToLower(q.requestId);
    var b, d := ToLower(o.selection.digest.value), ToLower(q.selection.digest.value);
    if SubmissionKey(o) == SubmissionKey(q) {
      NoColonInLower(o.selection.digest.value);
      NoColonInLower(q.selection.digest.value);
      LastColonSplits(a, b, c, d);
    }
  }

  lemma NoColonInLower(t: Text)
    requires 0x3A !in t
    ensures 0x3A !in ToLower(t)
  {
    assert forall i :: 0 <= i < |t| ==> t[i] in t && ToLower(t)[i] != 0x3A;
  }

  lemma LastColonSplits(a: Text, b: Text, c: Text, d: Text)
    requires 0x3A !in b && 0x3A !in d && a + [0x3A] + b == c + [0x3A] + d
    ensures a == c && b == d
  {
    var t := a + [0x3A] + b;
    assert t[|a|] == 0x3A && t[|c|] == 0x3A;
    assert forall i :: |a| < i < |t| ==> t[i] == b[i - |a| - 1];
    assert forall i :: |c| < i < |t| ==> t[i] == d[i - |c| - 1];
    assert |a| == |c|;
    assert t[|a| + 1..] == b && t[|c| + 1..] == d;
    assert t[..|a|] == a && t[..|c|] == c;
  }
}
