/** What every run of the relay guarantees about submissions: which outcomes are refused, and which
    of the others join a submission under way. */
module RelaySubmissions {
  import opened Outcomes
  import opened Texts
  import opened Protocol
  import opened EvaluationKey
  import opened Threshold
  import opened Evaluation
  import opened InFlight
  import opened RelayRuns
  import opened RelayGuarantees

  const COLON: CodeUnit := 0x3A

  /** An unfinished submission of the same request and digest, up to letter case. */
  ghost predicate UnderWay(s: RelayState, id: nat, o: RelayOutcome) {
    && id < |s.submissions.ops| && s.submissions.ops[id].stage != Finished
    && var q := s.submissions.ops[id].payload.outcome;
       && ToLower(q.requestId) == ToLower(o.requestId)
       && q.selection.digest.Some? && o.selection.digest.Some?
       && ToLower(q.selection.digest.value) == ToLower(o.selection.digest.value)
  }

  /** Digests are hex texts; all that matters here is that they hold no colon. */
  predicate IsPlain(o: RelayOutcome) { o.selection.digest.Some? ==> COLON !in o.selection.digest.value }

  ghost predicate AllPlain(events: seq<Event>) { forall e :: e in events && e.SubmitCalled? ==> IsPlain(e.outcome) }

  lemma StepKeepsPlain(p: Primitives, s: RelayState, e: Event)
    requires Enabled(s, e) && (e.SubmitCalled? ==> IsPlain(e.outcome))
    requires forall op :: op in s.submissions.ops ==> IsPlain(op.payload.outcome)
    ensures forall op :: op in Step(p, s, e).submissions.ops ==> IsPlain(op.payload.outcome)
  {
    hide IsPlain, Key, OutcomeOf, SubmissionKey, FrozenMachines;
  }

  lemma {:induction false} PlainInRuns(p: Primitives, cap: nat, events: seq<Event>)
    requires Legal(p, cap, events) && AllPlain(events)
    ensures forall op :: op in Run(p, cap, events).submissions.ops ==> IsPlain(op.payload.outcome)
  {
    hide Step, Enabled, IsPlain;
    if events != [] {
      var n := |events| - 1;
      assert events[n] in events && forall e :: e in events[..n] ==> e in events;
      PlainInRuns(p, cap, events[..n]);
      StepKeepsPlain(p, Run(p, cap, events[..n]), events[n]);
    }
  }

  lemma KeyMeansUnderWay(s: RelayState, id: nat, o: RelayOutcome)
    requires id < |s.submissions.ops| && SoundSubmission(s.submissions.ops[id]) && o.selection.digest.Some?
    requires IsPlain(s.submissions.ops[id].payload.outcome) && IsPlain(o)
    ensures UnderWay(s, id, o) <==>
      s.submissions.ops[id].stage in OPEN && s.submissions.ops[id].key == SubmissionKey(o)
  {
    hide SubmissionKey, ToLower;
    SubmissionKeyIdentifies(s.submissions.ops[id].payload.outcome, o);
  }

  /** In every run, for every outcome: the relay refuses it exactly when it is not ready, has no
      digest or fewer than two matching envelopes.  Any other one joins the submission of its request
      and digest that is under way, if there is one, and otherwise starts its own. */
  lemma SubmitsExactly(p: Primitives, cap: nat, events: seq<Event>, o: RelayOutcome)
    requires Legal(p, cap, events) && AllPlain(events) && IsPlain(o)
    ensures var s := Run(p, cap, events); var r := RespondSubmit(s, o); var sel := o.selection;
      && (r.NotReady? <==>
            sel.status != THRESHOLD_READY || sel.digest.None? || sel.digest.value == [] || |sel.matching| < 2)
      && (r.Joined? ==> UnderWay(s, r.id, o))
      && (forall id :: !r.NotReady? && UnderWay(s, id, o) ==> r == Joined(id))
      && (r.NotReady? || r.Joined? || r == Started(|s.submissions.ops|))
  {
    RunsKeepInv(p, cap, events);
    PlainInRuns(p, cap, events);
    hide Run, Legal, IsPlain, EvaluationsInv, MeterInv, Registry.Tracks, SubmissionKey, UnderWay, SoundSubmission,
      AllPlain;
    var s := Run(p, cap, events);
    if ReadyToSubmit(o) {
      if SubmissionKey(o) in s.submissions.inFlight {
        var id := s.submissions.inFlight[SubmissionKey(o)];
        EntryIsOpen(s.submissions, SubmissionKey(o));
        KeyMeansUnderWay(s, id, o);
      }
      forall id | UnderWay(s, id, o) ensures RespondSubmit(s, o) == Joined(id) {
        UnderWayIsThere(s, id, o);
        KeyMeansUnderWay(s, id, o);
        OpenIsEntry(s.submissions, id);
      }
    }
  }

  lemma UnderWayIsThere(s: RelayState, id: nat, o: RelayOutcome)
    requires UnderWay(s, id, o)
    ensures id < |s.submissions.ops|
  {
  }

  /** Only its own `finally` callback ends a submission, and nothing changes its outcome. */
  lemma StepKeepsUnderWay(p: Primitives, s: RelayState, e: Event, id: nat, o: RelayOutcome)
    requires Enabled(s, e) && UnderWay(s, id, o) && e != SubmissionCleared(id)
    ensures UnderWay(Step(p, s, e), id, o)
  {
    hide Key, OutcomeOf, ReadyToSubmit, SubmissionKey, FrozenMachines, ToLower;
  }

  lemma {:induction false} UnderWayUntilCleared(
    p: Primitives, cap: nat, before: seq<Event>, after: seq<Event>, id: nat, o: RelayOutcome)
    requires Legal(p, cap, before) && Legal(p, cap, before + after)
    requires UnderWay(Run(p, cap, before), id, o) && SubmissionCleared(id) !in after
    ensures UnderWay(Run(p, cap, before + after), id, o)
  {
    hide Step, Enabled, UnderWay;
    if after == [] {
      assert before + after == before;
    } else {
      var n := |after| - 1;
      assert (before + after)[..|before + after| - 1] == before + after[..n];
      UnderWayUntilCleared(p, cap, before, after[..n], id, o);
      StepKeepsUnderWay(p, Run(p, cap, before + after[..n]), after[n], id, o);
    }
  }

  lemma StartedIsUnderWay(p: Primitives, s: RelayState, o: RelayOutcome)
    requires RespondSubmit(s, o).Started?
    ensures RespondSubmit(s, o).id == |s.submissions.ops|
    ensures UnderWay(Step(p, s, SubmitCalled(o)), |s.submissions.ops|, o)
    ensures var job := Step(p, s, SubmitCalled(o)).submissions.ops[|s.submissions.ops|].payload;
      job.outcome == o && job.sent == [] && !job.failed
  {
    hide SubmissionKey, ToLower;
  }

  /** After a call has started a submission, every call for the same request and digest that is ready
      gets that very submission, whatever happens in between, until its own `finally` callback runs. */
  lemma SubmissionIsShared(
    p: Primitives, cap: nat, before: seq<Event>, o: RelayOutcome, between: seq<Event>, again: RelayOutcome)
    requires var all := before + [SubmitCalled(o)] + between; Legal(p, cap, all) && AllPlain(all)
    requires Legal(p, cap, before) && RespondSubmit(Run(p, cap, before), o).Started? && IsPlain(again)
    requires SubmissionCleared(RespondSubmit(Run(p, cap, before), o).id) !in between
    requires again.selection.status == THRESHOLD_READY && |again.selection.matching| >= 2
    requires o.selection.digest.Some? && again.selection.digest.Some? && again.selection.digest.value != []
    requires ToLower(again.requestId) == ToLower(o.requestId)
    requires ToLower(again.selection.digest.value) == ToLower(o.selection.digest.value)
    ensures RespondSubmit(Run(p, cap, before + [SubmitCalled(o)] + between), again)
         == Joined(RespondSubmit(Run(p, cap, before), o).id)
  {
    hide AllPlain, IsPlain, RespondSubmit, Enabled, ToLower;
    var s := Run(p, cap, before);
    var started := before + [SubmitCalled(o)];
    assert started[..|started| - 1] == before;
    LegalPrefix(p, cap, started, between);
    StartedIsUnderWay(p, s, o);
    var id := |s.submissions.ops|;
    hide Step;
    UnderWayUntilCleared(p, cap, started, between, id, o);
    SubmitsExactly(p, cap, started + between, again);
    assert UnderWay(Run(p, cap, started + between), id, again);
  }

  // ---- the relay's own outcomes ---------------------------------------------------------

  lemma ReadyDigestIsHex(
    p: Primitives, request: ActionRequest, machines: seq<MachineDescriptor>, settled: seq<Reply>, nows: seq<int>)
    requires |nows| == |settled|
    requires OutcomeOf(p, request, machines, settled, nows).selection.status == THRESHOLD_READY
    ensures var s := OutcomeOf(p, request, machines, settled, nows).selection;
      && s.digest.Some? && s.digest.value != [] && COLON !in s.digest.value && |s.matching| >= 2
  {
    hide IsValidEnvelope, Select, FirstPerMachine, ValidReplies, IsHexOf, ToLower;
    var replies := ValidReplies(p, request, machines, settled, nows);
    RepliesAreValid(p, request, machines, settled, nows);
    ReadyPair(replies);
    var e := Select(FirstPerMachine(replies)).matching[0];
    ValidDigestIsHex(p, e, request, machines);
    HexIsPlain(e.digest);
  }

  lemma ValidDigestIsHex(p: Primitives, e: Envelope, request: ActionRequest, machines: seq<MachineDescriptor>)
    requires exists now :: IsValidEnvelope(p, e, request, machines, now)
    ensures IsHexOf(e.digest, 64)
  {
    hide IsHexOf, ToLower;
  }

  lemma HexIsPlain(t: Text)
    requires IsHexOf(t, 64)
    ensures ToLower(t) != [] && COLON !in ToLower(t)
  {
    LowerKeepsHex(t, 64);
    assert forall i :: 0 <= i < |t| ==> ToLower(t)[i] != COLON;
  }

  /** What an evaluation of the relay ended ready with is never refused: its digest is not empty and
      two envelopes match, so submitting it joins or starts a submission. */
  lemma ReadyIsNeverRefused(p: Primitives, cap: nat, events: seq<Event>, source: nat, o: RelayOutcome)
    requires Legal(p, cap, events) && AllPlain(events)
    requires EndedReady(Run(p, cap, events), source, o.selection)
    ensures var s := Run(p, cap, events); var r := RespondSubmit(s, o);
      && IsPlain(o) && !r.NotReady?
      && (r.Started? <==> forall id :: !UnderWay(s, id, o))
      && (r.Joined? ==> UnderWay(s, r.id, o))
  {
    var s := Run(p, cap, events);
    RunsKeepInv(p, cap, events);
    hide MeterInv, SubmissionsInv, Registry.Tracks, Key, Encodable, OutcomeOf, Run, Legal, AllPlain, UnderWay,
      RespondSubmit;
    assert SoundEvaluation(p, s.evaluations.ops[source]);
    var job := s.evaluations.ops[source].payload;
    ReadyDigestIsHex(p, job.call.request, job.call.machines, Replies(job.slots), job.nows);
    SubmitsExactly(p, cap, events, o);
  }
}
