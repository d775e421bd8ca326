# PayGuard relay, demo and client: a model and its proofs

PayGuard lets an owner keep a payment policy private and have three machines evaluate it. A request
to spend is put on chain; the machines each sign a result; two results over the same digest decide.
This project models the off-chain TypeScript that carries this out: the relay that calls the machines,
the live relay that reads the chain and submits to the router, the browser clients that build requests
and choose a threshold, the demo actors, the policy studio, the vault form, and the public evidence
codecs.

The modules follow the program:

| module | what it holds |
|---|---|
| Texts, Outcomes, Sequences, OrderedMaps, Protocol | UTF-16 texts, options and results, facts about sequences, JavaScript maps with insertion order, the public records and the abstract cryptography |
| Json, Bodies, EvaluationKey | `JSON.stringify` with the bigint replacer and the grammar of JSON, parsing with the reviver and the forbidden-key walk, and the coalescing key |
| Threshold, Evaluation, Equivocation | grouping by digest, the three ways to deduplicate, machine validation, envelope validation, quorum facts, and when the order of replies decides |
| InFlight, Telemetry, RelayRuns, RelayGuarantees, RelaySubmissions, RelayTallies, Relay | the relay as a machine whose every callback is a step, what its runs guarantee about calls, submissions and counters, and its object |
| RateLimiter, LiveCache | the two rate limiters and the live relay's operation cache, over whole runs |
| History, Freshness, Submission, LogBatches | rebuilding the spend history, the staleness checks against the client's request, the resumable submission loop, batched log reads |
| Amounts, Studio, Reservations, Vault | six-decimal amounts, the policy studio, the vault's books and the vault transactions |
| Wires, DemoActors, DemoQuorums, Custody, Evidence | wire fields, the demo actors and the browser's collection, the custody and audit codecs |
| Assumptions, UnnormalEvidence | functions that meet the assumptions about cryptography, and concrete inputs on which the code fails an expected property |

Where the code changes state in place (the relay, its telemetry, the rate limiters, the live cache) the
model is a class; each method's postcondition ties the new state to a step function, and the theorems
are about all runs of those steps. Promises are entries of a table, and every `then` and `finally`
callback is an event of its own, so a run is any interleaving the event loop allows.

Cryptography is abstract: `Protocol.Primitives` holds keccak, the request hash, the evaluation and
attestation digests, signature recovery, the EIP-55 checksum and URL parsing as unknown functions. A
lemma that needs a property of them asks for it by name: `KeccakInjective`, `RequestHashIdentifies`
(equal hashes exactly for equal requests, up to the letter case of hex), `ChecksumKeepsAddress`,
`DigestIgnoresMachine` (the digest does not cover who computed it), `Freshness.BalanceInjective` and
`DemoActors.BalanceCommits` (no two accountings have one balance checkpoint), and
`Evidence.DigestIgnoresSigners` (the result digest does not cover who is named as its signer).

Some properties one might expect do not hold of the code. For each there is a lemma with the failing
inputs, and the exact condition under which the property does hold:

- The evaluation key leaves out the FDC facts of a call and of its history
  (`EvaluationKey.KeyIgnoresFdc`); on everything else it is exact (`EvaluationKey.KeyIdentifiesCall`).
- A forbidden key can stand in the text of a body that passes, `{"a":{"policy":1},"a":0}`: parsing keeps
  the last of repeated keys, and the walk sees only what parsing keeps (`Bodies.ReplacedKeyPasses`). A
  body passes if and only if no forbidden key stands outside the members that a later one of the same
  key replaces (`Bodies.BodyPassesIffKeysAllowed`).
- A call that claims the creator's address without valid authorisation can begin the operation that the
  creator's own authorised call is then answered from, and both are rejected
  (`LiveCache.ClaimedCreatorIsMisled`). That happens exactly while an unexpired entry of such a claim is
  in the cache (`LiveCache.MisledExactly`), and never for a key nobody has claimed
  (`LiveCache.UnclaimedKeysAreSafe`).
- How an evaluation ends can depend on which descriptor's call returned which envelope
  (`Assumptions.OrderDecides` has three frozen machines and valid replies). The replies are looked at in
  the order of the descriptors; that order is irrelevant if and only if no machine among the valid
  envelopes signed two digests one of which another machine carries
  (`Equivocation.ReplyOrderMattersExactly`).
- The public rate limiter's map outgrows any bound once an empty client key is its oldest
  (`RateLimiter.EmptyKeyOutgrows`); a step breaks the bound only then (`RateLimiter.OutgrowsExactly`).
  The server takes the key from the socket's remote address and puts "unknown" for a missing one, so
  this needs a runtime that reports an empty address.
- Dropping clients to make room defeats the rate limit. For any set of non-empty client keys the limit
  holds in every run if and only if the map has room for all of them
  (`RateLimiter.LimitHoldsExactly`); one client more, taking turns, are never refused
  (`RateLimiter.TakingTurnsDefeatsTheLimit`).
- The live rate limiter does not refuse a reading that is not a number, and a window opened at one
  never closes (`RateLimiter.NanWindowNeverCloses`); every other window does
  (`RateLimiter.OnlyNanWindowsStayOpen`).
- One unreachable demo actor, or one oversized body, makes the browser's collection throw, and one that
  never answers keeps it from settling, although the other two answered honestly
  (`Assumptions.UnreachableActorUndoesTheRound`). With two honest answers the collection returns if and
  only if the third answer completes (`DemoActors.TwoHonestAnswersDecide`).
- The vault form accepts amounts beyond uint256 (`Studio.VaultAmountsAreUnbounded`), and it trims its
  text where the studio's validator does not. The two read the same amount exactly when there is nothing
  to trim and a uint256 holds it (`Studio.AmountParsersAgreeExactly`); the studio's page trims its fields
  before it validates them, and then only the bound is left (`Studio.TrimmedParsersAgreeExactly`).
- A vault transaction that landed fails its postcondition when the router moves funds in between; only
  the contracts' own result passes (`Vault.PostconditionIsExact`).
- The audit encoder, unlike the custody encoder, does not normalise, neither its own fields nor the
  request snapshot inside (`UnnormalEvidence.UnnormalEvidenceIsEncoded`). Its output is a fixed point
  exactly when the evidence's own fields are in normal form and the snapshot is encoded as what it
  decodes to is (`Evidence.EncoderFixesNormalEvidence`).
- The audit decoder checks the result digest with the first signer's id but the first machine's key, which
  belong together only when that machine is named first; where the digest covers neither, every order of
  the signers is accepted alike (`Evidence.SignerOrderDoesNotMatter`).
- The check of a live request's freshness never looks at the accounting time; that is harmless,
  because the router moves the occurrence whenever it moves anything (`Freshness.FreshMeansUntouched`).

`Assumptions.AssumptionsHold` shows functions that meet the first four together, and
`Assumptions.BalanceAssumptionHolds` a balance commitment that meets the next;
`UnnormalEvidence.SampleCodecIsStable` and `UnnormalEvidence.SampleCodecIgnoresSigners` a codec that meets
`Evidence.RequestCodecStable` and `Evidence.DigestIgnoresSigners`, and
`Assumptions.UnreachableActorUndoesTheRound` a round of the demo that meets all the premises about one.

The router and the vault are modelled from `packages/contracts`, as far as the loops and checks above
them need.

## Model

| member | source | states |
|---|---|---|
| Json.PrintReads | apps/relay/src/http.ts:160-162 | the printed text of any tree, followed by anything that does not continue a number, is read back by the grammar as the tree with its bigints turned into strings and its non-finite numbers into null, and reading stops at its end |
| Json.PrintUnambiguous | apps/relay/src/relay.ts:252-252 | two trees have the same JSON text exactly when they are the same tree on the wire |
| Bodies.ParseUndoesStringify | apps/relay/src/http.ts:160-167 | parsing with the reviver gives back the printed tree if and only if keys are distinct, numbers finite, bigints non-negative and only under bigint fields, and no such field holds an all-digit string |
| Bodies.WalkFindsEveryKey | apps/relay/src/http.ts:169-179 | the walk accepts exactly the trees none of whose objects, at any depth, has a forbidden key |
| Bodies.CollapseKeepsLiveKeys | apps/relay/src/http.ts:71-71 | of a text with repeated keys parsing keeps exactly the keys that do not stand inside a replaced member |
| Bodies.BodyPassesIffKeysAllowed | apps/relay/src/http.ts:70-72 | any body is parsed exactly when it is one JSON value, white space, fractions, exponents and repeated keys included, and then passes exactly when no forbidden key stands outside the members that a later one of the same key replaces |
| Bodies.ReplacedMemberIsNotSeen | apps/relay/src/http.ts:70-72 | whatever the first of two members with one key holds, parsing and walk see only the second |
| Bodies.ReplacedKeyPasses | apps/relay/src/http.ts:70-72 | a body with a forbidden key in its text that passes |
| Bodies.PrintedBodyPasses | apps/relay/src/http.ts:160-179 | every printed tree with distinct keys parses, with any white space around it, and passes the walk exactly when it has no forbidden key |
| EvaluationKey.KeyIdentifiesCall | apps/relay/src/relay.ts:229-253 | with collision-free hashes two calls have the same key if and only if they agree, up to letter case and URL spelling, on request, whole history with FTSO readings, spend state and ordered machines |
| EvaluationKey.KeyIgnoresFdc | apps/relay/src/relay.ts:230-251 | calls that differ only in their FDC facts, their own or those of their history entries, share a key |
| Threshold.GroupByDigest | apps/relay/src/relay.ts:157-163 | the groups are, in order of first appearance, the sublists of envelopes that carry each digest |
| Threshold.SelectThreshold | apps/relay/src/relay.ts:157-176 | the loop over the groups selects the first digest carried twice, or reports split or unavailable |
| Threshold.SelectDemoThreshold | apps/web/src/interactive-demo.ts:397-409 | the demo's selection is the same selection applied to the last envelope of each machine |
| Threshold.SelectIsExact | apps/relay/src/relay.ts:164-176 | ready if and only if some digest is carried by two envelopes, and the matching envelopes are all those that carry the selected one |
| Threshold.SelectionTells | apps/relay/src/relay.ts:157-176 | in terms of the envelopes alone: ready if and only if two carry one digest, then the digest of the first envelope whose digest is repeated, with all its envelopes in order; otherwise nothing, unavailable below two envelopes and split from two on |
| Threshold.WinningDigestUnique | apps/relay/src/relay.ts:135-177 | whatever the order in which three machines' envelopes are looked at, no two orders win with different digests |
| Threshold.SelectorsAgree | apps/web/src/interactive-demo.ts:397-409 | first-wins, last-wins and no deduplication select alike when each machine contributes at most one envelope |
| Threshold.OrderIrrelevant | apps/relay/src/live-runtime.ts:397-404 | then also the order of the envelopes does not change status, digest or the set of matching envelopes |
| Threshold.DemoReadyNeedsTwoMachines | apps/web/src/interactive-demo.ts:397-409 | for lists of any length the demo selection is ready if and only if the last envelopes of two different machines share a digest |
| Evaluation.ValidateMachines | apps/relay/src/relay.ts:203-227 | accepts exactly three well-formed machines that share no id, fingerprint or signer, and returns them with checksummed signers |
| Evaluation.EvaluateOnce | apps/relay/src/relay.ts:135-177 | from three settled calls computes the selection over the valid envelopes, first wins per machine, and valid plus failures is the number of calls |
| Evaluation.KeptExactly | apps/relay/src/relay.ts:139-155 | field by field: a reply is kept if and only if a machine of the call vouches for it over the call's own request, it was issued when it was read and not expired, expires with the request, and no earlier such reply is of that machine; kept in order, every other reply is a failure |
| Evaluation.ReadyOutcomeHasTwoVouchers | apps/relay/src/relay.ts:135-183 | the first two matching envelopes of a ready outcome are signed by two different machines of the call over the outcome's digest |
| Evaluation.QuorumsIntersect | apps/relay/src/relay.ts:135-183 | two ready evaluations of a request over the same three machines have a machine that signed both digests |
| Equivocation.OrderMattersExactly | apps/relay/src/relay.ts:141-155 | of at most three envelopes every reordering gives first-wins selection the same status and digest if and only if no machine has two digests one of which another machine carries |
| Equivocation.ReplyOrderMattersExactly | apps/relay/src/relay.ts:135-177 | the same for settled calls, each judged at its own clock reading: the assignment of envelopes to descriptors is irrelevant under exactly that condition on the valid ones |
| Equivocation.EquivocationAtTheRelay | apps/relay/src/relay.ts:141-155 | three replies that pass validation and differ only in which descriptor returned which end ready in one order and split in the other |
| Assumptions.OrderDecides | apps/relay/src/relay.ts:141-155 | concrete frozen machines and valid replies for which that happens |
| InFlight.FinishTracks | apps/relay/src/relay.ts:103-106 | deleting by key alone removes exactly the finishing operation, because no other open operation holds its key |
| InFlight.OneOpenPerKey | apps/relay/src/relay.ts:83-108 | at most one open operation per key, and the map is empty exactly when every operation is finished |
| Telemetry.RelayTelemetry.EvaluationFinished | apps/relay/src/observability.ts:43-52 | refuses, changing nothing, unless the gauge is positive and the counts are of three machines; otherwise exactly the counter of the ending, both machine counters and the gauge move |
| Telemetry.RelayTelemetry.EvaluationRejected | apps/relay/src/observability.ts:54-56 | exactly the counter of the given reason grows by one |
| RelayRuns.GuardsNeverFire | apps/relay/src/observability.ts:43-47 | in every state of the invariant a settled evaluation passes all three lifecycle guards |
| RelayRuns.ThreeMachinesCounted | apps/relay/src/relay.ts:94-102 | the counts handed to telemetry are between zero and three and sum to three, for outcomes and for errors |
| RelayRuns.StepKeepsInv | apps/relay/src/relay.ts:74-133 | every callback, call, reply and timeout keeps the balance of both in-flight maps, the counter and the telemetry |
| RelayRuns.RunsKeepInv | apps/relay/src/relay.ts:74-133 | and so does every run, in any interleaving |
| RelayGuarantees.ActiveIsInFlight | apps/relay/src/relay.ts:88-106 | in every run the counter equals the keys in flight and the uncleared operations, never exceeds the cap, keys are unshared, and all cleared means empty map and zero counter |
| RelayGuarantees.JoinsExactlyEqualCalls | apps/relay/src/relay.ts:74-91 | in every run, for every call: an error if and only if its machines are not three frozen ones or it cannot be hashed; otherwise it joins the open evaluation that was asked the same if there is one, and if not is refused at the cap or starts its own below it |
| RelayGuarantees.SharedUntilCleared | apps/relay/src/relay.ts:83-108 | after a call started an evaluation, every equal-key call gets that very one until its own finally callback, whatever happens in between |
| RelayGuarantees.StartsTheCall | apps/relay/src/relay.ts:88-109 | a started evaluation is of the call's own request, state and machines with checksummed signers, unanswered |
| RelayGuarantees.KeepsExactlyAttested | apps/relay/src/relay.ts:135-177 | in every run an evaluation with an outcome has kept exactly the replies its machines vouch for in time, in order and once per machine, and counted the rest of the three as failures |
| RelayGuarantees.TelemetryBalances | apps/relay/src/observability.ts:39-72 | calls are completed, active, coalesced or rejected, each counted once; machine results are three per completion; submissions balance alike |
| RelayTallies.CountersTellTheRun | apps/relay/src/observability.ts:39-72 | in every run each counter is what it is named for: recorded evaluations by the status they ended with or by error, machines kept and lost, submissions that sent both envelopes and that did not, and calls by how each was answered |
| RelayGuarantees.NoGuardFiresInAnyRun | apps/relay/src/observability.ts:43-47 | in no run does the telemetry throw |
| RelayGuarantees.QuorumsIntersectInRuns | apps/relay/src/relay.ts:135-183 | two evaluations of one run that end ready over the same request and machines have a machine that signed both digests |
| RelayGuarantees.SubmitsTwoVouchers | apps/relay/src/relay.ts:111-133 | what a submission sends is a prefix of the outcome's first two matching envelopes, all of it unless a send failed, and two different machines vouch for them |
| RelayGuarantees.SubmissionKeyIdentifies | apps/relay/src/relay.ts:116-116 | the submission key tells request and digest pairs apart, up to letter case, when digests hold no colon |
| RelaySubmissions.SubmitsExactly | apps/relay/src/relay.ts:111-126 | in every run, for every outcome: refused if and only if not ready, without a digest or with fewer than two matching envelopes; otherwise it joins the submission of its request and digest that is under way if there is one, and if not starts its own |
| RelaySubmissions.ReadyIsNeverRefused | apps/relay/src/relay.ts:111-126 | an outcome the relay itself ended ready with is never refused |
| RelaySubmissions.SubmissionIsShared | apps/relay/src/relay.ts:116-133 | after a call started a submission, every ready call for the same request and digest gets that very one until its own finally callback |
| Relays.Relay.Evaluate | apps/relay/src/relay.ts:74-109 | the response and the whole new state are those of the call step: rejected, joined, at capacity or started |
| Relays.Relay.EvaluateOnceResumes | apps/relay/src/relay.ts:135-177 | the settled replies become the outcome, or a rejection when the clock throws |
| Relays.Relay.EvaluationThen | apps/relay/src/relay.ts:94-102 | records the outcome in the telemetry, and rejects if a guard throws |
| Relays.Relay.EvaluationFinally | apps/relay/src/relay.ts:103-106 | removes the key and decrements the counter |
| Relays.Relay.SubmitThreshold | apps/relay/src/relay.ts:111-133 | refuses outcomes that are not ready, joins a submission in flight, or starts one |
| Relays.Relay.SubmitOnceResumes | apps/relay/src/relay.ts:179-183 | sends the first two matching envelopes in order and stops at the first failure |
| Relays.Relay.SubmissionThen | apps/relay/src/relay.ts:123-129 | records success or error in the telemetry and leaves the key in place |
| Relays.Relay.SubmissionFinally | apps/relay/src/relay.ts:130-130 | removes the key |
| RateLimiter.ClientWindows.ConsumeRateLimit | apps/relay/src/http.ts:224-244 | the decision and the new map are those of the rule that spares the empty key; a reading that is not finite is refused without effect |
| RateLimiter.ClientWindows.Consume | apps/relay/src/live-http.ts:151-161 | the same for the live relay's rule, with room for 2048 keys and comparisons as JavaScript makes them on readings that are not finite |
| RateLimiter.OpeningKeepsTally | apps/relay/src/http.ts:233-240 | opening a window after the old one is over keeps the bound over every interval |
| RateLimiter.CountingKeepsTally | apps/relay/src/http.ts:241-243 | so does counting within an open window below the limit |
| RateLimiter.TwiceTheLimitAtMost | apps/relay/src/http.ts:224-244 | over any run in which the client's readings do not decrease and it is not evicted, every half-open interval of one window length holds at most twice the limit, and the current window holds exactly its count, at most the limit |
| RateLimiter.BelowTheLimitIsAdmitted | apps/relay/src/http.ts:232-243 | in any such run a call at a finite reading is let through if and only if its client's window is over or fewer calls than permitted were let through in it; so never refused when fewer were in the last window length |
| RateLimiter.NanWindowNeverCloses | apps/relay/src/live-http.ts:151-161 | a window opened at a reading that is not a number counts every later call of its client and never restarts |
| RateLimiter.OnlyNanWindowsStayOpen | apps/relay/src/live-http.ts:153-153 | a window is open at every reading if and only if it was opened at one that is not a number |
| RateLimiter.OutgrowsExactly | apps/relay/src/http.ts:234-238 | a step makes a bounded map outgrow its bound if and only if it is full, the client is new and the oldest key is the spared empty one |
| RateLimiter.SizeIsBounded | apps/relay/src/live-http.ts:153-156 | in every run the map stays within its bound: always in the live relay, and in the public one when no client key is empty |
| RateLimiter.EmptyKeyPinsTheMap | apps/relay/src/http.ts:234-238 | from the moment the empty key is the oldest, whatever came before, no key is dropped and every later client is added |
| RateLimiter.EmptyKeyOutgrows | apps/relay/src/http.ts:234-238 | after a call with the empty key the map holds as many keys as there are clients, beyond every bound |
| RateLimiter.FewClientsAreKept | apps/relay/src/http.ts:234-237 | with no more clients than the map has room for, no client is ever evicted |
| RateLimiter.TakingTurnsDefeatsTheLimit | apps/relay/src/http.ts:234-240 | for every bound, clients taking turns, one more than there is room for, are all admitted for ever, at any readings |
| RateLimiter.LimitHoldsExactly | apps/relay/src/http.ts:224-244 | for any set of non-empty client keys, nobody is evicted in any run, and every client stays within twice the limit in every run, if and only if the map has room for all of them |
| LiveCache.LiveRuntimeCache.Evaluate | apps/relay/src/live-runtime.ts:220-239 | purges, answers from the cache or evicts the oldest and starts; the promise returned and the new cache are those of the call step |
| LiveCache.LiveRuntimeCache.OperationFails | apps/relay/src/live-runtime.ts:233-236 | the failing operation removes its entry only if it is still its own |
| LiveCache.PurgedIsExact | apps/relay/src/live-runtime.ts:222-224 | purging drops exactly the entries that expired before the reading |
| LiveCache.RunsKeepInv | apps/relay/src/live-runtime.ts:220-239 | in every run at most 2048 entries, one per key, each of an operation with that key that has not failed |
| LiveCache.LateFailureIsHarmless | apps/relay/src/live-runtime.ts:233-236 | a failure removes the entry of that operation, if any, and no other, in particular not its successor's |
| LiveCache.SharedUntilExpiry | apps/relay/src/live-runtime.ts:228-238 | an operation is what every later call with its key gets until it fails, a reading passes its expiry, or 2048 other operations have started |
| LiveCache.KeysIdentify | apps/relay/src/live-runtime.ts:228-228 | the cache key tells (request, requester) pairs apart, up to letter case |
| LiveCache.AuthorisedEntriesAreBrief | apps/relay/src/live-runtime.ts:643-664 | an authorised call is cached under the request creator's own key, kept until it is authorised and at most 360 seconds longer |
| LiveCache.OnlyTheCreatorsResolve | apps/relay/src/live-runtime.ts:643-664 | in every run, an operation can be fulfilled only if the creator has signed the claimed window, it is at most 300 seconds long, has begun but for a minute and is not over; and then it can as long as it is pending |
| LiveCache.MisledExactly | apps/relay/src/live-runtime.ts:220-239 | an authorised call is answered by an operation begun without authorisation if and only if such a one has left an unexpired entry under its key; that operation can then only reject |
| LiveCache.UnclaimedKeysAreSafe | apps/relay/src/live-runtime.ts:225-231 | in no run is a call misled whose key nobody has called with without authorisation |
| LiveCache.ClaimMisleads | apps/relay/src/live-runtime.ts:225-238 | an unauthorised call that begins an operation misleads every authorised call with its key until it is rejected, expires or is crowded out |
| LiveCache.ClaimedCreatorIsMisled | apps/relay/src/live-runtime.ts:225-236 | the input: a claim of the creator's address, the creator's own call answered from it, and a fresh operation only after the rejection |
| History.ParseExecutedRequestIds | apps/relay/src/live-runtime.ts:501-525 | succeeds if and only if the answer is well formed, every log is a router execution and no request occurs twice, and returns the ids in order |
| History.SortedIsConsecutive | apps/relay/src/live-runtime.ts:464-467 | sorting by occurrence gives 1..n exactly when the entries cover 1..n, so gaps and duplicates are found |
| History.ReconstructHistory | apps/relay/src/live-runtime.ts:447-469 | succeeds if and only if the router counts nothing or the readable, supported executions of the policy cover exactly the count; the result is their consecutive arrangement, each entry a stored executed request of the policy accounted when its approval was issued, none missing |
| History.RebuildsExactly | apps/relay/src/live-runtime.ts:456-468 | in terms of what the router stores for distinct ids: all readable, none of the policy's executed ones with a live input, as many of these as counted, and one for every occurrence |
| History.ConsecutiveIsUnique | apps/relay/src/live-runtime.ts:464-468 | there is only one consecutive arrangement of the same entries |
| History.LogOrderIsIrrelevant | apps/relay/src/live-runtime.ts:456-468 | with the same requests in any order the rebuilding succeeds or fails alike, whatever gaps or repetitions there are, and any two successful arrangements are the same |
| History.LoadedHistoryIsExact | apps/demo-api/src/chain-state.ts:78-95 | the demo reader succeeds if and only if the executions cover the router's count and the last one was accounted at the router's time, within 128 logs |
| History.LoadedEntriesAreStored | apps/demo-api/src/chain-state.ts:78-95 | what the demo reader returns are exactly the other logged requests that are stored as executed, each accounted when its approval was issued, as many as the router counts, the last one at the time the router says |
| History.DuplicateFails | apps/demo-api/src/chain-state.ts:86-95 | two executions of one occurrence, such as a log given twice, make the demo reader fail |
| History.UnspentHasNoHistory | apps/demo-api/src/chain-state.ts:164-173 | without an initialised spend state the demo reader succeeds exactly when nothing was executed |
| Freshness.BuildsExactly | apps/web/src/live-fcc.ts:353-395 | a request is built if and only if accounting balances and has the positive amount; it lives for 900 seconds from the reading |
| Freshness.ChecksExactly | apps/relay/src/live-runtime.ts:353-374 | any request passes if and only if it is unexpired, takes no live input, commits to the balanced accounting, and has the checkpoint in force, the next occurrence and a history of the counted length |
| Freshness.FreshWhereBuilt | apps/web/src/live-fcc.ts:359-396 | a request passes the relay's checks in the state it was built from exactly when that state is initialised or counts no occurrence |
| Freshness.FreshElsewhere | apps/relay/src/live-runtime.ts:356-374 | in another state it passes if and only if it is unexpired there and accounting, checkpoint in force and occurrence are unchanged |
| Freshness.OccurrenceIsAVersion | packages/contracts/src/PayGuardActionRouter.sol:272-305 | over any executions the occurrence never goes back, and while it stands still so does the whole spend state |
| Freshness.ExecutesExactly | packages/contracts/src/PayGuardActionRouter.sol:272-305 | after any executions one more counts if and only if it is of the next occurrence, builds on the checkpoint in force, was not issued before the last and the count has room; otherwise nothing changes |
| Freshness.FreshMeansUntouched | apps/relay/src/live-runtime.ts:364-374 | against any sequence of executions the check accepts exactly when the spend state and the accounting are untouched |
| Freshness.JudgedAsBuilt | apps/relay/src/live-runtime.ts:375-383 | the state the relay then sends to the machines is the one the client saw: its balance, count, accounting time, checkpoint and time |
| Submission.SubmitKeepsInv | packages/contracts/src/PayGuardActionRouter.sol:230-269 | an accepted evaluation adds one vote, keeps all others, and finalises exactly when its digest has two |
| Submission.InterfereKeepsInv | packages/contracts/src/PayGuardActionRouter.sol:272-334 | no sequence of others' moves withdraws a vote, reopens a request or breaks the two-machine rule |
| Submission.ClosesExactly | packages/contracts/src/PayGuardActionRouter.sol:272-345 | over any moves a request ends executed if and only if an execution came while it was allowed, expired or cancelled if and only if that came while it was pending or allowed |
| Submission.ClosedStaysClosed | packages/contracts/src/PayGuardActionRouter.sol:272-345 | nothing changes a request that is denied, executed, expired or cancelled |
| Submission.SubmitMatching | apps/relay/src/live-runtime.ts:403-422 | under any interference each machine is submitted at most once, none the router already had, at most two in all; unless a write of its own is refused or lost it succeeds if and only if the router then shows the status of the decision with two machines behind it, whoever submitted; undisturbed no write is refused and it succeeds if and only if earlier and new votes for the digest make two |
| Submission.ResumesFromNoneOrOne | apps/relay/src/live-runtime.ts:408-422 | from no votes or earlier matching ones, two matching machines suffice |
| LogBatches.BlockRanges | apps/demo-api/src/chain-state.ts:117-120 | the ranges tile the interval without gap or overlap, at most thirty blocks each, in the least number, at most 69 under the history bound |
| LogBatches.CoveredOnce | apps/demo-api/src/chain-state.ts:117-120 | a block lies in the interval exactly when some range covers it, and no two ranges do |
| LogBatches.GetLogsInBatches | apps/demo-api/src/chain-state.ts:111-127 | the batched reading succeeds exactly when all queries do, and returns each log of the interval as often as the chain has it, in order |
| Amounts.TrimIsExact | apps/web/src/coston2.ts:434-434 | trimming takes white space off both ends, all of it and nothing else |
| Amounts.ParsedAmountIsExact | apps/web/src/coston2.ts:433-440 | the parsed amount is the number the text denotes, scaled by a million |
| Amounts.FormatRoundTrip | apps/web/src/model.ts:323-323 | printing any amount with six decimals gives an accepted text that parses to it |
| Amounts.EveryAmountCanBeEntered | apps/web/src/coston2.ts:433-440 | every positive amount has a text the form reads as it |
| Studio.ValidateStudioDraft | apps/web/src/model.ts:184-237 | the issues name exactly the fields that something is wrong with |
| Studio.DecimalField | apps/web/src/model.ts:337-349 | returns the number or flags exactly this field |
| Studio.TokenAmountField | apps/web/src/model.ts:351-365 | returns the amount or flags exactly this field |
| Studio.AcceptedDrafts | apps/web/src/model.ts:184-237 | field by field: a draft has no issues if and only if its name has 3 to 64 characters, its addresses name accounts other than zero in any letter case, and its amounts, times, schedule and occurrences are spelled, ordered and sized right |
| Studio.CompilesExactly | apps/web/src/model.ts:239-286 | compiles if and only if there are no issues and both secrets are different thirty-two byte words other than zero; the policy has the accounts, numbers and secrets of the draft, its target alone, and no requesters but those the draft allows |
| Studio.CompiledPolicyIsSound | apps/web/src/model.ts:239-286 | whatever compiles has 0 < maximum <= daily cap < 2^256, 0 < start < end, a schedule that is absent or has a shorter grace, and two different secrets |
| Studio.CompiledRequesters | apps/web/src/model.ts:249-253 | requesters are listed once, never the owner, and nobody who was to be listed is lost |
| Studio.ShownCapsAreExact | apps/web/src/model.ts:323-323 | the caps as shown are read back as the policy's caps |
| Studio.AmountParsersAgreeExactly | apps/web/src/model.ts:351-365 | of the texts the vault form accepts, the studio's validator reads the same amount if and only if there is nothing to trim and a uint256 holds it, and refuses the others |
| Studio.TrimmedParsersAgreeExactly | apps/web/src/main.ts:2165-2168 | on trimmed fields the two agree exactly up to the bound |
| Studio.VaultAmountsAreUnbounded | apps/web/src/coston2.ts:433-440 | every amount beyond uint256 has a text that the vault form accepts and the studio refuses |
| Reservations.RunsBalance | packages/contracts/src/PayGuardVault.sol:121-206 | over any interleaving of deposits, withdrawals, reservations, releases and executions the accounting is conserved and the reserved amount is the sum of the active reservations |
| Reservations.BooksAlwaysBalance | packages/contracts/src/PayGuardVault.sol:121-206 | in particular over every run from empty books |
| Reservations.SucceedsExactly | packages/contracts/src/PayGuardVault.sol:121-206 | in balanced books no subtraction underflows: an active reservation can be released and executed, nothing else can, and the other moves fail only for nothing, too much or a request already reserved |
| Reservations.ReservationsSettle | packages/contracts/src/PayGuardVault.sol:155-206 | whatever happens in between, a reservation can still be released or executed for the very amount |
| Reservations.SettlesOnce | packages/contracts/src/PayGuardVault.sol:176-206 | releasing gives the amount back, executing spends it, and after either neither is possible again |
| Vault.RunsConserve | apps/web/src/coston2.ts:465-501 | over any run of validated and verified transactions conservation holds, the holder's total is constant, and exactly the net deposit has moved |
| Vault.PlannedExactly | apps/web/src/coston2.ts:451-463 | an action is planned if and only if the amount is held, approves if and only if the allowance is too small, and a refusal names what is missing |
| Vault.PlannedStepsValidate | apps/web/src/coston2.ts:442-463 | every planned step passes validation when reached, and the finished plan has moved the amount |
| Vault.ContractsMeetPostcondition | packages/contracts/src/PayGuardVault.sol:121-153 | validated transactions are carried out by the contracts and pass the postcondition; deposits and withdrawals that are not validated revert |
| Vault.TransactionsAreMoves | packages/contracts/src/PayGuardVault.sol:121-153 | the vault's side of a transaction is a deposit or withdrawal in its books |
| Vault.PostconditionIsExact | apps/web/src/coston2.ts:465-501 | only the contracts' own result passes, so a router move in between makes it fail |
| Wires.EnvelopeSurvivesPrinting | packages/demo/src/index.ts:217-228 | an envelope comes back unchanged from print and parse if and only if it is canonical |
| Wires.RequestSurvivesPrinting | packages/demo/src/index.ts:322-330 | canonical requests come back unchanged |
| Wires.ParsedRequestIsCanonical | packages/demo/src/index.ts:322-330 | parsing yields nothing but canonical requests |
| DemoActors.AuthorizationIsBounded | packages/demo/src/server.ts:216-228 | the readings at which an ingress authorisation is accepted form one interval of at most 3660 seconds inside its window and skew |
| DemoActors.EvaluatesExactly | packages/demo/src/server.ts:106-240 | an actor evaluates if and only if the owner signed this actor's ingress for the current window, the policy is active, the state final within the request's lifetime, and binding, request and balance are the ones asked about; it signs, as itself, what the policy makes of the state it read |
| DemoActors.ActorsAgree | packages/demo/src/server.ts:136-179 | any two actors with one policy that accept a request over the same spend history have read the same accounting and sign the same digest, at any times and final blocks |
| DemoActors.ValidateDemoConfig | packages/demo/src/index.ts:230-256 | accepts exactly a configuration in the demo's domain, with nothing claimed as verified and well-formed ordered actors no two of which share an id, fingerprint, signer or endpoint |
| DemoActors.HonestEnvelopeIsAccepted | apps/web/src/interactive-demo.ts:377-391 | an honest actor's envelope survives the wire and passes every check of the browser |
| DemoActors.CollectDemoEvaluations | apps/web/src/interactive-demo.ts:353-395 | the loop never settles at the first silent actor, throws at the first unreachable one or oversized body, and otherwise selects on the last envelope of each machine among what parses and passes |
| DemoActors.CollectionEndsExactly | apps/web/src/interactive-demo.ts:362-377 | the collection returns if and only if every answer completes, and never settles if and only if the first that does not complete never comes |
| DemoQuorums.GatheredExactly | apps/web/src/interactive-demo.ts:379-393 | an envelope is gathered of an answer if and only if it parses in the actor's name for this request and policy and the actor signed the digest of its result |
| DemoQuorums.ReadyHasTwoActors | apps/web/src/interactive-demo.ts:353-409 | whatever is answered, when the collection ends ready two actors with different ids have signed the selected digest for this request |
| DemoActors.TwoHonestAnswersDecide | apps/web/src/interactive-demo.ts:353-409 | with two honest answers of the three, whatever the third is: the collection returns if and only if the third completes, and is then ready on the digest the honest actors agree on |
| DemoActors.OneFailureUndoesTwoHonestAnswers | apps/web/src/interactive-demo.ts:362-377 | a third actor that is silent keeps the collection from settling, one that is unreachable or sends an oversized body makes it throw; had it refused, the two would have decided |
| Assumptions.AssumptionsHold | packages/protocol/src/codec.ts:333-347 | collision-free hashing, a request hash that identifies normal forms, case-only checksums and a digest blind to the machine can be had together |
| Assumptions.BalanceAssumptionHolds | apps/relay/src/live-runtime.ts:735-739 | a balance commitment without collisions exists |
| Assumptions.UnreachableActorUndoesTheRound | apps/web/src/interactive-demo.ts:362-377 | three sound actors, two of which answer honestly: with an unreachable third the collection throws, with a silent third it never settles |
| Custody.DecodedIsNormal | packages/integrations/src/custody.ts:121-132 | decoding yields nothing but bundles in normal form, signed, in machine order, with the right hash |
| Custody.NormalBundlePrints | packages/integrations/src/custody.ts:134-145 | a normal bundle is what its wire decodes to and that wire is what it encodes to |
| Custody.CodecIsIdempotent | packages/integrations/src/custody.ts:121-145 | every accepted wire's bundle encodes, decodes back to itself, and its encoding is a fixed point |
| Custody.EncodedIsFixed | packages/integrations/src/custody.ts:134-145 | the encoding of any bundle that can be encoded is a fixed point |
| Custody.CaseDoesNotMatter | packages/integrations/src/custody.ts:155-248 | a wire that differs from an accepted one only in letter case is accepted if and only if its addresses are valid per EIP-55 and its prefixes lower case, and is then the same bundle with the same canonical wire |
| Custody.AcceptedMeansHolding | packages/integrations/src/custody.ts:121-248 | field by field: what is decoded is a binding with sound addresses, words, numbers and thresholds and three different machines and keys, with their three receipts in order, in one window, of the binding's nonce, with the right digests and signatures, and the hash of the digests; and every such bundle's own wire is accepted |
| Evidence.AccountingIsExact | packages/integrations/src/evidence.ts:284-300 | the overflow-checked sum accepts exactly the records that balance |
| Evidence.AcceptedMeansAgreeing | packages/integrations/src/evidence.ts:160-224 | of well-formed wires exactly those are accepted in which policy, request, approved result, two different signers of the policy, inputs, router status and transaction agree and the accounting balances |
| Evidence.AcceptedIsSpelled | packages/integrations/src/evidence.ts:160-278 | accepted evidence has checksummed addresses and lower-case words, none of them zero, three different machines and keys, and a wire that asserts conservation |
| Evidence.SignerOrderDoesNotMatter | packages/integrations/src/evidence.ts:192-219 | the digest is checked with the first signer's id and the first machine's key, which need not belong together; where it covers neither, the signers can be named in either order |
| Evidence.EvidenceIsIdempotent | packages/integrations/src/evidence.ts:160-238 | every accepted wire's evidence encodes, and decodes back to itself |
| Evidence.EncoderFixesNormalEvidence | packages/integrations/src/evidence.ts:225-238 | of all evidence it encodes, the encoder's output is a fixed point if and only if the evidence's own fields are in normal form and its request snapshot is encoded as what it decodes to is |
| UnnormalEvidence.UnnormalEvidenceIsEncoded | packages/integrations/src/evidence.ts:225-238 | concrete evidence with an upper-case field of its own, and other evidence with normal fields and an upper-case field in its snapshot, that are encoded without being fixed |

## Left out

- Network, RPC, explorer, wallet and polling code: each is a parameter or an event that may succeed, fail or answer anything.
- Cryptography, ABI encoding, encryption of ciphertexts and base64: abstract functions with the assumptions named above.
- Json: a number with a fraction or an exponent is kept as its token, so that 1.0 and 1 are one number is not modelled; nor is the moving of integer-like keys to the front of an object.
- Letter case: `toLowerCase` is modelled on ASCII, where all hex texts and addresses lie.
- JavaScript numbers: counters, occurrences and finite clock readings are unbounded integers; fractional readings and loss of precision beyond 2^53 are not modelled.
- Evaluation.ValidateMachines: the three error messages are not told apart by cause beyond being errors, and a malformed endpoint counts as a malformed machine.
- Relays.Relay: a submitter that calls back into the relay before its first promise is returned, and one telemetry object shared by two relays, are not modelled.
- Wires, Custody and Evidence: a wire value is a record with the right field names; the refusal of unknown or missing fields is a flat check and is left out, as are the enumerations' texts.
- Evidence.EvidenceIsIdempotent: the codec of the request snapshot inside the evidence is assumed to be stable under encoding; packages/integrations/src/requests.ts is not part of this model.
- Amounts.FormatRoundTrip: `parseUnits` and `formatUnits` belong to the viem library and are modelled from its behaviour on six decimals; the rounding of longer fractions cannot occur on accepted texts.
- The policy evaluator of the protocol package: a function of policy, request and state; that its result carries the request is assumed where it is used.
- DemoActors.HonestEnvelopeIsAccepted: decryption and the custody path of the actor are left out; the digest the owner signs for ingress is an abstract function.
- Studio.CompiledPolicyIsSound: the fixed fields of a compiled policy and the preview texts are constants and are left out; whether the policy can be encoded is a parameter.
- Reservations: the books of one owner and asset; which assets are supported, who may call, and requests reserved for other owners are left out.
- Submission: others' executions, expiries and cancellations stand for calls whose time, spend and caller conditions are met.
- Vault.ContractsMeetPostcondition: fees, tokens that transfer less than asked and the reentrancy lock are not modelled.
- HTTP routing, CORS, the ingress path, machine configuration loading and the evidence pages: flat checks that add no state.
- User interface, command-line tooling, generated bindings and the encoders for FDC requests and direct mints.
