# Approval, task board, rate limit and index reading: a verified model

A Dafny model of four cores of an agent-coordination backend, and proofs about them.

- **Approvals.** Policies name quorum slots; votes fill slots by bipartite matching and a majority,
  unanimous or veto rule turns the matching into a verdict (`Matching`, `Policy`, `Evaluator`). Requests,
  decisions, idempotency rows and lifecycle events live in tables that people, a pull-request trigger and a
  reconciliation loop change (`ApprovalStore` has each transaction as a function, `ApprovalService` the same
  transactions changing a store in place). `ApprovalEffects` reduces every transaction to one of six kinds of
  change; the invariants over all runs are in `ApprovalInvariants`, `RetryChain`, `ApprovalRuns`,
  `ApprovalRecords` (what commands record and why they are refused), `ApprovalEvents` (what events say),
  `TriggerSteps`, `TriggerSafety`, `TriggerRaces`, `TriggerExample`, `Reconciliation` and `ReadModel`;
  `Text` has the facts about key texts.
- **Task board.** Leads, workers and administrators patch tasks that depend on one another; reopening a
  finished task sends its unfinished dependents back to the inbox (`TaskRules` as functions, `TaskBoard` in
  place, `DependencyGraph` for the cycle search, `BoardSafety` for what every run keeps, `BoardAnswers` for
  which requests are accepted and what they do).
- **Rate limiting.** A log of all attempts is the reference; the in-memory deques and the Redis script both
  give its answers with bounded storage (`RateLimit`, `RedisLimit`).
- **Two smaller ones.** Calendar buckets of the dashboard (`Metrics`) and the chunked reader of the skills
  index (`SkillsIndex` for arrays, `SkillsObject` for the object form, `SkillsReader` for the reader in place,
  `SkillsRoundTrip` for writing and reading back).

How the model stands for the program: a committed transaction or API call is one step, an error is an unchanged
state; identifiers of requests and decisions are positions in their tables; clocks, principals, policy rows and
what other tables say are parameters. `Option` and `Outcome` values stand for nulls and error codes.

Seven findings about the program are stated exactly:

- **The trigger's "same head" case.** The documentation of the trigger says that seeing the same head while a
  request for it is pending does nothing. The comparison uses the full trigger key, and a retry's key carries a
  retry mark: observations that fail aside, nothing happens if and only if the pending request is not a retry
  (`TriggerSafety.SameHeadIsNoOpIff`). A pending *retry* of the head is closed and nothing takes its place
  (`TriggerSafety.SameHeadClosesItsRetry`; `TriggerExample.SameHeadLosesItsRequest` is a run from empty tables that
  does it). In every state that atomic observations reach, `TriggerSafety.PendingAfterObservation` says which
  observations succeed, what they leave pending and when they add a row.
- **Two observers.** Lookup and insert are separate transactions, so two requests of one pull request can be
  pending. From a state without such a pair, a transaction makes one if and only if it inserts a request for a
  commit never requested, or by hand, while a request of the pull request is pending and stays so
  (`TriggerSteps.NoTwoPendingIff`, for every transaction at any clock). Replacing a predecessor still pending under
  its lock never does (`TriggerSteps.LockedSuccessorNeverDoubles`). The runs without such a transaction are exactly
  the clean ones (`TriggerSteps.CleanThroughoutIff`), and every pair goes back to one
  (`TriggerSteps.TwoPendingWereDoubled`). An observer's write, whatever ran since its look, is such a transaction if
  and only if its commit was never requested, the policy admits it, and a request of the pull request inserted since
  the look is pending (`TriggerRaces.LateWriteDoublesIff`). Both ways a stale write gets there are proved: two plain inserts
  (`TriggerRaces.StaleObserversLeaveTwo`), and an observer that loses the lock to another commit and falls back to a
  plain insert (`TriggerRaces.LostRaceLeavesTwo`). Observations taken as one step never make a pair, so
  `TriggerSafety.AtMostOnePending` asks of all other transactions only that they make none.
- **Counted inserts.** The trigger's counters count what an observation reports, not what it inserts. An observation
  that succeeds is counted if and only if the newest request seen does not carry the head's own key, and inserts if
  and only if the head was never requested (`TriggerRaces.CountedAndInserted`): a head requested before is counted
  again on every pass, with nothing inserted, while a retry or another request is the newest.
- **Stranded tasks.** A lead who edits only the dependencies of a started or assigned task can leave it
  started or assigned while blocked. `BoardSafety.OrderlyIffNotStranding` shows that this one kind of request is
  the only way, and `BoardSafety.LeadCanStrand` gives an instance.
- **Cycle times.** Entering review stops the clock, and the cycle-time queries of the dashboard select tasks in
  review whose clock runs: over every run they find nothing (`BoardSafety.CycleTimeFindsNothing`).
- **Blanks at chunk ends.** After loading a chunk the index reader stops skipping blanks, so a bracket or comma
  beyond the end of the next chunk is not seen and a valid index is refused. The reader never returns wrong
  entries (`SkillsIndex.ReadingNeverWrong`). For any one cut, a valid array is read if and only if every bracket
  and comma is visible in this sense when its turn comes (`SkillsIndex.CutReadsAsWholeIff`); for all cuts into
  chunks of at least n characters, if and only if none of them has more than n blanks before it, the first n
  characters of the text aside (`SkillsIndex.WideCutsAgreeIffTight`). The program cuts at 16384 characters:
  `SkillsIndex.ProgramReadsTightIndex` is the positive case, and `SkillsIndex.BlankChunkIsRefused` at n = 16384 is
  a valid index that the program refuses.
- **Indexes in object form.** A chunk that ends inside a number makes the reader refuse a valid index
  (`SkillsObject.CutNumberIsRefused`; `SkillsObject.CutTwelveIsRefused` has one for every chunk length), and so does
  a `skills` member that is no array with another member after it, under every cut
  (`SkillsObject.OtherSkillsThenMore`, `SkillsObject.NumberedSkillsIsRefused`). The reader never returns wrong
  entries (`SkillsObject.IndexNeverWrong`), and `SkillsObject.ObjectCutReadsAsWholeIff` says for any one cut exactly
  when a valid index in object form is read.

## Model

| member | source | states |
|---|---|---|
| Matching.Matcher.TryAssign | backend/app/mission/approval_evaluator.py:83-91 | The recursive search from a state where the slot being placed may hold a second principal: success gives the slot one principal not visited before and leaves exactly the same other slots filled, one principal each; failure changes no assignment and shows a closed set: everything visited is taken by slots whose candidates are all visited. |
| Matching.Matcher.MaxBipartiteMatching | backend/app/mission/approval_evaluator.py:61-96 | The result is a one-to-one matching along edges, fills exactly the greedily fillable slots and is at least as large as every other matching. |
| Matching.ClosedSetBlocks | backend/app/mission/approval_evaluator.py:83-96 | A failed search is final: with a closed visited set, the slots already filled and the new one cannot all be filled by any matching. |
| Matching.CoverBounds | backend/app/mission/approval_evaluator.py:61-96 | A closed set of principals and the slots outside it cover all edges, so no matching is larger than the one found. |
| Matching.GreedyRejects | backend/app/mission/approval_evaluator.py:93-96 | A slot left unfilled could be filled neither when it was tried nor at the end, even with all others rearranged. |
| Matching.GreedyIsMaximum | backend/app/mission/approval_evaluator.py:61-96 | Keeping a slot whenever it still fits fills as many slots as any matching of the slots considered. |
| Matching.GreedyFillsAllIff | backend/app/mission/approval_evaluator.py:61-117 | All slots are filled if and only if one matching fills all of them. |
| Matching.AddedPrincipalKeepsFilled | backend/app/mission/approval_evaluator.py:73-111 | One more approving principal, whatever it is eligible for, never empties a filled slot. |
| Matching.AddedPrincipalFillsAtMostOneMore | backend/app/mission/approval_evaluator.py:73-111 | One more approving principal fills at most one more slot. |
| Matching.RenamedGreedy | backend/app/mission/approval_evaluator.py:73-96 | Which slots are filled does not depend on how principals are numbered or listed. |
| Evaluator.EvaluateApproval | backend/app/mission/approval_evaluator.py:99-137 | The evaluation run with the in-place matching equals the evaluation defined by the greedily fillable slots. |
| Evaluator.QuorumIsAnAssignment | backend/app/mission/approval_evaluator.py:99-117 | The quorum is reported satisfied if and only if distinct approving votes can be assigned to all slots, each eligible for its slot. |
| Evaluator.MissingIsFewest | backend/app/mission/approval_evaluator.py:107-117 | No set of slots that could be filled together leaves fewer requirements missing than are reported. |
| Evaluator.MissingNames | backend/app/mission/approval_evaluator.py:107-112 | A name is reported missing exactly when a slot of that name is unfilled. |
| Evaluator.QuorumDecides | backend/app/mission/approval_evaluator.py:140-181 | Under every valid policy and all three rules a satisfied quorum has at least as many approvals as slots, nothing missing and a verdict that is not pending. |
| Evaluator.VerdictMeaning | backend/app/mission/approval_evaluator.py:140-181 | Approved means quorum, no authorised veto, and under majority more approvals than rejections, under unanimity no rejection; pending means neither quorum nor veto; the mission effect is present exactly for rejections. |
| Evaluator.EffectMeaning | backend/app/mission/approval_evaluator.py:123-127 | A rejection blocks the mission if and only if the policy says so, and leaves it unchanged if and only if the policy says that; nothing else has an effect. |
| Evaluator.ReasonMeaning | backend/app/mission/approval_evaluator.py:140-181 | Each explanation is given if and only if it is the case; that of a quorum without approvals never is. |
| Evaluator.VotesAreListed | backend/app/mission/approval_evaluator.py:104-115 | A further vote is listed under its kind, approvals or rejections, after those before it, and without votes both lists are empty. |
| Evaluator.MissingInSlotOrder | backend/app/mission/approval_evaluator.py:107-112 | The names of unfilled slots come in the order of the slots. |
| Evaluator.OrderIndependent | backend/app/mission/approval_evaluator.py:93-137 | Status, quorum, missing names, effect, reason and counts are the same for every order in which the votes are read. |
| Evaluator.ExtraApproval | backend/app/mission/approval_evaluator.py:73-137 | An extra approval adds no missing name, removes at most one, never loses the quorum and never undoes an approval. |
| Evaluator.ExtraRejection | backend/app/mission/approval_evaluator.py:99-181 | An extra rejection changes no slot, approves nothing and never undoes a rejection. |
| ApprovalService.Store.ReserveOrGetOperation | backend/app/mission/approval_service.py:240-291 | A fresh key is reserved; a key already used with the same payload gives the recorded reply, with another payload a conflict, and neither changes a row. |
| ApprovalService.Store.CreateApprovalRequest | backend/app/mission/approval_service.py:489-572 | Reply and tables are those of the creation step. Every accepted or refused call keeps the invariant of all runs and only adds to the tables; a refused one leaves them as they were, its reservation included. |
| ApprovalService.Store.FinalizeDecision | backend/app/mission/approval_service.py:414-486 | The vote is recorded, the request is re-evaluated, and status, resolution time and events change as the verdict says. |
| ApprovalService.Store.SubmitDecision | backend/app/mission/approval_service.py:575-654 | Reply and tables are those of the submission step: lock, idempotency, openness, authorisation, single vote, evaluation. Every accepted or refused call keeps the invariant of all runs and only adds to the tables; a refused one leaves them as they were, its reservation included. |
| ApprovalService.Store.SupersedeDecision | backend/app/mission/approval_service.py:657-758 | Reply and tables are those of the supersession step; only the author's own effective vote can be replaced. Every accepted or refused call keeps the invariant of all runs and only adds to the tables; a refused one leaves them as they were, its reservation included. |
| ApprovalService.Store.CreateSystemRequest | backend/app/mission/approval_service.py:787-901 | Closes the predecessor if there is one and inserts a row unless the trigger key is taken, in which case the existing row is returned and nothing inserted; a refusal changes nothing. |
| ApprovalService.Store.ReconcileOne | backend/app/mission/approval_reconciliation.py:84-173 | Rechecks the request under the lock, expires it if overdue and inserts the next retry when policy, count and time to live allow, or changes nothing; the invariant of all runs is kept. |
| ApprovalService.Store.SelectCandidates | backend/app/mission/approval_reconciliation.py:49-63 | The candidates are overdue pending requests, oldest expiry first, as many as the batch size allows, and none left out expires sooner. |
| ApprovalService.Store.RunReconciliationTick | backend/app/mission/approval_reconciliation.py:49-81 | A tick sweeps such a batch one transaction at a time, each recheck at its own clock, reports how many were processed and recreated, and keeps the invariant of all runs. |
| ApprovalService.Store.FindLatest | backend/app/mission/approval_triggers.py:186-197 | Finds a most recently created request of the pull request's subject, or none if there is none. |
| ApprovalService.Store.HandleNewHeadPendingPredecessor | backend/app/mission/approval_triggers.py:250-315 | Closing and inserting happen in one step when the predecessor is still pending under the lock; otherwise a plain successor is made; an error changes nothing. |
| ApprovalService.Store.ActOnSight | backend/app/mission/approval_triggers.py:199-247 | Given any sight of the newest request, however many transactions ago, the five-case step and the recheck under the lock do what the source does with it; the invariant of all runs is kept, and nothing changes on failure. |
| ApprovalService.Store.EvaluateOnePr | backend/app/mission/approval_triggers.py:159-247 | The lookup and the step on what it saw, with nothing in between, is the observation of a most recent request of the subject. |
| ApprovalEffects.CommandEffect | backend/app/mission/approval_service.py:414-901 | Every transaction, by anyone at any clock, is one of six legal changes of the tables: nothing, an insert, an end, an end with its successor, a vote, or a vote that ends the request with the verdict it evaluates to. |
| ApprovalEffects.ReconcileEffect | backend/app/mission/approval_reconciliation.py:84-173 | A recheck changes rows exactly when it succeeds on a pending overdue request, and then only expires that request, with or without a retry. |
| ApprovalEffects.HeadEffect | backend/app/mission/approval_service.py:839-901 | An insert for a head closes its predecessor and adds a row together when the key is free; with the key taken it closes and adds nothing. |
| ApprovalInvariants.LifecyclesPreserved | backend/app/mission/approval_service.py:429-473 | Each change keeps: a request has a resolution time exactly when it is not pending, and its log is its creation followed by exactly one event naming its status. |
| ApprovalInvariants.ChainedPreserved | backend/app/mission/approval_service.py:627-734 | Each change keeps every decision superseding its author's previous one on the request and nothing else. |
| ApprovalInvariants.EffectiveIsLatest | backend/app/mission/approval_service.py:402-411 | In such chains a decision is effective if and only if it is its author's last on the request. |
| ApprovalInvariants.OneVoteEach | backend/app/mission/approval_service.py:402-411 | Every voter has exactly one effective vote, so effective votes number as many as voters. |
| ApprovalInvariants.VerdictsPreserved | backend/app/mission/approval_service.py:429-473 | Each change keeps every stored verdict equal to a fresh evaluation of the request's effective votes; expired and superseded requests evaluate to pending. |
| RetryChain.RetryKeyIsFree | backend/app/mission/approval_service.py:761-784 | The key the next retry of any pending request would take is never in use, so a retry cannot collide. |
| RetryChain.AtMostOneSuccessor | backend/app/mission/approval_reconciliation.py:122-161 | No expired request is continued by two retries. |
| RetryChain.RetryChainsPreserved | backend/app/mission/approval_reconciliation.py:122-161 | Each change keeps trigger keys unique, every key its base with at most one mark carrying the count, and every retry linked to the expired request one count lower with the same target, policy and time to live. |
| RetryChain.ChainShape | backend/app/mission/approval_service.py:761-784 | The n-th retry carries its chain's first key marked once with n, its first target, policy and exact time to live, and n stays within the policy's limit. |
| RetryChain.KeyNamesHead | backend/app/mission/approval_triggers.py:66-74 | Two heads have the same trigger key if and only if they have the same repository text, pull request number and commit. |
| RetryChain.KeyWrittenOut | backend/app/mission/approval_triggers.py:66-74 | The text of every trigger key. |
| RetryChain.RetryKeyWrittenOut | backend/app/mission/approval_service.py:761-784 | The text of every retry key: one mark with the next count after the key without its mark, or after the identifier of a request made by hand. |
| RetryChain.KeysNameTargetsPreserved | backend/app/mission/approval_service.py:839-901 | Each change keeps every first trigger key naming the head its request is for. |
| RetryChain.KeyTakenIff | backend/app/mission/approval_service.py:889-901 | The key of a head is in use if and only if that very head was requested before: no other pull request and no retry ever holds it. |
| ApprovalRuns.SafeStep | backend/app/mission/approval_service.py:414-901 | Every transaction keeps all of the above invariants together. |
| ApprovalRuns.RunIsSafe | backend/app/mission/approval_service.py:414-901 | They hold after every run of transactions by any actors at any clocks. |
| ApprovalRuns.RunIsLater | backend/app/mission/approval_service.py:240-313 | Over any run no row disappears, decisions, events, idempotency rows and closed requests never change, and a pending request changes only by closing. |
| ApprovalRuns.ClosedForGood | backend/app/mission/approval_service.py:447-463 | A request leaves pending at most once: afterwards its row and its two-event log are the same for ever. |
| ApprovalRuns.NoQuorumEvent | backend/app/mission/approval_service.py:447-473 | No run from empty tables ever records that a quorum was reached on a request still pending. |
| ApprovalRuns.SubmitOnce | backend/app/mission/approval_service.py:592-654 | After any further run, repeating an accepted submission gives the first reply and changes nothing; the same key with any other payload on an existing request is refused as reused. |
| ApprovalRuns.SupersedeOnce | backend/app/mission/approval_service.py:676-758 | The same for supersessions. |
| ApprovalRuns.CreateOnce | backend/app/mission/approval_service.py:507-572 | The same for creations. |
| ApprovalRuns.SubmitAcceptedIff | backend/app/mission/approval_service.py:592-640 | In every safe state a submission under a fresh key is accepted if and only if the request is open, the caller is a person whose type, role and trust the policy admits, and has never voted on it. |
| ApprovalRuns.SupersedeAcceptedIff | backend/app/mission/approval_service.py:676-740 | A supersession under a fresh key is accepted if and only if the caller may vote and names its own latest decision on the request. |
| ApprovalRecords.SubmissionRecorded | backend/app/mission/approval_service.py:635-654 | An accepted submission stores the very vote cast, with the caller's roles and trust; the votes that count are those before and that one; the reply reports the vote, the stored status, whether an assignment fills the quorum and the effect the policy names; other requests keep their votes. |
| ApprovalRecords.SupersessionRecorded | backend/app/mission/approval_service.py:704-758 | The same for an accepted supersession: the votes that count are those before with the caller's old one replaced by the new. |
| ApprovalRecords.VoteMovesQuorum | backend/app/mission/approval_service.py:429-446 | An accepted approval adds no missing name, fills at most one more slot and never loses a quorum; an accepted rejection changes no slot and approves nothing. |
| ApprovalRecords.CreationRecorded | backend/app/mission/approval_service.py:532-572 | An accepted creation stores one pending request, by the caller for the target and the time asked under the active policy, without key or predecessor, and reports it. |
| ApprovalRecords.CreationAnswers | backend/app/mission/approval_service.py:507-531 | Under a fresh key a creation is accepted, or refused with each code, exactly for what the caller, the activation and the policy are. |
| ApprovalRecords.SubmissionAnswers | backend/app/mission/approval_service.py:592-634 | Under a fresh key a submission is accepted, or refused with each code, exactly for what the caller is and has voted and the request is. |
| ApprovalRecords.SupersessionAnswers | backend/app/mission/approval_service.py:676-735 | The same for a supersession, with the codes for a decision that is not of the request or not the caller's latest. |
| ApprovalRecords.SystemRequestAnswers | backend/app/mission/approval_service.py:822-901 | Only a system principal under a policy that admits it makes system requests; the answer describes the one request that then holds the key. |
| ApprovalRecords.ValidPolicyCanPass | backend/app/mission/approval_policy.py:146-168 | Under every valid policy voters with admitted roles can fill all slots and get an approval. |
| ApprovalRecords.VetoCanBeCast | backend/app/mission/approval_policy.py:111-128 | Under every valid veto policy one voter with an admitted role can reject alone. |
| ApprovalRecords.VotersMayVote | backend/app/mission/approval_policy.py:146-168 | Whoever holds a role of a slot or of the veto is authorised under a valid policy as far as type and trust allow, an AI principal never, and admitted roles are registered ones. |
| ApprovalRecords.SmallestPoliciesAreValid | backend/app/mission/approval_policy.py:96-168 | One slot with one registered role is enough for a valid policy under each rule and each expiry behaviour. |
| ApprovalEvents.EveryEventTells | backend/app/mission/approval_service.py:447-486 | After every run from empty tables each event names the actor and the time of what it tells; a verdict is told with the quorum the votes have, the effect the policy of its request names and the last voter; a replacement with a key that is in use. |
| ApprovalEvents.ExpiryIsTold | backend/app/mission/approval_reconciliation.py:113-173 | What an expiry event has to say: the mission is blocked exactly under the blocking behaviour, the retries are exhausted or the time to live is not positive exactly when they are, and a recreating policy has made a retry exactly otherwise. |
| ApprovalEvents.EventsTellOverRuns | backend/app/mission/approval_reconciliation.py:104-173 | Every transaction keeps every event true: over all runs the expiry flags, the retry they promise, actors, times, effects and keys stay as told. |
| TriggerSteps.NoTwoPendingIff | backend/app/mission/approval_triggers.py:186-302 | From any safe state in which no pull request has two pending requests, at any clock: two are pending after a transaction if and only if it inserts one for a commit never requested, or by hand, beside one that is and stays pending. |
| TriggerSteps.OnePendingEachIff | backend/app/mission/approval_service.py:489-901 | With increasing creation times the same condition is exact for the pending request being the newest of its pull request. |
| TriggerSteps.LockedSuccessorNeverDoubles | backend/app/mission/approval_triggers.py:270-302 | Replacing a predecessor that is still pending under its lock never leaves two pending. |
| TriggerSteps.CleanThroughoutIff | backend/app/mission/approval_service.py:414-901 | A run of any transactions never has two requests of one pull request pending if and only if none of its transactions is such an insert. |
| TriggerSteps.TwoPendingWereDoubled | backend/app/mission/approval_service.py:414-901 | Two pending requests of one pull request at the end of any run go back to the first such insert of the run. |
| TriggerSafety.PerformPreserves | backend/app/mission/approval_triggers.py:159-302 | With increasing creation times, an observation taken as one step, and any other transaction that is no such insert, keeps every pending triggered request newer than all others of its subject. |
| TriggerSafety.AtMostOnePending | backend/app/mission/approval_triggers.py:186-247 | Over every run of such observations and transactions at most one request of a repository, card and action is pending. |
| TriggerSafety.ObservationSucceedsIff | backend/app/mission/approval_triggers.py:159-247 | An observation succeeds if and only if the key has at most 512 characters and either the head is already pending or the active policy admits requests of the system caller; otherwise nothing changes. |
| TriggerSafety.PendingAfterObservation | backend/app/mission/approval_triggers.py:211-302 | An observation that proceeds leaves a pending request for the subject if and only if this very head was never requested or is the pending request seen, and adds a row if and only if it was never requested; any other changes nothing. |
| TriggerSafety.SameHeadIsNoOpIff | backend/app/mission/approval_triggers.py:211-215 | Observing the head of a pending request changes nothing if and only if that request is not a retry, or the key is too long, or the policy does not admit the request. |
| TriggerSafety.SameHeadClosesItsRetry | backend/app/mission/approval_triggers.py:211-213 | Where the policy admits it, seeing a head again while its own retry is pending closes the retry and leaves no pending request. |
| TriggerRaces.StaleWriteDoublesIff | backend/app/mission/approval_triggers.py:199-315 | In any state, a write after a stale sight leaves two pending if and only if its commit was never requested, the policy admits it and a request of the pull request other than the one seen is pending. |
| TriggerRaces.LateWriteDoublesIff | backend/app/mission/approval_triggers.py:186-315 | Whatever run lies between look and write, the write leaves two pending if and only if its commit was never requested, the policy admits it and a request of the pull request inserted since the look is pending. |
| TriggerRaces.AtOnceIsAtomic | backend/app/mission/approval_triggers.py:186-247 | Acting on what was just seen is the observation taken as one step, reply included. |
| TriggerRaces.ActIsWrite | backend/app/mission/approval_triggers.py:199-315 | What acting on a sight does to the tables is one transaction of the run model, or nothing. |
| TriggerRaces.CountedAndInserted | backend/app/mission/approval_triggers.py:122-145 | An observation that succeeds is counted if and only if what it saw does not carry the key of the head, and inserts if and only if the head was never requested; one that fails changes nothing. |
| TriggerRaces.InsertedRequest | backend/app/mission/approval_triggers.py:77-157 | Whatever was seen and however long ago, a request inserted for a head is under the active trigger policy, by the caller for the system, follows the request seen, and is overdue from the end of the given time on and not before. |
| TriggerRaces.SightAnswers | backend/app/mission/approval_triggers.py:199-315 | Success, the key over 512 characters and each of the three reports are given exactly when they are the case, and only a request that is reported replaced is closed. |
| TriggerRaces.StaleObserversLeaveTwo | backend/app/mission/approval_triggers.py:186-247 | For all commits of one pull request never requested, two inserts after lookups that both came first leave two pending requests of it. |
| TriggerRaces.LostRaceLeavesTwo | backend/app/mission/approval_triggers.py:270-315 | Two observers of different new commits saw the same pending request: the first replaces it, the second finds it closed under the lock, falls back to a plain insert, and both new requests are pending. |
| TriggerExample.SameHeadLosesItsRequest | backend/app/mission/approval_triggers.py:211-247 | For every head, time to live and recreating policy, the run observe, expire and recreate, observe again from empty tables is disciplined and ends with no pending request. |
| Reconciliation.ReconcileSucceeds | backend/app/mission/approval_reconciliation.py:104-173 | In a safe state a recheck of an overdue request succeeds, and inserts a pending successor exactly when retries are left and the time to live is positive. |
| Reconciliation.RecheckAnswers | backend/app/mission/approval_reconciliation.py:84-161 | A recheck does nothing exactly until its request is due, recreates exactly when behaviour, count, time to live and caller allow, fails exactly for a retry the caller may not make, and then changes nothing. |
| Reconciliation.SweepStops | backend/app/mission/approval_reconciliation.py:64-81 | The first failing recheck ends a tick with its code and keeps what was swept before it. |
| Reconciliation.ReconcileRemoves | backend/app/mission/approval_reconciliation.py:104-161 | At any clock from the selection on, it removes exactly its request from those overdue at the selection: a successor is not among them. |
| Reconciliation.TickDrains | backend/app/mission/approval_reconciliation.py:49-81 | A tick lowers the number of overdue requests by the smaller of batch size and that number, takes none that expires later than one it leaves, and does nothing when none is overdue. |
| Reconciliation.TicksDrain | backend/app/mission/approval_reconciliation.py:49-81 | k ticks that select at one clock and recheck at it or later leave max(0, n - k * batch) of the requests overdue at it, and from zero on change nothing. |
| ReadModel.DetailAgrees | backend/app/mission/approval_read_service.py:116-222 | In every safe state the recomputed view agrees with the stored status: quorum only for decided requests, an effect exactly for rejections, each slot reported as the votes fill it, and the log the status calls for. |
| ReadModel.DetailShows | backend/app/mission/approval_read_service.py:116-222 | The view shows every slot by name and in order with whether it is missing, exactly the latest decision of each voter, oldest first, the caller's own among them, and the effect the policy names for a rejection. |
| ReadModel.CanDecideMeansAccepted | backend/app/mission/approval_read_service.py:170-222 | The view says a principal can decide if and only if its submission (or, having voted, its supersession) under a fresh key would be accepted. |
| DependencyGraph.CycleSearch.Dfs | backend/app/services/task_dependencies.py:116-127 | A hit yields a cycle; a miss leaves the path stack as it was and puts the node into an order in which every node leads only to earlier ones. |
| DependencyGraph.CycleSearch.HasCycle | backend/app/services/task_dependencies.py:111-129 | True only if the graph has a cycle; false only if no cycle passes through any of the nodes asked about. |
| TaskBoard.TaskTables.ValidateDependencyUpdate | backend/app/services/task_dependencies.py:132-193 | Refuses a self-dependency, a missing dependency and a cycle, in that order, and accepts exactly the rest. |
| TaskBoard.TaskTables.ReplaceTaskDependencies | backend/app/services/task_dependencies.py:196-225 | Replaces exactly the rows of one task by the accepted list, or changes nothing. |
| TaskBoard.TaskTables.ReconcileDependents | backend/app/api/tasks.py:456-534 | The loop over dependents resets exactly the unfinished direct dependents, and only when a finished dependency is reopened. |
| TaskBoard.TaskTables.CreateTask | backend/app/api/tasks.py:1491-1543 | Dependencies, tags, blocking and custom fields are checked in this order; a blocked new task is accepted only unassigned in the inbox; a refusal changes nothing; the graph stays well formed and an orderly board orderly. |
| TaskBoard.TaskTables.ApplyLeadUpdate | backend/app/api/tasks.py:2253-2337 | The lead's field rules, dependency replacement, tag, blocked, assignment, transition, gate and custom-field checks in the order of the source, then the cascade. |
| TaskBoard.TaskTables.ApplyWorkerRules | backend/app/api/tasks.py:2346-2426 | The worker's refusals and the side effects of each requested status. |
| TaskBoard.TaskTables.ApplyAdminRules | backend/app/api/tasks.py:2429-2499 | The tag check, the administrator's dependency edit, the rewriting of a blocked request and the assignee checks. |
| TaskBoard.TaskTables.FinalizeUpdatedTask | backend/app/api/tasks.py:2660-2747 | Writes the fields, passes the gates on the original request and the comment rule, hands a review to the lead, checks custom fields and cascades. |
| TaskBoard.TaskTables.UpdateTask | backend/app/api/tasks.py:1587-1648 | A patch either gives the tables its actor's rules describe or, refused at any point, leaves them as they were; the graph stays well formed, and an orderly board stays orderly if and only if the patch does not strand its task. |
| TaskBoard.TaskTables.DeleteAgent | backend/app/services/openclaw/provisioning_db.py:1827-1847 | The two bulk updates together unassign the agent everywhere and return its started tasks to the inbox. |
| BoardSafety.ReplacementIsSound | backend/app/services/task_dependencies.py:132-225 | Accepted dependency lists keep the graph acyclic without dangling rows and leave other tasks' rows alone. |
| BoardSafety.CascadeMisplacesNoOther | backend/app/api/tasks.py:471-534 | One level of cascade is enough for any graph: no other task becomes blocked while started or assigned. |
| BoardSafety.LeadPlaces | backend/app/api/tasks.py:2272-2278 | After a lead's patch its task is misplaced only if it was before or the patch strands it, and stranding always misplaces it. |
| BoardSafety.AdminMoves | backend/app/api/tasks.py:2471-2476 | An administrator's accepted patch leaves its task placed properly whatever the board was like, and changes only that task, its rows and what the cascade reaches. |
| BoardSafety.StepMisplaces | backend/app/api/tasks.py:1528-1529 | From any board, orderly or not, no request misplaces a task other than the one a lead strands with it. |
| BoardSafety.OrderlyIffNotStranding | backend/app/api/tasks.py:2272-2278 | An orderly board stays orderly under a request if and only if the request strands no task. |
| BoardSafety.CarefulRunIsOrderly | backend/app/api/tasks.py:471-534 | Over any run without stranding, every unfinished task with an unfinished dependency is in the inbox and unassigned. |
| BoardSafety.MisplacedWasStranded | backend/app/api/tasks.py:2402-2416 | Over any run whatever, a task that ends misplaced started so or was stranded by a lead's request of the run. |
| BoardSafety.LeadCanStrand | backend/app/api/tasks.py:2272-2278 | A concrete orderly board and lead request after which it is not orderly. |
| BoardSafety.RunKeepsWellFormed | backend/app/services/task_dependencies.py:111-225 | Over any run the dependency graph stays acyclic without dangling rows, and the working clock runs only in progress or done. |
| BoardSafety.CycleTimeFindsNothing | backend/app/api/metrics.py:189-211 | Over every run from an empty board no task is in review with a running clock, so the cycle-time query selects nothing. |
| BoardSafety.DoneIsEarned | backend/app/api/tasks.py:220-301 | However a task becomes done, its own patch did it, its dependencies were done, and the review, approval, pending-approval and lead-only gates that are switched on were passed. |
| BoardAnswers.PatchAnswers | backend/app/api/tasks.py:1587-1648 | A patch, by whomever, is accepted if and only if its actor may make it; it then does to the task, its dependency rows and its dependents what that actor's rules promise, and every refusal has its reason. |
| BoardAnswers.DoneIffEarned | backend/app/api/tasks.py:220-301 | A task that is not done becomes done if and only if a patch of it asks for that, its dependencies are done, the gates are open and its actor may ask for all it asks. |
| BoardAnswers.WorkerAnswers | backend/app/api/tasks.py:2346-2426 | A worker's patch is accepted exactly under the stated conditions and gives the status asked for, the assignee and clock that go with it, and the cascade; each refusal has its reason. |
| BoardAnswers.AdminAnswers | backend/app/api/tasks.py:2429-2499 | The same for an administrator: the status and assignee asked for, or the inbox for a blocked task, and the lead on entering review. |
| BoardAnswers.LeadAnswers | backend/app/api/tasks.py:2253-2337 | The same for a lead: the assignment asked for, one of three moves, and the last worker of a task sent back from review. |
| BoardAnswers.DependenciesAnswer | backend/app/services/task_dependencies.py:132-225 | A dependency list is accepted if and only if the task is not done, the list names other known tasks and closes no cycle; each refusal has its reason; the rows are then those asked for. |
| BoardAnswers.GatesAnswer | backend/app/api/tasks.py:220-301 | The gates are passed if and only if every switched-on gate is open. |
| BoardAnswers.CreationAnswers | backend/app/api/tasks.py:1491-1543 | A task is created if and only if its list is known and it is idle or unblocked and tags and fields fit; it is as asked, without clock, and everything else is as it was. |
| BoardAnswers.DeletionAnswers | backend/app/api/tasks.py:1651-1713 | Deleting a task removes it and every row that names it and nothing else. |
| BoardAnswers.AgentLeaves | backend/app/services/openclaw/provisioning_db.py:1827-1847 | Deleting an agent leaves none of its tasks with it: those in progress are in the inbox with the clock stopped, the others keep status and clock. |
| BoardSafety.SomeTaskIsReady | backend/app/services/task_dependencies.py:76-129 | The board never deadlocks: after any run, if a task is unfinished then some unfinished task has all its dependencies done. |
| RateLimit.WindowHoldsAtMost | backend/app/core/rate_limit.py:102-115 | No window of the given length, wherever it ends, holds more than the maximum of allowed calls of a key. |
| RateLimit.WindowDecides | backend/app/core/rate_limit.py:102-115 | A call is refused exactly when the maximum of earlier attempts of its key, answered either way, are less than a window old. |
| RateLimit.BoundedMemoryDecides | backend/app/core/rate_limit.py:102-115 | A bounded set of kept attempts that stands for the log decides exactly as counting the whole log does. |
| RateLimit.InMemoryRateLimiter.SweepExpired | backend/app/core/rate_limit.py:80-86 | The sweep forgets exactly keys with nothing left in the window, and what remains still stands for the log. |
| RateLimit.InMemoryRateLimiter.RecordAttempt | backend/app/core/rate_limit.py:97-115 | Pruning, counting and replacing the oldest attempt answers by the number of attempts in the window and touches no other key. |
| RateLimit.InMemoryRateLimiter.IsAllowed | backend/app/core/rate_limit.py:88-115 | With room for at least one request the answer is that of the unbounded log, sweep or no sweep; with none the call fails on the empty deque; no bucket exceeds the maximum, and a sweeping call leaves no stale key. |
| RedisLimit.TimeToLive | backend/app/core/rate_limit.py:161 | The expiry is a whole number of seconds, longer than the window and by at most one second. |
| RedisLimit.ExpiredIsStale | backend/app/core/rate_limit.py:31-47 | When a key's expiry has passed, dropping it loses nothing that trimming would keep. |
| RedisLimit.ScriptMirrors | backend/app/core/rate_limit.py:31-47 | The set the script leaves stands for the log with the new attempt, whichever of equally old members it removes, and its count decides as the log does. |
| RedisLimit.RedisRateLimiter.IsAllowed | backend/app/core/rate_limit.py:143-165 | For every maximum the answer is that of the unbounded log, whether or not Redis has dropped an expired key, and sets stay bounded. |
| Metrics.BucketSpans | backend/app/api/metrics.py:94-117 | An instant lies between the start of its hour, day, week or month and the next start, and the start is its own start. |
| Metrics.BucketIsUnique | backend/app/api/metrics.py:94-117 | An instant lies in no other bucket. |
| Metrics.MonthIsUnique | backend/app/api/metrics.py:111-117 | A day belongs to exactly one month of the Gregorian calendar, leap years included. |
| Metrics.YearStart | backend/app/api/metrics.py:94-117 | The day number of each first of January, in closed form: the Gregorian leap years. |
| Metrics.MonthStart | backend/app/api/metrics.py:94-117 | The day number of each first of a month, in closed form. |
| Metrics.BucketsTruncate | backend/app/api/metrics.py:94-117 | The bucket of a date and time sets the parts below the hour, day or month to their first values, or is the midnight of the Monday on or before it; the next month bucket is the first of the next month. |
| Metrics.MondaysAreMultiples | backend/app/api/metrics.py:94-101 | The calendar starts with a Monday, and 1 January 2024 is one. |
| Metrics.BuildBuckets | backend/app/api/metrics.py:120-126 | The loop ends with the strictly increasing list of exactly the bucket starts from the range's first bucket to its end. |
| Metrics.BucketsAreThoseOfTheRange | backend/app/api/metrics.py:120-126 | A start is listed if and only if it is the bucket of some instant of the range. |
| Metrics.SeriesIsCounts | backend/app/api/metrics.py:129-141 | Each point of a count series is the number of events in its bucket. |
| Metrics.SeriesLosesNothing | backend/app/api/metrics.py:129-141 | The points of a series add up to the number of events grouped: none lost, none counted twice. |
| SkillsReader.StreamingReader.SkipWhitespace | backend/app/api/skills_marketplace.py:297-309 | Skips blanks, Unicode ones included, and loads at most one chunk, stopping at its first character, blank or not. |
| SkillsReader.StreamingReader.DecodeValue | backend/app/api/skills_marketplace.py:311-326 | Decodes at the current place, loading until the decoder succeeds or the file ends. |
| SkillsReader.StreamingReader.ReadArrayValues | backend/app/api/skills_marketplace.py:356-376 | Ends on every finite input with the entries, or the failure, of the chunked reading. |
| SkillsReader.StreamingReader.ConsumeColon | backend/app/api/skills_marketplace.py:328-339 | Finds the colon after a key with up to three skips, or fails. |
| SkillsReader.StreamingReader.ReadMember | backend/app/api/skills_marketplace.py:401-423 | The entries a member adds: those of the array after the bracket, those of a list decoded as one value, or none. |
| SkillsReader.StreamingReader.ReadSkillsFromObject | backend/app/api/skills_marketplace.py:378-431 | Ends on every finite input with the entries, or the failure, of the chunked reading of an object. |
| SkillsReader.StreamingReader.ReadTopLevelEntries | backend/app/api/skills_marketplace.py:341-354 | The same for the whole index, in array or object form. |
| SkillsIndex.DecodeAgrees | backend/app/api/skills_marketplace.py:311-326 | Decoding chunk by chunk finds an object exactly when decoding the whole text at the next solid character does, and the same one. |
| SkillsIndex.ReadingNeverWrong | backend/app/api/skills_marketplace.py:341-376 | However the text is cut, a reading that does not fail is that of the whole text. |
| SkillsIndex.LookStays | backend/app/api/skills_marketplace.py:291-309 | Two skips bring the reader to the next solid character if and only if it is no further than the end of the next chunk. |
| SkillsIndex.DecodeLoads | backend/app/api/skills_marketplace.py:311-326 | Decoding an object ends where the object ends and loads a number of chunks that depends only on where blanks and chunks end. |
| SkillsIndex.CutReadsAsWholeIff | backend/app/api/skills_marketplace.py:297-376 | For every cut of a valid array: it reads as the whole text if and only if every bracket and comma is no further than the end of the next chunk when the reader looks for it. |
| SkillsIndex.WideCutsAgreeIffTight | backend/app/api/skills_marketplace.py:281-376 | For every n: a valid array reads the same under all cuts into chunks of at least n characters, the last aside, if and only if no bracket or comma has more than n blanks before it, the first n characters of the text aside. |
| SkillsIndex.ProgramReadsTightIndex | backend/app/api/skills_marketplace.py:281-289 | Under the program's reads of 16384 characters every valid array tight for that number is read in full. |
| SkillsIndex.BlankChunkIsRefused | backend/app/api/skills_marketplace.py:281-309 | For every n, 16384 included: an empty array with 2n blanks inside, read n characters at a time, is valid and refused. |
| SkillsIndex.ScanIsLawful | backend/app/api/skills_marketplace.py:279 | The laws asked of the decoder can be met: a decoder of objects by their braces, of names and of numbers obeys them. |
| SkillsObject.ScanReadsObjects | backend/app/api/skills_marketplace.py:279 | It also obeys the laws asked for the object form. |
| SkillsObject.IndexNeverWrong | backend/app/api/skills_marketplace.py:341-431 | However an index of either form is cut, a reading that does not fail is that of the whole text. |
| SkillsRoundTrip.ArrayReadsBack | backend/app/api/skills_marketplace.py:356-376 | An array written from any objects is read as those objects, in order. |
| SkillsRoundTrip.SkillsReadBack | backend/app/api/skills_marketplace.py:378-431 | So are the skills of an object. |
| SkillsRoundTrip.OtherMemberIsPassed | backend/app/api/skills_marketplace.py:420-423 | A member of another name is passed over whatever its value is. |
| SkillsRoundTrip.CommaIsOptional | backend/app/api/skills_marketplace.py:425-431 | Between members one comma is passed over and none is needed. |
| SkillsObject.ColonFoundIff | backend/app/api/skills_marketplace.py:328-339 | The colon after a key is found if and only if it is the next solid character and no further than the end of the second chunk to come. |
| SkillsObject.ObjectCutReadsAsWholeIff | backend/app/api/skills_marketplace.py:378-431 | For every cut of a valid index in object form: it reads as the whole text if and only if each brace, comma, colon and bracket is visible in its turn and each number decoded whole; a bracket may be missed when its list decodes as one value that no comma follows. |
| SkillsObject.OtherSkillsThenMore | backend/app/api/skills_marketplace.py:403-418 | A skills member that is no array and is followed by a comma is refused under every cut. |
| SkillsObject.NumberedSkillsIsRefused | backend/app/api/skills_marketplace.py:403-418 | A valid index of that kind which is refused under every cut. |
| SkillsObject.CutNumberIsRefused | backend/app/api/skills_marketplace.py:311-326 | A member number of a valid object that a chunk end cuts short makes the reading fail. |
| SkillsObject.CutTwelveIsRefused | backend/app/api/skills_marketplace.py:281-326 | For every chunk length from six on: a valid index whose number straddles the end of the first chunk, and which is refused. |

## Left out

- Sessions, savepoints, SQL text, asyncio and row locks: a transaction is one step, and a lock is its atomicity.
- One clock value per transaction, where the source may read the clock several times within one.
- SHA-256 of payloads and the JSON snapshots of replies: payloads are compared and replies kept as values; identifiers and timestamps are not formatted.
- Texts: decision reasons of the evaluator are an enumeration; activity messages, notifications, gateway dispatch and comments are not modelled, nor are stored tags and custom fields.
- TaskBoard.TaskTables.UpdateTask: whether the caller has write access and whether tags and custom fields are acceptable are facts given with the request, used where the source checks them.
- TaskBoard.TaskTables.FinalizeUpdatedTask: the source commits the fields before the cascade; the model takes both as one step, and the recent-comment rule is a fact given with the request.
- BoardSafety.DoneIsEarned: linked approvals are facts given with the request.
- Policy rows are given and never edited, as requests pin their policy; activation is part of the model.
- `evaluate_triggers` and the pollers: fetching heads from the repository host, counters, and its per-head error handling.
- Rows created at the same instant may come back in either order from the "latest request" query, and candidates of equal expiry in any order from the reconciliation query: the results hold for each order.
- TriggerSafety.AtMostOnePending: observations are single steps and creation times increase; without these, TriggerSteps.CleanThroughoutIff and TriggerRaces.LateWriteDoublesIff are exact for every interleaving.
- TriggerSafety.PerformPreserves: the same assumptions, step by step; TriggerSteps.NoTwoPendingIff is without them.
- ApprovalService.Store.EvaluateOnePr: lookup and write are one step; ApprovalService.Store.ActOnSight is the write after any others.
- The 512-character column of trigger keys: the observation checks its own key, but the key of a retry, some characters longer, is taken to fit.
- Owner, repository and commit parts of a trigger key contain no bar character, as names on the repository host do not.
- The last reviewing worker of a task is a fact given with the request; the text comparison behind it is not modelled.
- Task creation by a lead through the agent endpoint: it accepts a subset of what creation accepts.
- The dependency rows' order and the de-duplication of the requested list: the rows are a set.
- Redis being unreachable, where the limiter answers yes, and the rounding of floating-point timestamps: times are real numbers. The reference is compared on a clock that does not go back.
- SkillsIndex.ScanIsLawful: the JSON library is a parameter with laws; the decoder shown to obey them is a small one of this project, without lists; the round trips of SkillsRoundTrip are under it.
- SkillsObject.ScanReadsObjects: the same decoder, so the law about lists holds of it because it has none.
- Years past 9999 and negative times: instants are natural numbers, and month arithmetic has no upper bound.
- Averages and rates of the dashboard; only counts are summed.
- Authentication, middleware, schedulers, probes, plain CRUD routes and the frontend.
- The mission assignment, reconciliation and authorization tables: short case lists whose counterparts are elsewhere.
