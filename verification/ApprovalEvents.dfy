/** What lifecycle events say: in every state that runs reach, each event names who did what
    and when, what the votes and the policy make of it, and whether the mission is blocked. */
module ApprovalEvents {
  import opened Policy
  import opened Evaluator
  import opened Text
  import opened ApprovalStore
  import opened ApprovalEffects
  import opened ApprovalInvariants
  import opened RetryChain
  import opened ApprovalRuns

  // ---------------------------------------------------------------- what an event must say

  /** Some retry continues request `id`. */
  ghost predicate HasRetry(requests: seq<Request>, id: nat) {
    exists j | 0 <= j < |requests| :: requests[j].autoRetryCount > 0 && requests[j].supersedes == Some(id)
  }

  /** The last decision on a request is the voter's. */
  ghost predicate LastVoteBy(decisions: seq<Decision>, id: nat, voter: nat) {
    exists k | 0 <= k < |decisions| ::
      && decisions[k].requestId == id && decisions[k].principal == voter
      && forall j | k < j < |decisions| :: decisions[j].requestId != id
  }

  /** A verdict is told with the quorum the votes have, with the effect the policy names for a
      rejection, and as brought about by the last voter. */
  ghost predicate TellsVerdict(db: Db, id: nat, verdict: Verdict, e: Event)
    requires ForeignKeys(db) && PoliciesUsed(db) && id < |db.requests|
  {
    var policy, votes := DefinitionOf(db, id), CurrentVotes(db, id);
    && e.detail.Decided?
    && (e.detail.quorumSatisfied <==> HasAssignment(policy, votes))
    && (e.detail.effect == Some(Blocked) <==> verdict == Rejected && policy.rejectionBehavior == BlockMission)
    && (e.detail.effect == Some(Unchanged) <==>
          verdict == Rejected && policy.rejectionBehavior == LeaveMissionUnchanged)
    && e.detail.why == Evaluate(policy, votes).reason
    && e.actor.Some? && LastVoteBy(db.decisions, id, e.actor.value)
  }

  /** An expiry is nobody's act, comes when it is due, blocks the mission exactly under the
      blocking behaviour, and under the recreating one says why there is no retry, or there is
      one. */
  ghost predicate TellsExpiry(db: Db, id: nat, e: Event)
    requires ForeignKeys(db) && PoliciesUsed(db) && id < |db.requests|
  {
    var r, policy := db.requests[id], DefinitionOf(db, id);
    var recreates := policy.expiration.behavior == Recreate;
    && e.actor.None? && e.detail.ExpirationDetail?
    && r.expiresAt.Some? && r.expiresAt.value <= e.at
    && (e.detail.missionBlocked <==> policy.expiration.behavior == BlockOnExpiry)
    && (e.detail.retriesExhausted <==> recreates && r.autoRetryCount >= policy.expiration.maxAutoRetries.value)
    && (e.detail.nonPositiveTtl <==>
        recreates && r.autoRetryCount < policy.expiration.maxAutoRetries.value && r.expiresAt.value <= r.createdAt)
    && (HasRetry(db.requests, id) <==> recreates && !e.detail.retriesExhausted && !e.detail.nonPositiveTtl)
  }

  ghost predicate Tells(db: Db, e: Event)
    requires ForeignKeys(db) && PoliciesUsed(db)
  {
    e.requestId < |db.requests| &&
    var id, r := e.requestId, db.requests[e.requestId];
    match e.kind
    case QuorumReached => false
    case RequestCreated =>
      && e.actor == Some(r.createdBy) && e.at == r.createdAt
      && (r.triggerKey.None? ==> e.detail == NoDetail)
      && (r.triggerKey.Some? ==> e.detail == CreatedByTrigger(r.triggerKey.value))
    case RequestResolved(status) =>
      && status != PENDING && r.status == status && r.resolvedAt == Some(e.at)
      && match status
         case Evaluated(verdict) => TellsVerdict(db, id, verdict, e)
         case Expired => TellsExpiry(db, id, e)
         case Superseded => e.actor.Some? && e.detail.NewerTrigger? && KeyTaken(db.requests, e.detail.key)
  }

  ghost predicate EventsTell(db: Db)
    requires ForeignKeys(db) && PoliciesUsed(db)
  {
    forall k | 0 <= k < |db.events| :: Tells(db, db.events[k])
  }

  // ---------------------------------------------------------------- what was told stays true

  lemma StillRetried(db: Db, effect: Effect, after: Db, id: nat)
    requires ForeignKeys(db) && Legal(db, effect) && Results(db, effect, after)
    requires id < |db.requests| && db.requests[id].status != PENDING
    ensures HasRetry(after.requests, id) <==> HasRetry(db.requests, id)
  {
    hide LogOf, LogGain, EvaluationAfter, HasVoted, KeyTaken, DefinitionOf, NextRecreateTriggerKey, RetriesLeft,
         IsRequestFor;
    forall i | 0 <= i < |db.requests|
      ensures after.requests[i].autoRetryCount == db.requests[i].autoRetryCount
      ensures after.requests[i].supersedes == db.requests[i].supersedes
    {
    }
    if HasRetry(db.requests, id) {
      var j :| 0 <= j < |db.requests| && db.requests[j].autoRetryCount > 0 && db.requests[j].supersedes == Some(id);
      assert after.requests[j].supersedes == Some(id);
    }
  }

  lemma StillVotedLast(decisions: seq<Decision>, d: Decision, id: nat, voter: nat)
    requires LastVoteBy(decisions, id, voter) && d.requestId != id
    ensures LastVoteBy(decisions + [d], id, voter)
  {
    var k :| 0 <= k < |decisions| && decisions[k].requestId == id && decisions[k].principal == voter
             && forall j | k < j < |decisions| :: decisions[j].requestId != id;
    assert (decisions + [d])[k] == decisions[k];
  }

  lemma ClosedVotesStay(db: Db, effect: Effect, after: Db, id: nat)
    requires ForeignKeys(db) && Legal(db, effect) && Results(db, effect, after)
    requires id < |db.requests| && db.requests[id].status != PENDING
    ensures CurrentVotes(after, id) == CurrentVotes(db, id)
    ensures forall voter | LastVoteBy(db.decisions, id, voter) :: LastVoteBy(after.decisions, id, voter)
  {
    hide LogOf, LogGain, EvaluationAfter, HasVoted, KeyTaken, EffectiveDecisions, VotesOf, LastVoteBy, RetryOf,
         FirstOfChain;
    if effect.Voted? || effect.VotedAndEnded? {
      OtherRequestVotes(db, effect.decision, id);
      forall voter | LastVoteBy(db.decisions, id, voter) ensures LastVoteBy(after.decisions, id, voter) {
        StillVotedLast(db.decisions, effect.decision, id, voter);
      }
    }
  }

  lemma StillTaken(a: seq<Request>, b: seq<Request>, key: string)
    requires |a| <= |b| && forall i | 0 <= i < |a| :: b[i].triggerKey == a[i].triggerKey
    ensures KeyTaken(a, key) ==> KeyTaken(b, key)
  {
  }

  lemma StillTells(db: Db, command: Command, e: Event)
    requires Safe(db) && Safe(Apply(db, command)) && Tells(db, e)
    ensures Tells(Apply(db, command), e)
  {
    hide Apply, Legal, Results, Lifecycles, Chained, VerdictsAgree, RetryChains, KeysNameTargets, CurrentVotes, LogOf,
         HasAssignment, LastVoteBy, HasRetry, KeyTaken, Evaluate;
    var after := Apply(db, command);
    var effect := CommandEffect(db, command);
    StepIsLater(db, command);
    var id := e.requestId;
    assert RowLater(db.requests[id], after.requests[id]);
    if db.requests[id].status != PENDING {
      StillRetried(db, effect, after, id);
      ClosedVotesStay(db, effect, after, id);
    }
    if e.detail.NewerTrigger? {
      forall i | 0 <= i < |db.requests| ensures after.requests[i].triggerKey == db.requests[i].triggerKey {
        assert RowLater(db.requests[i], after.requests[i]);
      }
      StillTaken(db.requests, after.requests, e.detail.key);
    }
  }

  // ---------------------------------------------------------------- what each transaction tells

  lemma CreationTells(db: Db, now: Time, p: Principal, policyKey: string, target: Target, expiresAt: Option<Time>,
                      key: string)
    returns (more: seq<Event>)
    requires Safe(db)
    ensures var after := CreateApprovalRequest(db, now, p, policyKey, target, expiresAt, key).0;
            && Safe(after) && after.events == db.events + more && forall e | e in more :: Tells(after, e)
  {
    hide Lifecycles, Chained, VerdictsAgree, RetryChains, KeysNameTargets, LoadActivePolicy;
    SafeStep(db, Create(now, p, policyKey, target, expiresAt, key));
    var after := CreateApprovalRequest(db, now, p, policyKey, target, expiresAt, key).0;
    more := after.events[|db.events|..];
  }

  lemma VerdictIsTold(db: Db, d: Decision, e: Event)
    requires Safe(db) && d.requestId < |db.requests| && |db.decisions| > 0 && db.decisions[|db.decisions| - 1] == d
    requires var ev := Evaluate(DefinitionOf(db, d.requestId), CurrentVotes(db, d.requestId));
             && ev.status != Pending && e.actor == Some(d.principal)
             && e.detail == Decided(ev.quorumSatisfied, ev.missionEffect, ev.reason)
    ensures var ev := Evaluate(DefinitionOf(db, d.requestId), CurrentVotes(db, d.requestId));
            TellsVerdict(db, d.requestId, ev.status, e)
  {
    hide Evaluate, HasAssignment, CurrentVotes, Lifecycles, Chained, VerdictsAgree, RetryChains, KeysNameTargets;
    var policy, votes := DefinitionOf(db, d.requestId), CurrentVotes(db, d.requestId);
    assert policy.Valid();
    QuorumIsAnAssignment(policy, votes);
    EffectMeaning(policy, votes);
    var last := |db.decisions| - 1;
    assert db.decisions[last].requestId == d.requestId;
  }

  lemma FinalizingTells(db: Db, reserved: Db, now: Time, d: Decision, operations: map<OpKey, Operation>)
    returns (more: seq<Event>)
    requires Safe(db) && Castable(db, d) && reserved == db.(operations := reserved.operations)
    ensures var after := FinalizeDecision(reserved, now, DefinitionOf(db, d.requestId), d).0.(operations := operations);
            Safe(after) && after.events == db.events + more && forall e | e in more :: Tells(after, e)
  {
    hide Evaluate, HasAssignment, EffectiveDecisions, VotesOf, Lifecycles, Chained, VerdictsAgree, RetryChains,
         KeysNameTargets, TellsVerdict, Legal, Results;
    var effect := FinalizeEffect(db, reserved, now, d);
    var settled := FinalizeDecision(reserved, now, DefinitionOf(db, d.requestId), d).0;
    var after := settled.(operations := operations);
    OperationsDoNotMatter(db, effect, settled, operations);
    SafeEffect(db, effect, after);
    more := after.events[|db.events|..];
    assert CurrentVotes(after, d.requestId) == CurrentVotes(AddDecision(reserved, d), d.requestId);
    var ev := Evaluate(DefinitionOf(db, d.requestId), CurrentVotes(after, d.requestId));
    if ev.status == Pending {
      PendingMeansNoQuorum(DefinitionOf(db, d.requestId), CurrentVotes(after, d.requestId));
      assert more == [];
    } else {
      assert DefinitionOf(after, d.requestId) == DefinitionOf(db, d.requestId);
      VerdictIsTold(after, d, after.events[|db.events|]);
    }
  }

  lemma OperationsDoNotMatter(db: Db, effect: Effect, after: Db, operations: map<OpKey, Operation>)
    requires Results(db, effect, after)
    ensures Results(db, effect, after.(operations := operations))
  {
  }

  lemma NothingMore(db: Db)
    requires Safe(db)
    ensures db.events == db.events + []
  {
  }

  lemma SubmissionTells(db: Db, now: Time, p: Principal, id: nat, vote: Vote, reason: Option<string>, key: string)
    returns (more: seq<Event>)
    requires Safe(db)
    ensures var after := SubmitDecision(db, now, p, id, vote, reason, key).0;
            Safe(after) && after.events == db.events + more && forall e | e in more :: Tells(after, e)
  {
    hide FinalizeDecision, Safe, Tells, HasVoted, AuthorizeDecision;
    FromSafe(db);
    SafeStep(db, Submit(now, p, id, vote, reason, key));
    var (after, outcome) := SubmitDecision(db, now, p, id, vote, reason, key);
    more := [];
    if outcome.Ok? && OpKey(key, p.id, SubmitScope) !in db.operations {
      var d := Decision(id, p.id, vote, reason, p.roles, p.trust, now, None);
      var reserved :=
        SetOperation(db, OpKey(key, p.id, SubmitScope), Operation(SubmitPayload(id, vote, reason), NotYet));
      more := FinalizingTells(db, reserved, now, d, after.operations);
    }
  }

  lemma SupersessionTells(db: Db, now: Time, p: Principal, id: nat, decisionId: nat, vote: Vote,
                          reason: Option<string>, key: string)
    returns (more: seq<Event>)
    requires Safe(db)
    ensures var after := SupersedeDecision(db, now, p, id, decisionId, vote, reason, key).0;
            Safe(after) && after.events == db.events + more && forall e | e in more :: Tells(after, e)
  {
    hide FinalizeDecision, Safe, Tells, AuthorizeDecision;
    FromSafe(db);
    SafeStep(db, Supersede(now, p, id, decisionId, vote, reason, key));
    var (after, outcome) := SupersedeDecision(db, now, p, id, decisionId, vote, reason, key);
    more := [];
    if outcome.Ok? && OpKey(key, p.id, SupersedeScope) !in db.operations {
      var d := Decision(id, p.id, vote, reason, p.roles, p.trust, now, Some(decisionId));
      var payload := SupersedePayload(id, decisionId, vote, reason);
      var reserved := SetOperation(db, OpKey(key, p.id, SupersedeScope), Operation(payload, NotYet));
      more := FinalizingTells(db, reserved, now, d, after.operations);
    }
  }

  /** The row and the flags of an expired request agree once it has a retry exactly when the
      policy allows one. */
  lemma ExpiryIsTold(db: Db, id: nat, e: Event)
    requires ForeignKeys(db) && PoliciesUsed(db) && id < |db.requests| && db.requests[id].status == Expired
    requires db.requests[id].resolvedAt == Some(e.at) && e.actor.None?
    requires e.requestId == id && e.kind == RequestResolved(Expired)
    requires db.requests[id].expiresAt.Some? && db.requests[id].expiresAt.value <= e.at
    requires DefinitionOf(db, id).Valid() && e.detail == DetailOfExpiration(db.requests[id], DefinitionOf(db, id))
    requires HasRetry(db.requests, id) <==>
             RetriesLeft(db.requests[id], DefinitionOf(db, id)) && Ttl(db.requests[id]) > 0
    ensures Tells(db, e)
  {
    hide HasRetry;
  }

  /** What a recheck that expires its request does to requests and events. */
  lemma ExpiryEvents(db: Db, now: Time, p: Principal, id: nat)
    requires Safe(db) && id < |db.requests| && Overdue(db.requests[id], now) && ReconcileOne(db, now, p, id).1.Ok?
    ensures ForeignKeys(db) && PoliciesUsed(db) && DefinitionOf(db, id).Valid()
    ensures var after, n := ReconcileOne(db, now, p, id).0, |db.requests|;
            var r := db.requests[id];
            var told := Event(id, RequestResolved(Expired), None, DetailOfExpiration(r, DefinitionOf(db, id)), now);
            && |after.requests| >= n && after.requests[..n] == db.requests[id := Close(r, Expired, now)]
            && after.policies == db.policies
            && if RetriesLeft(r, DefinitionOf(db, id)) && Ttl(r) > 0 then
                 && |after.requests| == n + 1 && after.requests[n].autoRetryCount > 0
                 && after.requests[n].supersedes == Some(id) && after.requests[n].triggerKey.Some?
                 && after.events == db.events + [CreationOf(after.requests[n], n)] + [told]
               else |after.requests| == n && after.events == db.events + [told]
  {
    hide Lifecycles, Chained, VerdictsAgree, KeysNameTargets, NextRecreateTriggerKey, KeyTaken, DetailOfExpiration;
    RetryKeyIsFree(db, id);
    SameKeys(db.requests, id, Expired, now, NextRecreateTriggerKey(db.requests[id], id));
  }

  /** The creation event of a request made by the system. */
  function CreationOf(r: Request, id: nat): Event
    requires r.triggerKey.Some?
  {
    Event(id, RequestCreated, Some(r.createdBy), CreatedByTrigger(r.triggerKey.value), r.createdAt)
  }

  lemma ReconciliationTells(db: Db, now: Time, p: Principal, id: nat) returns (more: seq<Event>)
    requires Safe(db)
    ensures var after := ReconcileOne(db, now, p, id).0;
            Safe(after) && after.events == db.events + more && forall e | e in more :: Tells(after, e)
  {
    hide Safe, ReconcileOne, TellsVerdict, TellsExpiry, HasRetry, RetriesLeft, DetailOfExpiration;
    FromSafe(db);
    SafeStep(db, Reconcile(now, p, id));
    var (after, outcome) := ReconcileOne(db, now, p, id);
    more := [];
    if id < |db.requests| && Overdue(db.requests[id], now) && outcome.Ok? {
      ExpiryEvents(db, now, p, id);
      NoRetryBefore(db, id);
      var n, r := |db.requests|, after.requests[id];
      assert r == after.requests[..n][id] == Close(db.requests[id], Expired, now);
      RowsBelow(db, after, now, id);
      RetryOrNot(db.requests, after.requests, id);
      TellingIsDefined(after);
      SameDetail(db.requests[id], r, DefinitionOf(db, id));
      var told := Event(id, RequestResolved(Expired), None, DetailOfExpiration(r, DefinitionOf(db, id)), now);
      assert DefinitionOf(after, id) == DefinitionOf(db, id);
      ExpiryIsTold(after, id, told);
      more := if |after.requests| > n then [CreationOf(after.requests[n], n)] + [told] else [told];
    } else {
      Untouched(db, now, p, id);
    }
  }

  lemma Untouched(db: Db, now: Time, p: Principal, id: nat)
    requires ForeignKeys(db)
    requires !(id < |db.requests| && Overdue(db.requests[id], now)) || ReconcileOne(db, now, p, id).1.Err?
    ensures ReconcileOne(db, now, p, id).0 == db
  {
    hide NextRecreateTriggerKey, KeyTaken, DetailOfExpiration;
  }

  lemma RowsBelow(db: Db, after: Db, now: Time, id: nat)
    requires id < |db.requests| <= |after.requests|
    requires after.requests[..|db.requests|] == db.requests[id := Close(db.requests[id], Expired, now)]
    ensures forall i | 0 <= i < |db.requests| ::
              after.requests[i].autoRetryCount == db.requests[i].autoRetryCount
              && after.requests[i].supersedes == db.requests[i].supersedes
  {
    forall i | 0 <= i < |db.requests|
      ensures after.requests[i].autoRetryCount == db.requests[i].autoRetryCount
      ensures after.requests[i].supersedes == db.requests[i].supersedes
    {
      assert after.requests[i] == after.requests[..|db.requests|][i];
    }
  }

  lemma SameDetail(r: Request, s: Request, definition: PolicyDefinition)
    requires definition.Valid() && r.expiresAt.Some? && s.resolvedAt.Some?
    requires s == Close(r, s.status, s.resolvedAt.value)
    ensures DetailOfExpiration(s, definition) == DetailOfExpiration(r, definition)
    ensures RetriesLeft(s, definition) <==> RetriesLeft(r, definition)
    ensures Ttl(s) == Ttl(r)
  {
  }

  lemma NoRetryBefore(db: Db, id: nat)
    requires Safe(db) && IsOpen(db, id)
    ensures !HasRetry(db.requests, id)
  {
    hide Lifecycles, Chained, VerdictsAgree, KeysNameTargets, PoliciesUsed, HasRetry;
    NoRetryYet(db, id);
  }

  lemma NoRetryYet(db: Db, id: nat)
    requires ForeignKeys(db) && RetryChains(db) && IsOpen(db, id)
    ensures !HasRetry(db.requests, id)
  {
    hide KeyShape, KeyBase, UniqueKeys;
    forall j | 0 <= j < |db.requests| && db.requests[j].autoRetryCount > 0
      ensures db.requests[j].supersedes != Some(id)
    {
      assert Linked(db, j);
    }
  }

  lemma RetryOrNot(a: seq<Request>, b: seq<Request>, id: nat)
    requires !HasRetry(a, id) && |a| <= |b| <= |a| + 1
    requires forall i | 0 <= i < |a| ::
               b[i].autoRetryCount == a[i].autoRetryCount && b[i].supersedes == a[i].supersedes
    ensures HasRetry(b, id) <==> |b| > |a| && b[|a|].autoRetryCount > 0 && b[|a|].supersedes == Some(id)
  {
  }

  lemma HeadInsertTells(db: Db, now: Time, p: Principal, policyId: nat, ttl: int, head: Head, supersedes: Option<nat>,
                        predecessor: Option<nat>)
    returns (more: seq<Event>)
    requires Safe(db) && policyId in db.policies && (predecessor.Some? ==> IsOpen(db, predecessor.value))
    requires var after := CreateSystemRequest(db, now, p, policyId, TriggerTarget(head), Some(now + ttl),
                                              MissionKey(head), supersedes, predecessor, 0).0;
             Safe(after)
    ensures var after := CreateSystemRequest(db, now, p, policyId, TriggerTarget(head), Some(now + ttl),
                                             MissionKey(head), supersedes, predecessor, 0).0;
            after.events == db.events + more && forall e | e in more :: Tells(after, e)
  {
    hide Lifecycles, Chained, VerdictsAgree, RetryChains, KeysNameTargets, MissionKey, TriggerTarget, TellsVerdict,
         TellsExpiry;
    var after := CreateSystemRequest(db, now, p, policyId, TriggerTarget(head), Some(now + ttl), MissionKey(head),
                                     supersedes, predecessor, 0).0;
    more := after.events[|db.events|..];
    var n := |db.requests|;
    if |after.requests| > n {
      assert after.requests[n].triggerKey == Some(MissionKey(head));
    }
  }

  lemma CommandTells(db: Db, command: Command) returns (more: seq<Event>)
    requires Safe(db)
    ensures var after := Apply(db, command);
            Safe(after) && after.events == db.events + more && forall e | e in more :: Tells(after, e)
  {
    hide Safe, Tells, CreateApprovalRequest, SubmitDecision, SupersedeDecision, ReconcileOne, CreateSystemRequest,
         MissionKey, TriggerTarget;
    FromSafe(db);
    SafeStep(db, command);
    more := [];
    match command
    case Create(now, p, policyKey, target, expiresAt, key) =>
      more := CreationTells(db, now, p, policyKey, target, expiresAt, key);
    case Submit(now, p, id, vote, reason, key) => more := SubmissionTells(db, now, p, id, vote, reason, key);
    case Supersede(now, p, id, decisionId, vote, reason, key) =>
      more := SupersessionTells(db, now, p, id, decisionId, vote, reason, key);
    case Reconcile(now, p, id) => more := ReconciliationTells(db, now, p, id);
    case Trigger(now, p, ttl, head, supersedes) =>
      var policyId := LoadActivePolicy(db, TriggerPolicyKey());
      if policyId.Ok? { more := HeadInsertTells(db, now, p, policyId.value, ttl, head, supersedes, None); }
    case NewHead(now, p, ttl, head, predecessor) =>
      var policyId := LoadActivePolicy(db, TriggerPolicyKey());
      if policyId.Ok? && IsOpen(db, predecessor) {
        more := HeadInsertTells(db, now, p, policyId.value, ttl, head, Some(predecessor), Some(predecessor));
      }
    case Activate(_, _) =>
  }

  lemma TellingIsDefined(db: Db)
    requires Safe(db)
    ensures ForeignKeys(db) && PoliciesUsed(db)
  {
  }

  lemma EventsTellStep(db: Db, command: Command)
    requires Safe(db) && EventsTell(db)
    ensures Safe(Apply(db, command)) && EventsTell(Apply(db, command))
  {
    hide Safe, Tells, Apply;
    FromSafe(db);
    var more := CommandTells(db, command);
    var after := Apply(db, command);
    TellingIsDefined(after);
    forall k | 0 <= k < |after.events| ensures Tells(after, after.events[k]) {
      if k < |db.events| {
        StillTells(db, command, db.events[k]);
      } else {
        assert after.events[k] == more[k - |db.events|];
      }
    }
  }

  lemma {:induction false} EventsTellOverRuns(db: Db, commands: seq<Command>)
    requires Safe(db) && EventsTell(db)
    ensures Safe(Run(db, commands)) && EventsTell(Run(db, commands))
    decreases |commands|
  {
    hide Safe, Tells, Apply, ForeignKeys;
    if commands != [] {
      FromSafe(db);
      EventsTellStep(db, commands[0]);
      EventsTellOverRuns(Apply(db, commands[0]), commands[1..]);
    }
  }

  /** After any run from empty tables every event tells the truth. */
  lemma EveryEventTells(policies: map<nat, PolicyRow>, commands: seq<Command>, k: nat)
    requires k < |Run(EmptyDb(policies), commands).events|
    ensures var db := Run(EmptyDb(policies), commands); Safe(db) && Tells(db, db.events[k])
  {
    hide Safe, Tells, Run;
    EmptyIsSafe(policies);
    TellingIsDefined(EmptyDb(policies));
    EventsTellOverRuns(EmptyDb(policies), commands);
  }
}