/** What accepted commands of people record, and exactly when and why commands are refused. */
module ApprovalRecords {
  import opened Policy
  import opened Evaluator
  import opened ApprovalStore
  import opened ApprovalEffects
  import opened ApprovalInvariants
  import opened RetryChain
  import opened ApprovalRuns

  // ---------------------------------------------------------------- one more decision

  lemma VotesAppend(decisions: seq<Decision>, ids: seq<nat>, x: nat)
    requires x < |decisions| && forall k | k in ids :: k < |decisions|
    ensures forall k | k in ids + [x] :: k < |decisions|
    ensures VotesOf(decisions, ids + [x]) == VotesOf(decisions, ids) + [AsVote(decisions[x])]
  {
    forall k | k in ids + [x] ensures k < |decisions| {
    }
  }

  /** The votes of a request among the first `n` decisions. */
  function VotesUnder(decisions: seq<Decision>, id: nat, n: nat): seq<EffectiveDecision>
    requires n <= |decisions|
  {
    if n == 0 then []
    else VotesUnder(decisions, id, n - 1) + if IsEffective(decisions, id, n - 1) then [AsVote(decisions[n - 1])] else []
  }

  lemma {:induction false} VotesAreUnder(decisions: seq<Decision>, id: nat, n: nat)
    requires n <= |decisions|
    ensures VotesOf(decisions, EffectiveBelow(decisions, id, n)) == VotesUnder(decisions, id, n)
  {
    hide IsSuperseded, VotesOf;
    if n > 0 {
      VotesAreUnder(decisions, id, n - 1);
      VotesAppend(decisions, EffectiveBelow(decisions, id, n - 1), n - 1);
    } else {
      NoVotes(decisions);
    }
  }

  lemma NoVotes(decisions: seq<Decision>)
    ensures VotesOf(decisions, []) == []
  {
  }

  lemma SupersededBySome(decisions: seq<Decision>, d: Decision, id: nat, k: nat)
    ensures IsSuperseded(decisions + [d], id, k) <==>
            IsSuperseded(decisions, id, k) || (d.requestId == id && d.supersedes == Some(k))
  {
    var longer := decisions + [d];
    assert longer[|decisions|] == d;
    assert forall j | 0 <= j < |decisions| :: longer[j] == decisions[j];
  }

  /** A new decision takes away the vote it supersedes, and no other. */
  lemma {:induction false} VotesBelow(decisions: seq<Decision>, d: Decision, n: nat)
    requires n <= |decisions|
    requires d.supersedes.Some? ==> IsEffective(decisions, d.requestId, d.supersedes.value)
    ensures var id, longer := d.requestId, decisions + [d];
            if d.supersedes.Some? && d.supersedes.value < n then
              multiset(VotesUnder(longer, id, n)) + multiset{AsVote(decisions[d.supersedes.value])}
              == multiset(VotesUnder(decisions, id, n))
            else VotesUnder(longer, id, n) == VotesUnder(decisions, id, n)
  {
    hide IsSuperseded, AsVote;
    if n > 0 {
      VotesBelow(decisions, d, n - 1);
      SupersededBySome(decisions, d, d.requestId, n - 1);
    }
  }

  lemma PointsBack(decisions: seq<Decision>)
    requires Chained(decisions)
    ensures forall j | 0 <= j < |decisions| && decisions[j].supersedes.Some? ::
              decisions[j].supersedes.value < |decisions|
  {
  }

  /** A decision added to the tables is effective and takes the place of the one it
      supersedes, if any. */
  lemma VotesAfter(db: Db, d: Decision)
    requires Chained(db.decisions)
    requires d.supersedes.Some? ==> IsEffective(db.decisions, d.requestId, d.supersedes.value)
    ensures var before, votes := CurrentVotes(db, d.requestId), CurrentVotes(AddDecision(db, d), d.requestId);
            match d.supersedes
            case None => votes == before + [AsVote(d)]
            case Some(k) =>
              multiset(votes) == multiset(before) - multiset{AsVote(db.decisions[k])} + multiset{AsVote(d)}
  {
    hide IsSuperseded, Chained, AsVote, VotesOf;
    var decisions, id := db.decisions, d.requestId;
    var longer, n := decisions + [d], |decisions|;
    VotesBelow(decisions, d, n);
    PointsBack(decisions);
    NotYetSuperseded(decisions, d, n);
    VotesAreUnder(decisions, id, n);
    VotesAreUnder(longer, id, n + 1);
    assert VotesUnder(longer, id, n + 1) == VotesUnder(longer, id, n) + [AsVote(d)];
  }

  lemma NotYetSuperseded(decisions: seq<Decision>, d: Decision, n: nat)
    requires n == |decisions| && (d.supersedes.Some? ==> d.supersedes.value < n)
    requires forall j | 0 <= j < n && decisions[j].supersedes.Some? :: decisions[j].supersedes.value < n
    ensures !IsSuperseded(decisions + [d], d.requestId, n)
  {
  }

  // ---------------------------------------------------------------- what an accepted vote records

  /** The vote is stored as it was cast, by the caller with the caller's roles and trust, and
      the reply reports it with the status the request now has. */
  ghost predicate VoteRecorded(db: Db, after: Db, reply: Reply, now: Time, p: Principal, id: nat, vote: Vote,
                               reason: Option<string>, supersedes: Option<nat>)
    requires ForeignKeys(after) && id < |after.requests|
  {
    var policy, votes := DefinitionOf(after, id), CurrentVotes(after, id);
    && after.decisions == db.decisions + [Decision(id, p.id, vote, reason, p.roles, p.trust, now, supersedes)]
    && reply.DecisionReply?
    && reply.requestId == id && reply.decisionId == |db.decisions| && reply.principal == p.id
    && reply.vote == vote && reply.reason == reason && reply.createdAt == now
    && reply.status == after.requests[id].status
    && (reply.quorumSatisfied <==> HasAssignment(policy, votes))
    && (reply.effect == Some(Blocked) <==>
          reply.status == Evaluated(Rejected) && policy.rejectionBehavior == BlockMission)
    && (reply.effect == Some(Unchanged) <==>
          reply.status == Evaluated(Rejected) && policy.rejectionBehavior == LeaveMissionUnchanged)
  }

  lemma FinalizedRecords(db: Db, reserved: Db, now: Time, d: Decision)
    requires Safe(db) && Castable(db, d) && reserved == db.(operations := reserved.operations)
    ensures var (after, reply) := FinalizeDecision(reserved, now, DefinitionOf(db, d.requestId), d);
            var policy, votes := DefinitionOf(db, d.requestId), CurrentVotes(AddDecision(db, d), d.requestId);
            && after.decisions == db.decisions + [d] && |after.requests| == |db.requests|
            && after.requests[d.requestId].policyId == db.requests[d.requestId].policyId
            && after.policies == db.policies
            && reply.DecisionReply?
            && reply.requestId == d.requestId && reply.decisionId == |db.decisions| && reply.principal == d.principal
            && reply.vote == d.vote && reply.reason == d.reason && reply.createdAt == now
            && reply.status == after.requests[d.requestId].status == Evaluated(Evaluate(policy, votes).status)
            && reply.quorumSatisfied == Evaluate(policy, votes).quorumSatisfied
            && reply.effect == Evaluate(policy, votes).missionEffect
  {
    hide Evaluate, EffectiveDecisions, VotesOf, Lifecycles, Chained, VerdictsAgree, RetryChains, KeysNameTargets;
    assert CurrentVotes(AddDecision(db, d), d.requestId) == CurrentVotes(AddDecision(reserved, d), d.requestId);
  }

  lemma ReplyMeans(db: Db, after: Db, reply: Reply, d: Decision)
    requires Safe(after) && d.requestId < |after.requests| && reply.DecisionReply?
    requires after.decisions == db.decisions + [d]
    requires var policy, votes := DefinitionOf(after, d.requestId), CurrentVotes(AddDecision(db, d), d.requestId);
             && reply.status == Evaluated(Evaluate(policy, votes).status)
             && reply.quorumSatisfied == Evaluate(policy, votes).quorumSatisfied
             && reply.effect == Evaluate(policy, votes).missionEffect
    ensures var policy, votes := DefinitionOf(after, d.requestId), CurrentVotes(after, d.requestId);
            && (reply.quorumSatisfied <==> HasAssignment(policy, votes))
            && (reply.effect == Some(Blocked) <==>
                  reply.status == Evaluated(Rejected) && policy.rejectionBehavior == BlockMission)
            && (reply.effect == Some(Unchanged) <==>
                  reply.status == Evaluated(Rejected) && policy.rejectionBehavior == LeaveMissionUnchanged)
  {
    hide Evaluate, HasAssignment, EffectiveDecisions, VotesOf, Lifecycles, Chained, VerdictsAgree, RetryChains,
         KeysNameTargets;
    var policy, votes := DefinitionOf(after, d.requestId), CurrentVotes(after, d.requestId);
    assert policy.Valid();
    assert votes == CurrentVotes(AddDecision(db, d), d.requestId);
    QuorumIsAnAssignment(policy, votes);
    EffectMeaning(policy, votes);
  }

  /** The votes of a request count `vote` of the caller besides those counted before. */
  lemma SubmissionRecorded(db: Db, now: Time, p: Principal, id: nat, vote: Vote, reason: Option<string>, key: string)
    requires Safe(db) && OpKey(key, p.id, SubmitScope) !in db.operations
    requires ForeignKeys(db) && SubmitDecision(db, now, p, id, vote, reason, key).1.Ok?
    ensures var (after, outcome) := SubmitDecision(db, now, p, id, vote, reason, key);
            && Safe(after) && id < |after.requests| == |db.requests|
            && VoteRecorded(db, after, outcome.value, now, p, id, vote, reason, None)
            && CurrentVotes(after, id) == CurrentVotes(db, id) + [EffectiveDecision(p.id, vote, p.roles, p.trust)]
            && forall other | other != id :: CurrentVotes(after, other) == CurrentVotes(db, other)
  {
    hide FinalizeDecision, Safe, HasAssignment, EffectiveDecisions, VotesOf, HasVoted;
    SafeStep(db, Submit(now, p, id, vote, reason, key));
    var d := Decision(id, p.id, vote, reason, p.roles, p.trust, now, None);
    var reserved := SetOperation(db, OpKey(key, p.id, SubmitScope), Operation(SubmitPayload(id, vote, reason), NotYet));
    FinalizedRecords(db, reserved, now, d);
    var (after, outcome) := SubmitDecision(db, now, p, id, vote, reason, key);
    FromSafe(after);
    ReplyMeans(db, after, outcome.value, d);
    ChainedFromSafe(db);
    VotesAfter(db, d);
    forall other | other != id ensures CurrentVotes(after, other) == CurrentVotes(db, other) {
      OtherRequestVotes(db, d, other);
    }
  }

  lemma ChainedFromSafe(db: Db)
    requires Safe(db)
    ensures Chained(db.decisions)
  {
  }

  /** The votes of a request count `vote` of the caller in place of the one superseded. */
  lemma SupersessionRecorded(db: Db, now: Time, p: Principal, id: nat, decisionId: nat, vote: Vote,
                             reason: Option<string>, key: string)
    requires Safe(db) && OpKey(key, p.id, SupersedeScope) !in db.operations
    requires ForeignKeys(db) && SupersedeDecision(db, now, p, id, decisionId, vote, reason, key).1.Ok?
    ensures var (after, outcome) := SupersedeDecision(db, now, p, id, decisionId, vote, reason, key);
            && Safe(after) && id < |after.requests| == |db.requests| && decisionId < |db.decisions|
            && VoteRecorded(db, after, outcome.value, now, p, id, vote, reason, Some(decisionId))
            && multiset(CurrentVotes(after, id))
               == multiset(CurrentVotes(db, id)) - multiset{AsVote(db.decisions[decisionId])}
                  + multiset{EffectiveDecision(p.id, vote, p.roles, p.trust)}
            && forall other | other != id :: CurrentVotes(after, other) == CurrentVotes(db, other)
  {
    hide FinalizeDecision, Safe, HasAssignment, VotesOf, HasVoted;
    SafeStep(db, Supersede(now, p, id, decisionId, vote, reason, key));
    var d := Decision(id, p.id, vote, reason, p.roles, p.trust, now, Some(decisionId));
    var payload := SupersedePayload(id, decisionId, vote, reason);
    var reserved := SetOperation(db, OpKey(key, p.id, SupersedeScope), Operation(payload, NotYet));
    FinalizedRecords(db, reserved, now, d);
    var (after, outcome) := SupersedeDecision(db, now, p, id, decisionId, vote, reason, key);
    FromSafe(after);
    ReplyMeans(db, after, outcome.value, d);
    ChainedFromSafe(db);
    VotesAfter(db, d);
    forall other | other != id ensures CurrentVotes(after, other) == CurrentVotes(db, other) {
      OtherRequestVotes(db, d, other);
    }
  }

  /** An accepted approval adds no missing name, fills at most one more slot and never loses a
      quorum; an accepted rejection changes no slot and approves nothing. */
  lemma VoteMovesQuorum(db: Db, now: Time, p: Principal, id: nat, vote: Vote, reason: Option<string>, key: string)
    requires Safe(db) && OpKey(key, p.id, SubmitScope) !in db.operations
    requires ForeignKeys(db) && SubmitDecision(db, now, p, id, vote, reason, key).1.Ok?
    ensures id < |db.requests| && DefinitionOf(db, id).Valid()
    ensures var after, policy := SubmitDecision(db, now, p, id, vote, reason, key).0, DefinitionOf(db, id);
            var a, b := Evaluate(policy, CurrentVotes(db, id)), Evaluate(policy, CurrentVotes(after, id));
            && (vote == Approve ==>
                  && (forall name | name in b.missing :: name in a.missing)
                  && |b.missing| <= |a.missing| <= |b.missing| + 1
                  && (a.quorumSatisfied ==> b.quorumSatisfied))
            && (vote == Reject ==> b.missing == a.missing && b.quorumSatisfied == a.quorumSatisfied
                                   && b.status != Approved)
  {
    hide Evaluate, FinalizeDecision, Lifecycles, Chained, RetryChains, KeysNameTargets, HasAssignment,
         EffectiveDecisions, VotesOf, HasVoted, AuthorizeDecision;
    SubmissionRecorded(db, now, p, id, vote, reason, key);
    var policy, d := DefinitionOf(db, id), EffectiveDecision(p.id, vote, p.roles, p.trust);
    assert policy.Valid() && LiveStatus(db, id) == StoredVerdict(db.requests[id].status);
    if vote == Approve {
      ExtraApproval(policy, CurrentVotes(db, id), d);
    } else {
      ExtraRejection(policy, CurrentVotes(db, id), d);
    }
  }

  // ---------------------------------------------------------------- what a creation records

  /** Policy `id` is the valid active policy of this key. */
  predicate IsActive(db: Db, key: string, id: nat) {
    key in db.activations && db.activations[key] == id && id in db.policies && db.policies[id].definition.Valid()
  }

  /** A creation under a fresh key stores one pending request, by the caller and for as long as
      asked, under the active policy, and reports that request. */
  lemma CreationRecorded(db: Db, now: Time, p: Principal, policyKey: string, target: Target, expiresAt: Option<Time>,
                         key: string)
    requires OpKey(key, p.id, CreateScope) !in db.operations
    requires CreateApprovalRequest(db, now, p, policyKey, target, expiresAt, key).1.Ok?
    ensures var (after, outcome) := CreateApprovalRequest(db, now, p, policyKey, target, expiresAt, key);
            var n, reply := |db.requests|, outcome.value;
            && |after.requests| == n + 1 && after.requests[..n] == db.requests && after.decisions == db.decisions
            && var r := after.requests[n];
            && IsActive(db, policyKey, r.policyId)
            && r.target == target && r.createdBy == p.id && r.source == ByHuman && r.status == PENDING
            && r.createdAt == now && r.expiresAt == expiresAt && r.resolvedAt.None?
            && r.supersedes.None? && r.triggerKey.None? && r.autoRetryCount == 0
            && reply.RequestReply? && reply.requestId == n && reply.status == PENDING && reply.createdBy == p.id
            && reply.createdAt == now && reply.expiresAt == expiresAt
            && reply.policyKey == db.policies[r.policyId].key && reply.policyVersion == db.policies[r.policyId].version
  {
  }

  // ---------------------------------------------------------------- why commands are refused

  /** Under a fresh key a creation is accepted, or refused for one reason, exactly so. */
  lemma CreationAnswers(db: Db, now: Time, p: Principal, policyKey: string, target: Target, expiresAt: Option<Time>,
                        key: string)
    requires OpKey(key, p.id, CreateScope) !in db.operations
    ensures var outcome := CreateApprovalRequest(db, now, p, policyKey, target, expiresAt, key).1;
            var known := policyKey in db.activations && db.activations[policyKey] in db.policies;
            && (outcome.Ok? <==> p.kind == Human && exists id :: IsActive(db, policyKey, id)
                                                               && Human in db.policies[id].definition.allowedTypes)
            && (outcome == Err(PrincipalNotHuman) <==> p.kind != Human)
            && (outcome == Err(PolicyNotFound) <==> p.kind == Human && !known)
            && (outcome == Err(PolicyInvalid) <==>
                  p.kind == Human && known && !exists id :: IsActive(db, policyKey, id))
            && (outcome == Err(PrincipalNotAuthorized) <==>
                  p.kind == Human && exists id :: IsActive(db, policyKey, id)
                                                && Human !in db.policies[id].definition.allowedTypes)
  {
    if policyKey in db.activations && LoadActivePolicy(db, policyKey).Ok? {
      assert IsActive(db, policyKey, db.activations[policyKey]);
    }
  }

  /** Of a type that the policy admits and with a role that it admits. */
  ghost predicate Eligible(p: Principal, policy: PolicyDefinition) {
    p.kind in policy.allowedTypes && exists role | role in p.roles :: role in policy.allowedRoles
  }

  ghost predicate Trusted(p: Principal, policy: PolicyDefinition) {
    policy.trustRequirements == None || policy.trustRequirements == Some([])
    || p.trust in policy.trustRequirements.value
  }

  lemma AuthorizationAnswers(p: Principal, policy: PolicyDefinition)
    ensures AuthorizeDecision(p, policy) ==
            if !Eligible(p, policy) then Some(PrincipalNotAuthorized)
            else if !Trusted(p, policy) then Some(PrincipalTrustInsufficient)
            else None
  {
    assert policy.trustRequirements.Some? && |policy.trustRequirements.value| == 0 ==>
             policy.trustRequirements == Some([]);
  }

  /** The refusals that submitting and superseding share, each exactly when it is given. */
  ghost predicate RefusedAsOwed(db: Db, p: Principal, id: nat, outcome: Outcome<Reply>)
    requires ForeignKeys(db)
  {
    && (outcome == Err(PrincipalNotHuman) <==> p.kind != Human)
    && (outcome == Err(RequestNotFound) <==> p.kind == Human && id >= |db.requests|)
    && (outcome == Err(RequestNotOpen) <==> p.kind == Human && id < |db.requests| && !IsOpen(db, id))
  }

  /** Under a fresh key a submission is accepted, or refused for one reason, exactly so. */
  lemma SubmissionAnswers(db: Db, now: Time, p: Principal, id: nat, vote: Vote, reason: Option<string>, key: string)
    requires Safe(db) && OpKey(key, p.id, SubmitScope) !in db.operations
    ensures ForeignKeys(db)
    ensures var outcome := SubmitDecision(db, now, p, id, vote, reason, key).1;
            && RefusedAsOwed(db, p, id, outcome)
            && (p.kind == Human && IsOpen(db, id) ==>
                  var policy := DefinitionOf(db, id);
                  && (outcome == Err(PrincipalNotAuthorized) <==> !Eligible(p, policy))
                  && (outcome == Err(PrincipalTrustInsufficient) <==> Eligible(p, policy) && !Trusted(p, policy))
                  && (outcome == Err(ApprovalDecisionExists) <==>
                        Eligible(p, policy) && Trusted(p, policy) && p.id in Voters(db.decisions, id))
                  && (outcome.Ok? <==>
                        Eligible(p, policy) && Trusted(p, policy) && p.id !in Voters(db.decisions, id)))
  {
    hide Lifecycles, Chained, VerdictsAgree, RetryChains, KeysNameTargets, AuthorizeDecision, Voters, FinalizeDecision,
         HasVoted, Eligible, Trusted;
    if IsOpen(db, id) {
      AuthorizationAnswers(p, DefinitionOf(db, id));
      VotedMeans(db, id, p.id);
      assert DefinitionOf(db, id).Valid();
    }
  }

  /** The same for a supersession, which must name the caller's latest decision. */
  lemma SupersessionAnswers(db: Db, now: Time, p: Principal, id: nat, decisionId: nat, vote: Vote,
                            reason: Option<string>, key: string)
    requires Safe(db) && OpKey(key, p.id, SupersedeScope) !in db.operations
    ensures ForeignKeys(db)
    ensures var outcome := SupersedeDecision(db, now, p, id, decisionId, vote, reason, key).1;
            && RefusedAsOwed(db, p, id, outcome)
            && (p.kind == Human && IsOpen(db, id) ==>
                  var policy := DefinitionOf(db, id);
                  var about := decisionId < |db.decisions| && db.decisions[decisionId].requestId == id;
                  var own := LatestVote(db.decisions, id, p.id, |db.decisions|) == Some(decisionId);
                  && (outcome == Err(DecisionNotFound) <==> !about)
                  && (outcome == Err(InvalidSupersede) <==> about && !own)
                  && (outcome == Err(PrincipalNotAuthorized) <==> own && !Eligible(p, policy))
                  && (outcome == Err(PrincipalTrustInsufficient) <==>
                        own && Eligible(p, policy) && !Trusted(p, policy))
                  && (outcome.Ok? <==> own && Eligible(p, policy) && Trusted(p, policy)))
  {
    hide Lifecycles, Chained, VerdictsAgree, RetryChains, KeysNameTargets, AuthorizeDecision, FinalizeDecision,
         LatestVote, Eligible, Trusted;
    if IsOpen(db, id) {
      AuthorizationAnswers(p, DefinitionOf(db, id));
      assert DefinitionOf(db, id).Valid();
      if decisionId < |db.decisions| && db.decisions[decisionId].requestId == id
          && db.decisions[decisionId].principal == p.id {
        EffectiveIsLatest(db.decisions, decisionId);
      }
    }
  }

  // ---------------------------------------------------------------- every valid policy can be met

  /** One approval for each slot, cast with a role of the slot. */
  function SlotVotes(policy: PolicyDefinition): seq<EffectiveDecision>
    requires policy.Valid()
  {
    seq(|policy.slots|, s requires 0 <= s < |policy.slots| =>
      EffectiveDecision(s, Approve, {policy.slots[s].eligibleRoles[0]}, ""))
  }

  /** As far as roles go no valid policy is a dead end: voters with admitted roles can meet every
      slot and approve. */
  lemma ValidPolicyCanPass(policy: PolicyDefinition)
    requires policy.Valid()
    ensures Evaluate(policy, SlotVotes(policy)).status == Approved
    ensures forall v | v in SlotVotes(policy) :: exists role | role in v.roles :: role in policy.allowedRoles
  {
    hide Evaluate, HasAssignment, WithVote;
    var votes := SlotVotes(policy);
    AllApprove(votes);
    SlotVotesFill(policy);
    QuorumIsAnAssignment(policy, votes);
    VerdictMeaning(policy, votes);
    NoneRejects(policy, votes);
    NoneVetoes(policy, votes);
    forall v | v in votes ensures exists role | role in v.roles :: role in policy.allowedRoles {
      var s :| 0 <= s < |votes| && votes[s] == v;
      assert Within(policy.slots[s].eligibleRoles, policy.allowedRoles);
      assert policy.slots[s].eligibleRoles[0] in v.roles;
    }
  }

  lemma SlotVotesFill(policy: PolicyDefinition)
    requires policy.Valid()
    ensures HasAssignment(policy, SlotVotes(policy))
  {
    hide WithVote;
    var votes := SlotVotes(policy);
    AllApprove(votes);
    var pick := seq(|votes|, s requires 0 <= s < |votes| => s);
    forall s | 0 <= s < |pick|
      ensures exists role | role in policy.slots[s].eligibleRoles :: role in votes[pick[s]].roles
    {
      assert policy.slots[s].eligibleRoles[0] in votes[s].roles;
    }
    assert FillsEverySlot(policy, WithVote(votes, Approve), pick);
  }

  lemma NoneVetoes(policy: PolicyDefinition, votes: seq<EffectiveDecision>)
    requires forall v | v in votes :: v.vote == Approve
    ensures !Vetoed(policy, votes)
  {
  }

  lemma {:induction false} AllApprove(votes: seq<EffectiveDecision>)
    requires forall v | v in votes :: v.vote == Approve
    ensures WithVote(votes, Approve) == votes && WithVote(votes, Reject) == []
  {
    if votes != [] {
      AllApprove(votes[1..]);
      assert votes[0] in votes;
    }
  }

  lemma NoneRejects(policy: PolicyDefinition, votes: seq<EffectiveDecision>)
    requires policy.Valid() && WithVote(votes, Approve) == votes && WithVote(votes, Reject) == []
    requires Evaluate(policy, votes).quorumSatisfied
    ensures |Evaluate(policy, votes).approvals| > |Evaluate(policy, votes).rejections|
  {
    hide FilledSlots, WithVote;
    QuorumDecides(policy, votes);
  }

  /** Under the veto rule one voter that the policy admits can reject alone. */
  lemma VetoCanBeCast(policy: PolicyDefinition)
    requires policy.Valid() && policy.rule == Veto
    ensures policy.vetoRoles.Some? && |policy.vetoRoles.value| > 0
    ensures var role := policy.vetoRoles.value[0];
            && role in policy.allowedRoles
            && Evaluate(policy, [EffectiveDecision(0, Reject, {role}, "")]).status == Rejected
  {
    hide Evaluate;
    var role := policy.vetoRoles.value[0];
    var vote := EffectiveDecision(0, Reject, {role}, "");
    assert role in policy.vetoRoles.value && role in vote.roles && vote in [vote];
    assert Vetoed(policy, [vote]);
    VerdictMeaning(policy, [vote]);
  }

  /** A valid policy lets everybody vote who could fill one of its slots or cast its veto, as
      far as type and trust allow, and no AI principal. */
  lemma VotersMayVote(policy: PolicyDefinition, p: Principal, role: string)
    requires policy.Valid()
    ensures p.kind == Ai ==> AuthorizeDecision(p, policy) == Some(PrincipalNotAuthorized)
    ensures p.kind in policy.allowedTypes && Trusted(p, policy) && role in p.roles
            && ((exists slot | slot in policy.slots :: role in slot.eligibleRoles)
                || (policy.vetoRoles.Some? && role in policy.vetoRoles.value)) ==>
              AuthorizeDecision(p, policy).None?
    ensures role in policy.allowedRoles ==> role in ROLE_SLUGS
  {
    hide ROLE_SLUGS, Eligible, Trusted;
    AuthorizationAnswers(p, policy);
    assert KnownRoles(policy.allowedRoles);
    if slot :| slot in policy.slots && role in slot.eligibleRoles {
      assert Within(slot.eligibleRoles, policy.allowedRoles) && KnownRoles(slot.eligibleRoles);
      RoleMakesEligible(policy, p, role);
    }
    if policy.vetoRoles.Some? && role in policy.vetoRoles.value {
      assert role in policy.allowedRoles;
      RoleMakesEligible(policy, p, role);
    }
    if p.kind == Ai {
      TypeMakesEligible(policy, p);
    }
  }

  lemma RoleMakesEligible(policy: PolicyDefinition, p: Principal, role: string)
    requires role in policy.allowedRoles
    ensures p.kind in policy.allowedTypes && role in p.roles ==> Eligible(p, policy)
  {
  }

  lemma TypeMakesEligible(policy: PolicyDefinition, p: Principal)
    ensures p.kind !in policy.allowedTypes ==> !Eligible(p, policy)
  {
  }

  /** Policies with one slot and one role are enough, under each rule and each behaviour. */
  lemma SmallestPoliciesAreValid(role: string, name: string, trust: Option<seq<string>>, rejection: RejectionBehavior)
    requires role in ROLE_SLUGS && name != ""
    ensures var slots, roles := [QuorumSlot(name, [role])], [role];
            var expires, recreates := Expiration(Expire, None), Expiration(Recreate, Some(0));
            && PolicyDefinition(Majority, slots, [Human], roles, trust, rejection, expires, None).Valid()
            && PolicyDefinition(Unanimous, slots, [System], roles, trust, rejection,
                                Expiration(BlockOnExpiry, None), None).Valid()
            && PolicyDefinition(Veto, slots, [Human], roles, trust, rejection, expires, Some(roles)).Valid()
            && PolicyDefinition(Majority, slots, [Human, System], roles, trust, rejection, recreates, None).Valid()
  {
    hide ROLE_SLUGS;
  }

  // ---------------------------------------------------------------- what the system is told

  /** Only the system makes system requests, under policies that admit it; the answer describes
      the one request that then holds the key. */
  lemma SystemRequestAnswers(db: Db, now: Time, p: Principal, policyId: nat, target: Target, expiresAt: Option<Time>,
                             key: string, supersedes: Option<nat>, predecessor: Option<nat>, count: nat)
    requires policyId in db.policies && UniqueKeys(db.requests)
    requires predecessor.Some? ==> predecessor.value < |db.requests|
    ensures var (after, outcome) :=
              CreateSystemRequest(db, now, p, policyId, target, expiresAt, key, supersedes, predecessor, count);
            && (outcome.Ok? <==> p.kind == System && System in db.policies[policyId].definition.allowedTypes)
            && (outcome.Err? ==> outcome == Err(PrincipalNotAuthorized) && after == db)
            && (outcome.Ok? ==>
                  var reply := outcome.value;
                  && reply.RequestReply? && reply.requestId < |after.requests|
                  && (forall i | 0 <= i < |after.requests| ::
                        after.requests[i].triggerKey == Some(key) <==> i == reply.requestId)
                  && var r := after.requests[reply.requestId];
                  && reply.status == r.status && reply.createdBy == r.createdBy && reply.createdAt == r.createdAt
                  && reply.expiresAt == r.expiresAt
                  && reply.policyKey == db.policies[policyId].key
                  && reply.policyVersion == db.policies[policyId].version)
  {
    hide UniqueKeys, FindKey;
    var (after, outcome) :=
      CreateSystemRequest(db, now, p, policyId, target, expiresAt, key, supersedes, predecessor, count);
    if outcome.Ok? {
      var n := |db.requests|;
      forall i | 0 <= i < n ensures after.requests[i].triggerKey == db.requests[i].triggerKey {
      }
      OneHolder(db.requests, after.requests, key);
    }
  }

  /** Where keys are unique and at most one row is added, under a key that was free, one row
      holds the key. */
  lemma OneHolder(a: seq<Request>, b: seq<Request>, key: string)
    requires UniqueKeys(a) && |a| <= |b| <= |a| + 1
    requires forall i | 0 <= i < |a| :: b[i].triggerKey == a[i].triggerKey
    requires |b| > |a| ==> !KeyTaken(a, key)
    ensures forall i, j | 0 <= i < |b| && 0 <= j < |b| && b[i].triggerKey == b[j].triggerKey == Some(key) :: i == j
  {
  }
}
