/** The detail view of one request, recomputed from its votes on every read. */
module ReadModel {
  import opened Policy
  import opened Matching
  import opened Evaluator
  import opened ApprovalStore
  import opened ApprovalEffects
  import opened ApprovalInvariants
  import opened RetryChain
  import opened ApprovalRuns

  datatype DetailView = DetailView(
    status: Status,
    quorumSatisfied: bool,
    requirements: seq<(string, bool)>,
    missing: seq<string>,
    effectiveDecisions: seq<nat>,
    lifecycle: seq<EventKind>,
    missionEffect: Option<MissionEffect>,
    canDecide: bool,
    ownDecision: Option<nat>)

  function FirstBy(decisions: seq<Decision>, ids: seq<nat>, principal: nat): (own: Option<nat>)
    requires forall k | k in ids :: k < |decisions|
    ensures own.Some? ==> own.value in ids && decisions[own.value].principal == principal
    ensures own.None? ==> forall k | k in ids :: decisions[k].principal != principal
  {
    if ids == [] then None
    else
      assert ids[0] in ids && forall k | k in ids[1..] :: k in ids;
      if decisions[ids[0]].principal == principal then Some(ids[0])
      else FirstBy(decisions, ids[1..], principal)
  }

  ghost function ApprovalDetail(db: Db, id: nat, principal: Principal): Option<DetailView>
    requires ForeignKeys(db) && PoliciesUsed(db)
  {
    if id >= |db.requests| then None
    else
      var definition := DefinitionOf(db, id);
      var ids := EffectiveDecisions(db.decisions, id);
      var e := Evaluate(definition, CurrentVotes(db, id));
      Some(DetailView(
        db.requests[id].status,
        e.quorumSatisfied,
        seq(|definition.slots|, s requires 0 <= s < |definition.slots| =>
          (definition.slots[s].name, definition.slots[s].name !in e.missing)),
        e.missing,
        ids,
        LogOf(db.events, id),
        e.missionEffect,
        CanPrincipalDecide(principal, db.requests[id], definition),
        FirstBy(db.decisions, ids, principal.id)))
  }

  /** In every reachable state the recomputed view agrees with what is stored: quorum and
      effect follow the stored status, the log tells the same story, and each slot is
      reported satisfied exactly when the votes fill it. */
  lemma DetailAgrees(db: Db, id: nat, principal: Principal)
    requires Safe(db) && id < |db.requests|
    ensures ForeignKeys(db) && PoliciesUsed(db)
    ensures var view := ApprovalDetail(db, id, principal).value;
            var definition := DefinitionOf(db, id);
            && (view.missionEffect.Some? <==> view.status == Evaluated(Rejected))
            && (view.status == Evaluated(Approved) ==> view.quorumSatisfied)
            && (view.quorumSatisfied ==> view.status in {Evaluated(Approved), Evaluated(Rejected)})
            && (view.quorumSatisfied <==> view.missing == [])
            && view.lifecycle == ExpectedLog(view.status)
            && (forall s | 0 <= s < |definition.slots| ::
                  view.requirements[s].1 <==> s in FilledSlots(definition, CurrentVotes(db, id)))
  {
    hide Lifecycles, Chained, RetryChains, Evaluate, FilledSlots, LogOf, EffectiveDecisions, VotesOf, Missing;
    var definition, votes := DefinitionOf(db, id), CurrentVotes(db, id);
    assert OrderlyLife(db, id) by { OrderlyFromSafe(db, id); }
    assert LiveStatus(db, id) == StoredVerdict(db.requests[id].status);
    VerdictMeaning(definition, votes);
    if Evaluate(definition, votes).quorumSatisfied { QuorumDecides(definition, votes); }
    MissingMeans(definition, votes);
  }

  lemma OrderlyFromSafe(db: Db, id: nat)
    requires Safe(db) && id < |db.requests|
    ensures OrderlyLife(db, id)
  {
    hide VerdictsAgree, Chained, RetryChains, OrderlyLife;
  }

  lemma MissingMeans(definition: PolicyDefinition, votes: seq<EffectiveDecision>)
    requires definition.Valid()
    ensures forall s | 0 <= s < |definition.slots| ::
              definition.slots[s].name !in Evaluate(definition, votes).missing <==> s in FilledSlots(definition, votes)
    ensures Evaluate(definition, votes).quorumSatisfied <==> Evaluate(definition, votes).missing == []
  {
    hide Greedy, ApplyRule;
    var slots, filled := definition.slots, FilledSlots(definition, votes);
    MissingCount(slots, filled, |slots|);
    forall s | 0 <= s < |slots| ensures slots[s].name !in Missing(slots, filled, |slots|) <==> s in filled {
      MissingNames(slots, filled, |slots|, slots[s].name);
      assert definition.ValidSlots();
    }
  }

  /** What the view shows: every slot by name and in order, the votes that count, oldest first,
      the caller's own among them, and the effect that the policy names for a rejection. */
  lemma DetailShows(db: Db, id: nat, principal: Principal)
    requires Safe(db) && id < |db.requests|
    ensures ForeignKeys(db) && PoliciesUsed(db) && ApprovalDetail(db, id, principal).Some?
    ensures var view, policy := ApprovalDetail(db, id, principal).value, DefinitionOf(db, id);
            && view.status == db.requests[id].status
            && (view.missionEffect == Some(MissionEffect.Blocked) <==>
                  view.status == Evaluated(Rejected) && policy.rejectionBehavior == BlockMission)
            && (view.missionEffect == Some(Unchanged) <==>
                  view.status == Evaluated(Rejected) && policy.rejectionBehavior == LeaveMissionUnchanged)
            && |view.requirements| == |policy.slots|
            && (forall s | 0 <= s < |policy.slots| ::
                  && view.requirements[s].0 == policy.slots[s].name
                  && (view.requirements[s].1 <==> policy.slots[s].name !in view.missing))
            && view.missing == Missing(policy.slots, FilledSlots(policy, CurrentVotes(db, id)), |policy.slots|)
            && Ascending(view.effectiveDecisions)
            && (forall k: nat :: k in view.effectiveDecisions <==>
                  && k < |db.decisions| && db.decisions[k].requestId == id
                  && LatestVote(db.decisions, id, db.decisions[k].principal, |db.decisions|) == Some(k))
            && view.ownDecision == LatestVote(db.decisions, id, principal.id, |db.decisions|)
  {
    hide Lifecycles, RetryChains, KeysNameTargets, Evaluate, LogOf, VotesOf, LatestVote, CanPrincipalDecide, Missing,
         FilledSlots;
    var policy, votes := DefinitionOf(db, id), CurrentVotes(db, id);
    assert LiveStatus(db, id) == StoredVerdict(db.requests[id].status);
    EffectMeaning(policy, votes);
    EffectsNeedVerdicts(db, id);
    MissingAreUnfilled(policy, votes);
    AscendingIds(db.decisions, id, |db.decisions|);
    CountedAreLatest(db, id);
    OwnIsLatest(db, id, principal.id);
  }

  lemma MissingAreUnfilled(policy: PolicyDefinition, votes: seq<EffectiveDecision>)
    requires policy.Valid()
    ensures Evaluate(policy, votes).missing == Missing(policy.slots, FilledSlots(policy, votes), |policy.slots|)
  {
    hide FilledSlots, Missing, ApplyRule;
  }

  lemma EffectsNeedVerdicts(db: Db, id: nat)
    requires Safe(db) && id < |db.requests|
    ensures ForeignKeys(db) && PoliciesUsed(db)
    ensures Evaluate(DefinitionOf(db, id), CurrentVotes(db, id)).status == Rejected <==>
            db.requests[id].status == Evaluated(Rejected)
  {
    hide Lifecycles, RetryChains, KeysNameTargets, Evaluate, EffectiveDecisions, VotesOf;
    assert LiveStatus(db, id) == StoredVerdict(db.requests[id].status);
  }

  lemma CountedAreLatest(db: Db, id: nat)
    requires Chained(db.decisions)
    ensures forall k: nat :: k in EffectiveDecisions(db.decisions, id) <==>
              && k < |db.decisions| && db.decisions[k].requestId == id
              && LatestVote(db.decisions, id, db.decisions[k].principal, |db.decisions|) == Some(k)
  {
    hide Chained, LatestVote, IsSuperseded;
    forall k: nat | k < |db.decisions| && db.decisions[k].requestId == id
      ensures IsEffective(db.decisions, id, k) <==>
              LatestVote(db.decisions, id, db.decisions[k].principal, |db.decisions|) == Some(k)
    {
      EffectiveIsLatest(db.decisions, k);
    }
  }

  lemma OwnIsLatest(db: Db, id: nat, voter: nat)
    requires Chained(db.decisions)
    ensures FirstBy(db.decisions, EffectiveDecisions(db.decisions, id), voter)
            == LatestVote(db.decisions, id, voter, |db.decisions|)
  {
    hide Chained;
    CountedAreLatest(db, id);
    var latest := LatestVote(db.decisions, id, voter, |db.decisions|);
    if latest.Some? {
      assert SameVoter(db.decisions, latest.value, id, voter);
      assert latest.value in EffectiveDecisions(db.decisions, id);
    }
  }

  /** `can_decide` tells the truth: with an unused key, a caller who has not voted can
      submit exactly when it is true, and one who has can supersede that vote exactly when
      it is true. */
  lemma CanDecideMeansAccepted(db: Db, id: nat, principal: Principal, now: Time, vote: Vote, reason: Option<string>,
                               key: string)
    requires Safe(db) && id < |db.requests|
    requires OpKey(key, principal.id, SubmitScope) !in db.operations
    requires OpKey(key, principal.id, SupersedeScope) !in db.operations
    ensures ForeignKeys(db) && PoliciesUsed(db)
    ensures var view := ApprovalDetail(db, id, principal).value;
            && (view.canDecide && view.ownDecision.None? <==>
                SubmitDecision(db, now, principal, id, vote, reason, key).1.Ok?)
            && (view.ownDecision.Some? ==>
                  (view.canDecide <==>
                   SupersedeDecision(db, now, principal, id, view.ownDecision.value, vote, reason, key).1.Ok?))
  {
    hide Lifecycles, Chained, RetryChains, VerdictsAgree, Evaluate, FinalizeDecision, LogOf, AuthorizeDecision;
    assert DefinitionOf(db, id).Valid();
  }
}
