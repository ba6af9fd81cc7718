/** Runs of the approval protocol: any sequence of committed transactions, by anyone, at
    any clock, with trigger observations as stale as they like. */
module ApprovalRuns {
  import opened Policy
  import opened Evaluator
  import opened ApprovalStore
  import opened ApprovalEffects
  import opened ApprovalInvariants
  import opened RetryChain

  // ---------------------------------------------------------------- safety

  /** The invariant of the approval tables. */
  ghost predicate Safe(db: Db) {
    && ForeignKeys(db)
    && PoliciesUsed(db)
    && Lifecycles(db)
    && Chained(db.decisions)
    && VerdictsAgree(db)
    && RetryChains(db)
    && KeysNameTargets(db.requests)
  }

  lemma EmptyIsSafe(policies: map<nat, PolicyRow>)
    ensures Safe(EmptyDb(policies))
  {
  }

  lemma SafeEffect(db: Db, effect: Effect, after: Db)
    requires Safe(db) && Legal(db, effect) && Results(db, effect, after)
    ensures Safe(after)
  {
    hide Legal, Results, Lifecycles, Chained, VerdictsAgree, RetryChains, PoliciesUsed, ForeignKeys, KeysNameTargets;
    BasicsPreserved(db, effect, after);
    KeysNameTargetsPreserved(db, effect, after);
    LifecyclesPreserved(db, effect, after);
    ChainedPreserved(db, effect, after);
    VerdictsPreserved(db, effect, after);
    RetryChainsPreserved(db, effect, after);
  }

  lemma SafeStep(db: Db, command: Command)
    requires Safe(db)
    ensures Safe(Apply(db, command))
  {
    hide Legal, Results, Apply, Lifecycles, Chained, VerdictsAgree, RetryChains, PoliciesUsed;
    var effect := CommandEffect(db, command);
    SafeEffect(db, effect, Apply(db, command));
  }

  lemma ForeignKeysStep(db: Db, command: Command)
    requires ForeignKeys(db)
    ensures ForeignKeys(Apply(db, command))
  {
    hide Legal, Results, Apply, ForeignKeys;
    var effect := CommandEffect(db, command);
    BasicsPreserved(db, effect, Apply(db, command));
  }

  ghost function Run(db: Db, commands: seq<Command>): (after: Db)
    requires ForeignKeys(db)
    ensures ForeignKeys(after)
    decreases |commands|
  {
    if commands == [] then db
    else
      ForeignKeysStep(db, commands[0]);
      Run(Apply(db, commands[0]), commands[1..])
  }

  /** Every reachable state satisfies the invariant. */
  lemma {:induction false} RunIsSafe(db: Db, commands: seq<Command>)
    requires Safe(db)
    ensures Safe(Run(db, commands))
    decreases |commands|
  {
    hide Safe, Apply, ForeignKeys;
    if commands != [] {
      FromSafe(db);
      SafeStep(db, commands[0]);
      ForeignKeysStep(db, commands[0]);
      RunIsSafe(Apply(db, commands[0]), commands[1..]);
    }
  }

  lemma FromSafe(db: Db)
    requires Safe(db)
    ensures ForeignKeys(db)
  {
  }

  // ---------------------------------------------------------------- what never changes

  ghost predicate OperationsKept(a: Db, b: Db) {
    forall k | k in a.operations :: k in b.operations && b.operations[k] == a.operations[k]
  }

  /** `b` can come after `a`: rows are never removed, closed requests, decisions, events
      and idempotency rows never change, and a pending request changes only by closing. */
  ghost predicate Later(a: Db, b: Db) {
    && b.policies == a.policies
    && |a.requests| <= |b.requests|
    && a.decisions <= b.decisions
    && a.events <= b.events
    && OperationsKept(a, b)
    && (forall i | 0 <= i < |a.requests| :: RowLater(a.requests[i], b.requests[i]))
  }

  lemma LaterTransitive(a: Db, b: Db, c: Db)
    requires Later(a, b) && Later(b, c)
    ensures Later(a, c)
  {
    forall i | 0 <= i < |a.requests| ensures RowLater(a.requests[i], c.requests[i]) {
      assert RowLater(a.requests[i], b.requests[i]) && RowLater(b.requests[i], c.requests[i]);
    }
  }

  lemma SystemOperationsKept(db: Db, now: Time, p: Principal, id: nat, ttl: int, head: Head, supersedes: Option<nat>)
    requires ForeignKeys(db)
    ensures ReconcileOne(db, now, p, id).0.operations == db.operations
    ensures CreateTriggerRequest(db, now, p, ttl, head, supersedes).0.operations == db.operations
    ensures id < |db.requests| ==> SupersedeForNewHead(db, now, p, ttl, head, id).0.operations == db.operations
  {
    hide MissionKey, TriggerTarget, KeyTaken, NextRecreateTriggerKey, DetailOfExpiration, RetriesLeft;
  }

  lemma SubmitOperationsKept(db: Db, now: Time, p: Principal, id: nat, vote: Vote, reason: Option<string>, key: string)
    requires ForeignKeys(db)
    ensures OperationsKept(db, SubmitDecision(db, now, p, id, vote, reason, key).0)
  {
    hide FinalizeDecision, HasVoted, EffectiveDecisions, AuthorizeDecision;
    FinalizeNeverTouches(now);
  }

  lemma SupersedeOperationsKept(db: Db, now: Time, p: Principal, id: nat, decisionId: nat, vote: Vote,
                                reason: Option<string>, key: string)
    requires ForeignKeys(db)
    ensures OperationsKept(db, SupersedeDecision(db, now, p, id, decisionId, vote, reason, key).0)
  {
    hide FinalizeDecision, HasVoted, EffectiveDecisions, AuthorizeDecision;
    FinalizeNeverTouches(now);
  }

  lemma FinalizeNeverTouches(now: Time)
    ensures forall db: Db, definition: PolicyDefinition, d: Decision |
              definition.Valid() && d.requestId < |db.requests| ::
              FinalizeDecision(db, now, definition, d).0.operations == db.operations
  {
    hide FinalizeDecision;
    forall db: Db, definition: PolicyDefinition, d: Decision | definition.Valid() && d.requestId < |db.requests|
      ensures FinalizeDecision(db, now, definition, d).0.operations == db.operations
    {
      FinalizeKeepsOperations(db, now, definition, d);
    }
  }

  lemma FinalizeKeepsOperations(db: Db, now: Time, definition: PolicyDefinition, d: Decision)
    requires definition.Valid() && d.requestId < |db.requests|
    ensures FinalizeDecision(db, now, definition, d).0.operations == db.operations
  {
    hide Evaluate, CurrentVotes;
  }

  lemma OperationsGrow(db: Db, command: Command)
    requires ForeignKeys(db)
    ensures OperationsKept(db, Apply(db, command))
  {
    hide ReconcileOne, CreateTriggerRequest, SupersedeForNewHead, SubmitDecision, SupersedeDecision;
    match command {
      case Submit(now, p, id, vote, reason, key) => SubmitOperationsKept(db, now, p, id, vote, reason, key);
      case Supersede(now, p, id, decisionId, vote, reason, key) =>
        SupersedeOperationsKept(db, now, p, id, decisionId, vote, reason, key);
      case Reconcile(now, p, id) => SystemOperationsKept(db, now, p, id, 0, Head("", "", 0, ""), None);
      case Trigger(now, p, ttl, head, supersedes) => SystemOperationsKept(db, now, p, 0, ttl, head, supersedes);
      case NewHead(now, p, ttl, head, predecessor) => SystemOperationsKept(db, now, p, predecessor, ttl, head, None);
      case _ =>
    }
  }

  lemma EffectIsLater(db: Db, effect: Effect, after: Db)
    requires ForeignKeys(db) && Legal(db, effect) && Results(db, effect, after)
    requires OperationsKept(db, after)
    ensures Later(db, after)
  {
    hide RetryOf, FirstOfChain, EvaluationAfter, LogOf, KeyTaken, LogGain, HasVoted;
  }

  lemma StepIsLater(db: Db, command: Command)
    requires ForeignKeys(db)
    ensures Later(db, Apply(db, command))
  {
    hide Apply, Legal, Results, Later, ForeignKeys;
    var effect := CommandEffect(db, command);
    OperationsGrow(db, command);
    EffectIsLater(db, effect, Apply(db, command));
  }

  lemma {:induction false} RunIsLater(db: Db, commands: seq<Command>)
    requires ForeignKeys(db)
    ensures Later(db, Run(db, commands))
    decreases |commands|
  {
    hide Apply, Legal, Results, Later, ForeignKeys;
    if commands == [] {
      assert Later(db, db) by { LaterReflexive(db); }
    } else {
      var after := Apply(db, commands[0]);
      StepIsLater(db, commands[0]);
      ForeignKeysStep(db, commands[0]);
      RunIsLater(after, commands[1..]);
      LaterTransitive(db, after, Run(after, commands[1..]));
    }
  }

  lemma LaterReflexive(db: Db)
    ensures Later(db, db)
  {
  }

  /** A request leaves pending at most once: once closed it keeps its row and its
      lifecycle log through every later transaction. */
  lemma ClosedForGood(db: Db, commands: seq<Command>, i: nat)
    requires Safe(db) && i < |db.requests| && db.requests[i].status != PENDING
    ensures var after := Run(db, commands);
            && i < |after.requests| && after.requests[i] == db.requests[i]
            && LogOf(after.events, i) == LogOf(db.events, i) == [RequestCreated, RequestResolved(db.requests[i].status)]
  {
    hide Run, VerdictsAgree, RetryChains, Chained, LogOf;
    RunIsSafe(db, commands);
    RunIsLater(db, commands);
    var after := Run(db, commands);
    assert RowLater(db.requests[i], after.requests[i]);
    assert OrderlyLife(db, i) && OrderlyLife(after, i);
  }

  // ---------------------------------------------------------------- no quorum event

  lemma {:induction false} EventIsLogged(events: seq<Event>, k: nat)
    requires k < |events|
    ensures events[k].kind in LogOf(events, events[k].requestId)
    decreases |events|
  {
    var last := |events| - 1;
    if k < last { EventIsLogged(events[..last], k); }
  }

  /** No run ever records that a quorum was reached without also settling the request. */
  lemma NoQuorumEvent(policies: map<nat, PolicyRow>, commands: seq<Command>)
    ensures forall e | e in Run(EmptyDb(policies), commands).events :: e.kind != QuorumReached
  {
    hide Run, LogOf, VerdictsAgree, RetryChains, Chained;
    EmptyIsSafe(policies);
    RunIsSafe(EmptyDb(policies), commands);
    var db := Run(EmptyDb(policies), commands);
    forall e | e in db.events ensures e.kind != QuorumReached {
      var k :| 0 <= k < |db.events| && db.events[k] == e;
      EventIsLogged(db.events, k);
      if e.requestId < |db.requests| { assert OrderlyLife(db, e.requestId); }
    }
  }

  // ---------------------------------------------------------------- exactly once

  /** A vote that was accepted is answered the same for ever and cast only once, whatever
      has happened to the request; the same key with anything else is refused. */
  lemma SubmitOnce(db: Db, now: Time, p: Principal, id: nat, vote: Vote, reason: Option<string>, key: string,
                   commands: seq<Command>, later: Time, p': Principal, id': nat, vote': Vote, reason': Option<string>)
    requires ForeignKeys(db) && SubmitDecision(db, now, p, id, vote, reason, key).1.Ok?
    requires p'.id == p.id && p'.kind == Human
    ensures ForeignKeys(SubmitDecision(db, now, p, id, vote, reason, key).0)
    ensures var (first, outcome) := SubmitDecision(db, now, p, id, vote, reason, key);
            var state := Run(first, commands);
            && SubmitDecision(state, later, p', id, vote, reason, key) == (state, outcome)
            && (SubmitPayload(id', vote', reason') != SubmitPayload(id, vote, reason) && id' < |state.requests| ==>
                  SubmitDecision(state, later, p', id', vote', reason', key)
                      == (state, Err(KeyReusedWithDifferentPayload)))
  {
    hide Run, FinalizeDecision, AuthorizeDecision, HasVoted, FinalizeOperation;
    var first := SubmitDecision(db, now, p, id, vote, reason, key).0;
    SubmitRecorded(db, now, p, id, vote, reason, key);
    ForeignKeysStep(db, Submit(now, p, id, vote, reason, key));
    RunIsLater(first, commands);
  }

  lemma SubmitRecorded(db: Db, now: Time, p: Principal, id: nat, vote: Vote, reason: Option<string>, key: string)
    requires ForeignKeys(db) && SubmitDecision(db, now, p, id, vote, reason, key).1.Ok?
    ensures var (first, outcome) := SubmitDecision(db, now, p, id, vote, reason, key);
            var opKey := OpKey(key, p.id, SubmitScope);
            && opKey in first.operations && id < |first.requests|
            && first.operations[opKey] == Operation(SubmitPayload(id, vote, reason), outcome.value)
  {
    hide Evaluate, AuthorizeDecision, HasVoted, CurrentVotes;
  }

  lemma SupersedeOnce(db: Db, now: Time, p: Principal, id: nat, decisionId: nat, vote: Vote, reason: Option<string>,
                      key: string, commands: seq<Command>, later: Time, p': Principal, id': nat, decisionId': nat,
                      vote': Vote, reason': Option<string>)
    requires ForeignKeys(db) && SupersedeDecision(db, now, p, id, decisionId, vote, reason, key).1.Ok?
    requires p'.id == p.id && p'.kind == Human
    ensures ForeignKeys(SupersedeDecision(db, now, p, id, decisionId, vote, reason, key).0)
    ensures var (first, outcome) := SupersedeDecision(db, now, p, id, decisionId, vote, reason, key);
            var state := Run(first, commands);
            && SupersedeDecision(state, later, p', id, decisionId, vote, reason, key) == (state, outcome)
            && (SupersedePayload(id', decisionId', vote', reason') != SupersedePayload(id, decisionId, vote, reason)
                && id' < |state.requests| ==>
                  SupersedeDecision(state, later, p', id', decisionId', vote', reason', key)
                  == (state, Err(KeyReusedWithDifferentPayload)))
  {
    hide Run, FinalizeDecision, AuthorizeDecision, HasVoted, FinalizeOperation;
    var first := SupersedeDecision(db, now, p, id, decisionId, vote, reason, key).0;
    SupersedeRecorded(db, now, p, id, decisionId, vote, reason, key);
    ForeignKeysStep(db, Supersede(now, p, id, decisionId, vote, reason, key));
    RunIsLater(first, commands);
  }

  lemma SupersedeRecorded(db: Db, now: Time, p: Principal, id: nat, decisionId: nat, vote: Vote,
                          reason: Option<string>, key: string)
    requires ForeignKeys(db) && SupersedeDecision(db, now, p, id, decisionId, vote, reason, key).1.Ok?
    ensures var (first, outcome) := SupersedeDecision(db, now, p, id, decisionId, vote, reason, key);
            var opKey := OpKey(key, p.id, SupersedeScope);
            && opKey in first.operations && id < |first.requests|
            && first.operations[opKey] == Operation(SupersedePayload(id, decisionId, vote, reason), outcome.value)
  {
    hide Evaluate, AuthorizeDecision, HasVoted, CurrentVotes, EffectiveDecisions;
  }

  /** A request is created once per key. */
  lemma CreateOnce(db: Db, now: Time, p: Principal, policyKey: string, target: Target, expiresAt: Option<Time>,
                   key: string, commands: seq<Command>, later: Time, p': Principal, policyKey': string,
                   target': Target, expiresAt': Option<Time>)
    requires ForeignKeys(db) && CreateApprovalRequest(db, now, p, policyKey, target, expiresAt, key).1.Ok?
    requires p'.id == p.id && p'.kind == Human
    ensures ForeignKeys(CreateApprovalRequest(db, now, p, policyKey, target, expiresAt, key).0)
    ensures var (first, outcome) := CreateApprovalRequest(db, now, p, policyKey, target, expiresAt, key);
            var state := Run(first, commands);
            && CreateApprovalRequest(state, later, p', policyKey, target, expiresAt, key) == (state, outcome)
            && (CreatePayload(policyKey', target', expiresAt') != CreatePayload(policyKey, target, expiresAt) ==>
                  CreateApprovalRequest(state, later, p', policyKey', target', expiresAt', key)
                  == (state, Err(KeyReusedWithDifferentPayload)))
  {
    hide Run;
    var first := CreateApprovalRequest(db, now, p, policyKey, target, expiresAt, key).0;
    ForeignKeysStep(db, Create(now, p, policyKey, target, expiresAt, key));
    RunIsLater(first, commands);
  }

  // ---------------------------------------------------------------- who may vote

  /** The request is open, and the caller is a person of a type, role and trust that the
      policy admits. */
  ghost predicate MayVote(db: Db, id: nat, p: Principal)
    requires ForeignKeys(db)
  {
    && IsOpen(db, id) && p.kind == Human
    && (var definition := DefinitionOf(db, id);
        && Human in definition.allowedTypes
        && (exists role | role in p.roles :: role in definition.allowedRoles)
        && (definition.trustRequirements == None || definition.trustRequirements == Some([])
            || p.trust in definition.trustRequirements.value))
  }

  lemma AuthorizedMeans(db: Db, id: nat, p: Principal)
    requires Safe(db) && IsOpen(db, id) && p.kind == Human
    ensures DefinitionOf(db, id).Valid()
    ensures MayVote(db, id, p) <==> AuthorizeDecision(p, DefinitionOf(db, id)).None?
  {
    hide Lifecycles, Chained, VerdictsAgree, RetryChains;
    var definition := DefinitionOf(db, id);
    assert definition.trustRequirements.Some? && |definition.trustRequirements.value| == 0 ==>
             definition.trustRequirements == Some([]);
  }

  /** A submission under a fresh key is accepted if and only if the caller may vote and has
      never voted on the request. */
  lemma SubmitAcceptedIff(db: Db, now: Time, p: Principal, id: nat, vote: Vote, reason: Option<string>, key: string)
    requires Safe(db) && OpKey(key, p.id, SubmitScope) !in db.operations
    ensures ForeignKeys(db)
    ensures SubmitDecision(db, now, p, id, vote, reason, key).1.Ok? <==>
            MayVote(db, id, p) && p.id !in Voters(db.decisions, id)
  {
    hide Lifecycles, Chained, VerdictsAgree, RetryChains, AuthorizeDecision, MayVote, Voters, FinalizeDecision,
         HasVoted;
    if IsOpen(db, id) && p.kind == Human {
      AuthorizedMeans(db, id, p);
      VotedMeans(db, id, p.id);
    } else {
      NotOpenNoVote(db, id, p);
    }
  }

  lemma NotOpenNoVote(db: Db, id: nat, p: Principal)
    requires ForeignKeys(db) && !(IsOpen(db, id) && p.kind == Human)
    ensures !MayVote(db, id, p)
  {
  }

  lemma VotedMeans(db: Db, id: nat, voter: nat)
    requires Chained(db.decisions)
    ensures HasVoted(db, id, voter) <==> voter in Voters(db.decisions, id)
  {
    hide Chained;
    OneVoteEach(db.decisions, id);
    if voter in Voters(db.decisions, id) {
      var k: nat :| IsEffective(db.decisions, id, k) && db.decisions[k].principal == voter;
      assert k in EffectiveDecisions(db.decisions, id);
    }
  }

  /** A supersession under a fresh key is accepted if and only if the caller may vote and
      names its own latest decision on the request. */
  lemma SupersedeAcceptedIff(db: Db, now: Time, p: Principal, id: nat, decisionId: nat, vote: Vote,
                             reason: Option<string>, key: string)
    requires Safe(db) && OpKey(key, p.id, SupersedeScope) !in db.operations
    ensures ForeignKeys(db)
    ensures SupersedeDecision(db, now, p, id, decisionId, vote, reason, key).1.Ok? <==>
            MayVote(db, id, p) && LatestVote(db.decisions, id, p.id, |db.decisions|) == Some(decisionId)
  {
    hide Lifecycles, Chained, VerdictsAgree, RetryChains, AuthorizeDecision, MayVote, FinalizeDecision, LatestVote;
    if IsOpen(db, id) && p.kind == Human {
      AuthorizedMeans(db, id, p);
      if decisionId < |db.decisions| && db.decisions[decisionId].requestId == id
          && db.decisions[decisionId].principal == p.id {
        EffectiveIsLatest(db.decisions, decisionId);
      }
    } else {
      NotOpenNoVote(db, id, p);
    }
  }
}
