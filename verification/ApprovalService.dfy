/** The approval tables as the service changes them in place: each command is one locked
    transaction that does to the fields what ApprovalStore says it does to the tables, keeps
    the invariant of all runs, and leaves no trace when it is refused. */
module ApprovalService {
  import opened Policy
  import opened Evaluator
  import opened ApprovalStore
  import opened ApprovalEffects
  import opened ApprovalRuns
  import opened TriggerSteps
  import opened TriggerSafety
  import opened TriggerRaces
  import Sweeps = Reconciliation

  class Store {
    const policies: map<nat, PolicyRow>
    var activations: map<string, nat>
    var requests: seq<Request>
    var decisions: seq<Decision>
    var operations: map<OpKey, Operation>
    var events: seq<Event>

    /** Policies and their activations are there before the service starts. */
    constructor (policies: map<nat, PolicyRow>, activations: map<string, nat>)
      ensures Valid() && Tables() == EmptyDb(policies).(activations := activations)
    {
      this.policies, this.activations := policies, activations;
      requests, decisions, operations, events := [], [], map[], [];
      new;
      NoRowsAreSafe(Tables());
    }

    ghost predicate Valid()
      reads this
    {
      Safe(Tables())
    }

    function Tables(): Db
      reads this
    {
      Db(policies, activations, requests, decisions, operations, events)
    }

    /** Undo everything a transaction did since `saved`. */
    method Rollback(saved: Db)
      requires saved.policies == policies
      modifies this
      ensures Tables() == saved
    {
      activations, requests, decisions := saved.activations, saved.requests, saved.decisions;
      operations, events := saved.operations, saved.events;
    }

    // -------------------------------------------------------------- idempotency

    method ReserveOrGetOperation(key: OpKey, payload: Payload) returns (reservation: Reservation)
      modifies this
      ensures reservation == ReserveOrGet(old(Tables()), key, payload)
      ensures Tables() == if reservation.Reserved? then reservation.db else old(Tables())
    {
      if key in operations {
        if operations[key].payload != payload {
          return KeyReused;
        }
        return Replayed(operations[key].reply);
      }
      operations := operations[key := Operation(payload, NotYet)];
      return Reserved(Tables());
    }

    method FinalizeOperation(key: OpKey, reply: Reply)
      requires key in operations
      modifies this`operations
      ensures Tables() == ApprovalStore.FinalizeOperation(old(Tables()), key, reply)
    {
      operations := operations[key := operations[key].(reply := reply)];
    }

    // -------------------------------------------------------------- commands of a human

    method CreateApprovalRequest(now: Time, principal: Principal, policyKey: string, target: Target,
                                 expiresAt: Option<Time>, idempotencyKey: string) returns (outcome: Outcome<Reply>)
      requires Valid()
      modifies this
      ensures Valid() && Later(old(Tables()), Tables())
      ensures outcome.Err? ==> Tables() == old(Tables())
      ensures (Tables(), outcome) == ApprovalStore.CreateApprovalRequest(
                old(Tables()), now, principal, policyKey, target, expiresAt, idempotencyKey)
    {
      hide Safe, Later;
      CreateKeeps(Tables(), now, principal, policyKey, target, expiresAt, idempotencyKey);
      if principal.kind != Human {
        return Err(PrincipalNotHuman);
      }
      var before := Tables();
      var key := OpKey(idempotencyKey, principal.id, CreateScope);
      var reservation := ReserveOrGetOperation(key, CreatePayload(policyKey, target, expiresAt));
      match reservation {
        case Replayed(reply) => return Ok(reply);
        case KeyReused => return Err(KeyReusedWithDifferentPayload);
        case Reserved(_) =>
      }
      var loaded := LoadActivePolicy(Tables(), policyKey);
      if loaded.Err? {
        Rollback(before);
        return Err(loaded.code);
      }
      var policy := policies[loaded.value];
      if principal.kind !in policy.definition.allowedTypes {
        Rollback(before);
        return Err(PrincipalNotAuthorized);
      }
      var id := |requests|;
      var request :=
        Request(loaded.value, target, principal.id, ByHuman, PENDING, now, expiresAt, None, None, None, 0);
      requests := requests + [request];
      events := events + [Event(id, RequestCreated, Some(principal.id), NoDetail, now)];
      var reply := ResultOf(request, id, policy);
      FinalizeOperation(key, reply);
      return Ok(reply);
    }

    method FinalizeDecision(now: Time, definition: PolicyDefinition, decision: Decision) returns (reply: Reply)
      requires definition.Valid() && decision.requestId < |requests|
      modifies this`requests, this`decisions, this`events
      ensures (Tables(), reply) == ApprovalStore.FinalizeDecision(old(Tables()), now, definition, decision)
    {
      var id, decisionId := decision.requestId, |decisions|;
      decisions := decisions + [decision];
      var e := EvaluateApproval(definition, CurrentVotes(Tables(), id));
      if e.status != Pending && requests[id].status == PENDING {
        requests := requests[id := requests[id].(status := Evaluated(e.status), resolvedAt := Some(now))];
        events := events + [Event(id, RequestResolved(Evaluated(e.status)), Some(decision.principal),
                                  Decided(e.quorumSatisfied, e.missionEffect, e.reason), now)];
      } else if e.quorumSatisfied {
        events := events + [Event(id, QuorumReached, Some(decision.principal), QuorumDetail(e.reason), now)];
      }
      reply := DecisionReply(id, decisionId, decision.principal, decision.vote, decision.reason,
                             requests[id].status, e.quorumSatisfied, e.missionEffect, now);
    }

    method SubmitDecision(now: Time, principal: Principal, requestId: nat, vote: Vote, reason: Option<string>,
                          idempotencyKey: string) returns (outcome: Outcome<Reply>)
      requires Valid()
      modifies this
      ensures Valid() && Later(old(Tables()), Tables())
      ensures outcome.Err? ==> Tables() == old(Tables())
      ensures (Tables(), outcome) == ApprovalStore.SubmitDecision(
                old(Tables()), now, principal, requestId, vote, reason, idempotencyKey)
    {
      hide Safe, Later, ApprovalStore.FinalizeDecision, AuthorizeDecision, EffectiveDecisions;
      SubmitKeeps(Tables(), now, principal, requestId, vote, reason, idempotencyKey);
      if principal.kind != Human {
        return Err(PrincipalNotHuman);
      }
      if requestId >= |requests| {
        return Err(RequestNotFound);
      }
      var before := Tables();
      var key := OpKey(idempotencyKey, principal.id, SubmitScope);
      var reservation := ReserveOrGetOperation(key, SubmitPayload(requestId, vote, reason));
      match reservation {
        case Replayed(reply) => return Ok(reply);
        case KeyReused => return Err(KeyReusedWithDifferentPayload);
        case Reserved(_) =>
      }
      var definition := policies[requests[requestId].policyId].definition;
      var refusal := AuthorizeDecision(principal, definition);
      if requests[requestId].status != PENDING {
        Rollback(before);
        return Err(RequestNotOpen);
      }
      if !definition.Valid() {
        Rollback(before);
        return Err(PolicyInvalid);
      }
      if refusal.Some? {
        Rollback(before);
        return Err(refusal.value);
      }
      if HasVoted(Tables(), requestId, principal.id) {
        Rollback(before);
        return Err(ApprovalDecisionExists);
      }
      var decision := Decision(requestId, principal.id, vote, reason, principal.roles, principal.trust, now, None);
      var reply := FinalizeDecision(now, definition, decision);
      FinalizeOperation(key, reply);
      return Ok(reply);
    }

    method SupersedeDecision(now: Time, principal: Principal, requestId: nat, decisionId: nat, vote: Vote,
                             reason: Option<string>, idempotencyKey: string) returns (outcome: Outcome<Reply>)
      requires Valid()
      modifies this
      ensures Valid() && Later(old(Tables()), Tables())
      ensures outcome.Err? ==> Tables() == old(Tables())
      ensures (Tables(), outcome) == ApprovalStore.SupersedeDecision(
                old(Tables()), now, principal, requestId, decisionId, vote, reason, idempotencyKey)
    {
      hide Safe, Later, ApprovalStore.FinalizeDecision, AuthorizeDecision, EffectiveDecisions;
      SupersedeKeeps(Tables(), now, principal, requestId, decisionId, vote, reason, idempotencyKey);
      if principal.kind != Human {
        return Err(PrincipalNotHuman);
      }
      if requestId >= |requests| {
        return Err(RequestNotFound);
      }
      var before := Tables();
      var key := OpKey(idempotencyKey, principal.id, SupersedeScope);
      var reservation := ReserveOrGetOperation(key, SupersedePayload(requestId, decisionId, vote, reason));
      match reservation {
        case Replayed(reply) => return Ok(reply);
        case KeyReused => return Err(KeyReusedWithDifferentPayload);
        case Reserved(_) =>
      }
      var refusal := SupersedeRefusal(principal, requestId, decisionId);
      if refusal.Some? {
        Rollback(before);
        return Err(refusal.value);
      }
      var definition := policies[requests[requestId].policyId].definition;
      var decision :=
        Decision(requestId, principal.id, vote, reason, principal.roles, principal.trust, now, Some(decisionId));
      var reply := FinalizeDecision(now, definition, decision);
      FinalizeOperation(key, reply);
      return Ok(reply);
    }

    /** The checks before a decision may be superseded, in the order they are made. */
    function SupersedeRefusal(principal: Principal, requestId: nat, decisionId: nat): Option<ErrorCode>
      requires requestId < |requests| && ForeignKeys(Tables())
      reads this
    {
      var definition := policies[requests[requestId].policyId].definition;
      if requests[requestId].status != PENDING then Some(RequestNotOpen)
      else if decisionId >= |decisions| || decisions[decisionId].requestId != requestId then Some(DecisionNotFound)
      else if decisions[decisionId].principal != principal.id then Some(InvalidSupersede)
      else if decisionId !in EffectiveDecisions(decisions, requestId) then Some(InvalidSupersede)
      else if !definition.Valid() then Some(PolicyInvalid)
      else AuthorizeDecision(principal, definition)
    }

    // -------------------------------------------------------------- system-created requests

    method CreateSystemRequest(now: Time, principal: Principal, policyId: nat, target: Target, expiresAt: Option<Time>,
                               triggerKey: string, supersedes: Option<nat>, predecessor: Option<nat>,
                               autoRetryCount: nat) returns (outcome: Outcome<Reply>)
      requires policyId in policies
      requires predecessor.Some? ==> predecessor.value < |requests|
      modifies this`requests, this`events
      ensures outcome.Err? ==> Tables() == old(Tables())
      ensures (Tables(), outcome) == ApprovalStore.CreateSystemRequest(
                old(Tables()), now, principal, policyId, target, expiresAt, triggerKey, supersedes, predecessor,
                autoRetryCount)
    {
      var policy := policies[policyId];
      if principal.kind != System {
        return Err(PrincipalNotAuthorized);
      }
      if System !in policy.definition.allowedTypes {
        return Err(PrincipalNotAuthorized);
      }
      if predecessor.Some? {
        var p := predecessor.value;
        requests := requests[p := requests[p].(status := Superseded, resolvedAt := Some(now))];
        events := events + [Event(p, RequestResolved(Superseded), Some(principal.id), NewerTrigger(triggerKey), now)];
      }
      if KeyTaken(requests, triggerKey) {
        var existing := FindKey(requests, triggerKey);
        return Ok(ResultOf(requests[existing], existing, policy));
      }
      var id := |requests|;
      var request := Request(policyId, target, principal.id, BySystem, PENDING, now, expiresAt, None, supersedes,
                             Some(triggerKey), autoRetryCount);
      requests := requests + [request];
      events := events + [Event(id, RequestCreated, Some(principal.id), CreatedByTrigger(triggerKey), now)];
      return Ok(ResultOf(request, id, policy));
    }

    // -------------------------------------------------------------- expiration

    method ReconcileOne(now: Time, principal: Principal, id: nat) returns (outcome: Outcome<Option<Reconciled>>)
      requires Valid()
      modifies this
      ensures Valid() && Later(old(Tables()), Tables())
      ensures outcome.Err? ==> Tables() == old(Tables())
      ensures (Tables(), outcome) == ApprovalStore.ReconcileOne(old(Tables()), now, principal, id)
    {
      hide Safe, Later, NextRecreateTriggerKey, ApprovalStore.CreateSystemRequest, DetailOfExpiration;
      ReconcileKeeps(Tables(), now, principal, id);
      if id >= |requests| {
        return Ok(None);
      }
      var request := requests[id];
      if !Overdue(request, now) {
        return Ok(None);
      }
      var definition := policies[request.policyId].definition;
      if !definition.Valid() {
        return Err(PolicyInvalid);
      }
      var before := Tables();
      requests := requests[id := request.(status := Expired, resolvedAt := Some(now))];
      var result := PlainlyExpired;
      if RetriesLeft(request, definition) && Ttl(request) > 0 {
        var created := CreateSystemRequest(now, principal, request.policyId, request.target, Some(now + Ttl(request)),
                                           NextRecreateTriggerKey(request, id), Some(id), None,
                                           request.autoRetryCount + 1);
        if created.Err? {
          Rollback(before);
          return Err(created.code);
        }
        result := Recreated;
      }
      events := events + [Event(id, RequestResolved(Expired), None, DetailOfExpiration(request, definition), now)];
      return Ok(Some(result));
    }

    /** The candidate query: overdue requests, oldest expiry first, at most `limit`. */
    method SelectCandidates(now: Time, limit: nat) returns (ids: seq<nat>)
      ensures Sweeps.IsBatch(requests, now, limit, ids)
    {
      hide Picked, Sweeps.IsBatch, Sweeps.OverdueIds, Sweeps.Expiry;
      var remaining := Sweeps.OverdueIds(requests, now);
      ids := [];
      NothingPicked(requests, now);
      while |ids| < limit && remaining != {}
        invariant |ids| <= limit && Picked(requests, now, ids, remaining)
        decreases remaining
      {
        OldestExists(requests, remaining);
        var oldest :| oldest in remaining && IsOldest(requests, remaining, oldest);
        OnePicked(requests, now, ids, remaining, oldest);
        ids := ids + [oldest];
        remaining := remaining - {oldest};
      }
      EnoughPicked(requests, now, limit, ids, remaining);
    }

    /** `clocks` is what the clock shows at the successive rechecks. */
    method RunReconciliationTick(now: Time, clocks: seq<Time>, principal: Principal, limit: nat)
      returns (outcome: Outcome<Sweeps.TickResult>, ghost ids: seq<nat>)
      requires Valid() && |clocks| >= limit
      modifies this
      ensures Valid() && Later(old(Tables()), Tables())
      ensures Sweeps.IsBatch(old(requests), now, limit, ids) && |ids| <= limit && ForeignKeys(old(Tables()))
      ensures (Tables(), outcome) == Sweeps.Sweep(old(Tables()), clocks[..|ids|], principal, ids)
    {
      hide Safe, Later, ApprovalStore.ReconcileOne, ForeignKeys, Sweeps.IsBatch, Sweeps.Sweep, Sweeps.AfterMore;
      FromSafe(Tables());
      LaterReflexive(Tables());
      var candidates := SelectCandidates(now, limit);
      BatchFits(requests, now, limit, candidates);
      ids := candidates;
      ghost var times := clocks[..|ids|];
      var processed, recreated := 0, 0;
      ghost var whole := Sweeps.Sweep(Tables(), times, principal, ids);
      NothingMade(whole);
      assert ids[0..] == ids && times[0..] == times;
      for k := 0 to |candidates|
        invariant Valid() && ForeignKeys(Tables()) && Later(old(Tables()), Tables())
        invariant whole == Sweeps.AfterMore(Sweeps.TickResult(processed, recreated),
                                            Sweeps.Sweep(Tables(), times[k..], principal, ids[k..]))
      {
        ghost var before := Tables();
        SweepStep(before, times[k..], principal, ids[k..]);
        var done := ReconcileOne(clocks[k], principal, candidates[k]);
        FromSafe(Tables());
        LaterTransitive(old(Tables()), before, Tables());
        assert times[k..][1..] == times[k + 1..] && ids[k..][1..] == ids[k + 1..];
        if done.Err? {
          ErrorStays(Sweeps.TickResult(processed, recreated), before, done.code);
          return Err(done.code), ids;
        }
        MadeSoFar(Sweeps.TickResult(processed, recreated), Sweeps.Counted(done.value),
                  Sweeps.Sweep(Tables(), times[k + 1..], principal, ids[k + 1..]));
        if done.value.Some? {
          processed := processed + 1;
          if done.value == Some(Recreated) {
            recreated := recreated + 1;
          }
        }
      }
      SweepNothing(Tables(), times[|ids|..], principal, ids[|ids|..]);
      MadeAll(Sweeps.TickResult(processed, recreated), Tables());
      outcome := Ok(Sweeps.TickResult(processed, recreated));
    }

    // -------------------------------------------------------------- triggers

    /** The history lookup: a most recently created request for the pull request. */
    method FindLatest(head: Head) returns (latest: Option<nat>)
      ensures IsNewest(Tables(), head, latest)
    {
      hide TriggerTarget;
      var target := TriggerTarget(head);
      latest := None;
      for i := 0 to |requests|
        invariant latest.Some? ==> latest.value < i && SameSubject(requests[latest.value].target, target)
        invariant forall j | 0 <= j < i && SameSubject(requests[j].target, target) ::
            latest.Some? && requests[j].createdAt <= requests[latest.value].createdAt
      {
        if SameSubject(requests[i].target, target)
           && (latest.None? || requests[latest.value].createdAt <= requests[i].createdAt) {
          latest := Some(i);
        }
      }
    }

    method CreateTriggerRequest(now: Time, principal: Principal, ttl: int, head: Head, supersedes: Option<nat>)
      returns (outcome: Outcome<Reply>)
      requires Valid()
      modifies this`requests, this`events
      ensures Valid() && Later(old(Tables()), Tables())
      ensures outcome.Err? ==> Tables() == old(Tables())
      ensures (Tables(), outcome)
              == ApprovalStore.CreateTriggerRequest(old(Tables()), now, principal, ttl, head, supersedes)
    {
      hide Safe, Later, MissionKey, TriggerTarget, ApprovalStore.CreateSystemRequest, TriggerPolicyKey;
      TriggerKeeps(Tables(), now, principal, ttl, head, supersedes);
      var loaded := LoadActivePolicy(Tables(), TriggerPolicyKey());
      if loaded.Err? {
        return Err(loaded.code);
      }
      outcome := CreateSystemRequest(now, principal, loaded.value, TriggerTarget(head), Some(now + ttl),
                                     MissionKey(head), supersedes, None, 0);
    }

    method HandleNewHeadPendingPredecessor(now: Time, principal: Principal, ttl: int, head: Head, predecessor: nat)
      returns (outcome: Outcome<Observed>)
      requires Valid() && predecessor < |requests|
      modifies this`requests, this`events
      ensures Valid() && Later(old(Tables()), Tables())
      ensures outcome.Err? ==> Tables() == old(Tables())
      ensures (Tables(), outcome) == HandleNewHead(old(Tables()), now, principal, ttl, head, predecessor)
    {
      hide Safe, Later, MissionKey, TriggerTarget, ApprovalStore.CreateSystemRequest, TriggerPolicyKey;
      NewHeadKeeps(Tables(), now, principal, ttl, head, predecessor);
      if requests[predecessor].status == PENDING {
        var loaded := LoadActivePolicy(Tables(), TriggerPolicyKey());
        if loaded.Err? {
          return Err(loaded.code);
        }
        var created := CreateSystemRequest(now, principal, loaded.value, TriggerTarget(head), Some(now + ttl),
                                           MissionKey(head), Some(predecessor), Some(predecessor), 0);
        return if created.Ok? then Ok(TriggerSuperseded) else Err(created.code);
      }
      var created := CreateTriggerRequest(now, principal, ttl, head, Some(predecessor));
      return if created.Ok? then Ok(TriggerCreated) else Err(created.code);
    }

    /** React to a head by what the lookup saw, whatever other transactions ran since. */
    method ActOnSight(now: Time, principal: Principal, ttl: int, head: Head, seen: Seen)
      returns (outcome: Outcome<Observed>)
      requires Valid() && WasSeen(Tables(), head, seen)
      modifies this`requests, this`events
      ensures Valid() && Later(old(Tables()), Tables())
      ensures outcome.Err? ==> Tables() == old(Tables())
      ensures (Tables(), outcome) == TriggerRaces.ActOnSight(old(Tables()), now, principal, ttl, head, seen)
    {
      hide Safe, Later, MissionKey, TriggerTarget, HandleNewHead, ApprovalStore.CreateTriggerRequest;
      LaterReflexive(Tables());
      var key := MissionKey(head);
      if |key| > TRIGGER_KEY_MAX_LENGTH {
        return Err(TriggerKeyTooLong);
      }
      if seen.NoRow? {
        var first := CreateTriggerRequest(now, principal, ttl, head, None);
        return if first.Ok? then Ok(TriggerCreated) else Err(first.code);
      }
      if seen.row.triggerKey == Some(key) {
        if seen.row.status == PENDING {
          return Ok(NothingToDo);
        }
        var replay := CreateTriggerRequest(now, principal, ttl, head, seen.row.supersedes);
        return if replay.Ok? then Ok(NothingToDo) else Err(replay.code);
      }
      if seen.row.status != PENDING {
        var next := CreateTriggerRequest(now, principal, ttl, head, Some(seen.id));
        return if next.Ok? then Ok(TriggerCreated) else Err(next.code);
      }
      outcome := HandleNewHeadPendingPredecessor(now, principal, ttl, head, seen.id);
    }

    /** Observe one pull request with nothing in between: look up its newest request and act on it. */
    method EvaluateOnePr(now: Time, principal: Principal, ttl: int, head: Head)
      returns (outcome: Outcome<Observed>, latest: Option<nat>)
      requires Valid()
      modifies this`requests, this`events
      ensures Valid() && Later(old(Tables()), Tables())
      ensures outcome.Err? ==> Tables() == old(Tables())
      ensures IsNewest(old(Tables()), head, latest)
      ensures (Tables(), outcome) == ApprovalStore.EvaluateOnePr(old(Tables()), now, principal, ttl, head, latest)
    {
      hide Safe, Later, TriggerRaces.ActOnSight, ApprovalStore.EvaluateOnePr, TriggerTarget, SameSubject;
      latest := FindLatest(head);
      AtOnceIsAtomic(Tables(), now, principal, ttl, head, latest);
      outcome := ActOnSight(now, principal, ttl, head, Sight(Tables(), latest));
    }
  }

  // ---------------------------------------------------------------- what each command keeps

  lemma NoRowsAreSafe(db: Db)
    requires db == EmptyDb(db.policies).(activations := db.activations)
    ensures Safe(db)
  {
  }

  lemma CreateKeeps(db: Db, now: Time, p: Principal, policyKey: string, target: Target, expiresAt: Option<Time>,
                    key: string)
    requires Safe(db)
    ensures var after := ApprovalStore.CreateApprovalRequest(db, now, p, policyKey, target, expiresAt, key).0;
            Safe(after) && Later(db, after)
  {
    hide Safe, Later, ApprovalStore.CreateApprovalRequest;
    FromSafe(db);
    SafeStep(db, Create(now, p, policyKey, target, expiresAt, key));
    StepIsLater(db, Create(now, p, policyKey, target, expiresAt, key));
  }

  lemma SubmitKeeps(db: Db, now: Time, p: Principal, id: nat, vote: Vote, reason: Option<string>, key: string)
    requires Safe(db)
    ensures ForeignKeys(db)
    ensures var after := ApprovalStore.SubmitDecision(db, now, p, id, vote, reason, key).0;
            Safe(after) && Later(db, after)
  {
    hide Safe, Later, ApprovalStore.SubmitDecision;
    FromSafe(db);
    SafeStep(db, Submit(now, p, id, vote, reason, key));
    StepIsLater(db, Submit(now, p, id, vote, reason, key));
  }

  lemma SupersedeKeeps(db: Db, now: Time, p: Principal, id: nat, decisionId: nat, vote: Vote, reason: Option<string>,
                       key: string)
    requires Safe(db)
    ensures ForeignKeys(db)
    ensures var after := ApprovalStore.SupersedeDecision(db, now, p, id, decisionId, vote, reason, key).0;
            Safe(after) && Later(db, after)
  {
    hide Safe, Later, ApprovalStore.SupersedeDecision;
    FromSafe(db);
    SafeStep(db, Supersede(now, p, id, decisionId, vote, reason, key));
    StepIsLater(db, Supersede(now, p, id, decisionId, vote, reason, key));
  }

  lemma ReconcileKeeps(db: Db, now: Time, p: Principal, id: nat)
    requires Safe(db)
    ensures ForeignKeys(db)
    ensures var after := ApprovalStore.ReconcileOne(db, now, p, id).0; Safe(after) && Later(db, after)
  {
    hide Safe, Later, ApprovalStore.ReconcileOne;
    FromSafe(db);
    SafeStep(db, Reconcile(now, p, id));
    StepIsLater(db, Reconcile(now, p, id));
  }

  lemma TriggerKeeps(db: Db, now: Time, p: Principal, ttl: int, head: Head, supersedes: Option<nat>)
    requires Safe(db)
    ensures var after := ApprovalStore.CreateTriggerRequest(db, now, p, ttl, head, supersedes).0;
            Safe(after) && Later(db, after)
  {
    hide Safe, Later, ApprovalStore.CreateTriggerRequest;
    FromSafe(db);
    SafeStep(db, Trigger(now, p, ttl, head, supersedes));
    StepIsLater(db, Trigger(now, p, ttl, head, supersedes));
  }

  lemma NewHeadKeeps(db: Db, now: Time, p: Principal, ttl: int, head: Head, predecessor: nat)
    requires Safe(db)
    ensures IsOpen(db, predecessor) ==>
              var after := SupersedeForNewHead(db, now, p, ttl, head, predecessor).0; Safe(after) && Later(db, after)
  {
    hide Safe, Later, SupersedeForNewHead;
    FromSafe(db);
    SafeStep(db, NewHead(now, p, ttl, head, predecessor));
    StepIsLater(db, NewHead(now, p, ttl, head, predecessor));
  }

  // ---------------------------------------------------------------- the candidate query

  /** `ids` are the oldest of the overdue requests, in order, and `remaining` the others. */
  ghost predicate Picked(requests: seq<Request>, now: Time, ids: seq<nat>, remaining: set<nat>) {
    var all := Sweeps.OverdueIds(requests, now);
    && remaining <= all && |all| == |ids| + |remaining|
    && (forall i :: i in all <==> i in remaining || i in ids)
    && (forall k | 0 <= k < |ids| :: ids[k] !in remaining)
    && (forall k, l | 0 <= k < l < |ids| ::
          ids[k] != ids[l] && Sweeps.Expiry(requests, ids[k]) <= Sweeps.Expiry(requests, ids[l]))
    && (forall k, i | 0 <= k < |ids| && i in remaining ::
          Sweeps.Expiry(requests, ids[k]) <= Sweeps.Expiry(requests, i))
  }

  lemma NothingPicked(requests: seq<Request>, now: Time)
    ensures Picked(requests, now, [], Sweeps.OverdueIds(requests, now))
  {
  }

  lemma OnePicked(requests: seq<Request>, now: Time, ids: seq<nat>, remaining: set<nat>, oldest: nat)
    requires Picked(requests, now, ids, remaining) && oldest in remaining && IsOldest(requests, remaining, oldest)
    ensures Picked(requests, now, ids + [oldest], remaining - {oldest})
  {
    hide Sweeps.OverdueIds, Sweeps.Expiry;
    var more := ids + [oldest];
    forall k, l | 0 <= k < l < |more|
      ensures more[k] != more[l] && Sweeps.Expiry(requests, more[k]) <= Sweeps.Expiry(requests, more[l])
    {
    }
  }

  lemma EnoughPicked(requests: seq<Request>, now: Time, limit: nat, ids: seq<nat>, remaining: set<nat>)
    requires Picked(requests, now, ids, remaining) && |ids| <= limit && (|ids| == limit || remaining == {})
    ensures Sweeps.IsBatch(requests, now, limit, ids)
  {
    hide Sweeps.OverdueIds, Sweeps.Expiry;
  }

  lemma BatchFits(requests: seq<Request>, now: Time, limit: nat, ids: seq<nat>)
    requires Sweeps.IsBatch(requests, now, limit, ids)
    ensures |ids| <= limit
  {
  }

  predicate IsOldest(requests: seq<Request>, ids: set<nat>, oldest: nat) {
    forall i | i in ids :: Sweeps.Expiry(requests, oldest) <= Sweeps.Expiry(requests, i)
  }

  lemma {:induction false} OldestExists(requests: seq<Request>, ids: set<nat>)
    requires ids != {}
    ensures exists oldest :: oldest in ids && IsOldest(requests, ids, oldest)
    decreases ids
  {
    var i :| i in ids;
    if ids == {i} {
      assert IsOldest(requests, ids, i);
    } else {
      OldestExists(requests, ids - {i});
      var o :| o in ids - {i} && IsOldest(requests, ids - {i}, o);
      var best := if Sweeps.Expiry(requests, i) <= Sweeps.Expiry(requests, o) then i else o;
      assert IsOldest(requests, ids, best);
    }
  }

  // ---------------------------------------------------------------- the counts of a tick

  lemma NothingMade(rest: (Db, Outcome<Sweeps.TickResult>))
    ensures Sweeps.AfterMore(Sweeps.TickResult(0, 0), rest) == rest
  {
  }

  lemma ErrorStays(made: Sweeps.TickResult, db: Db, code: ErrorCode)
    ensures Sweeps.AfterMore(made, (db, Err(code))) == (db, Err(code))
  {
  }

  lemma MadeSoFar(made: Sweeps.TickResult, one: Sweeps.TickResult, rest: (Db, Outcome<Sweeps.TickResult>))
    ensures Sweeps.AfterMore(made, Sweeps.AfterMore(one, rest))
            == Sweeps.AfterMore(Sweeps.TickResult(made.processed + one.processed, made.recreated + one.recreated), rest)
  {
  }

  lemma MadeAll(made: Sweeps.TickResult, db: Db)
    ensures Sweeps.AfterMore(made, (db, Ok(Sweeps.TickResult(0, 0)))) == (db, Ok(made))
  {
  }

  lemma SweepNothing(db: Db, clocks: seq<Time>, principal: Principal, ids: seq<nat>)
    requires ForeignKeys(db) && |clocks| == |ids| == 0
    ensures Sweeps.Sweep(db, clocks, principal, ids) == (db, Ok(Sweeps.TickResult(0, 0)))
  {
  }

  lemma SweepStep(db: Db, clocks: seq<Time>, principal: Principal, ids: seq<nat>)
    requires ForeignKeys(db) && |clocks| == |ids| > 0
    ensures var (after, done) := ApprovalStore.ReconcileOne(db, clocks[0], principal, ids[0]);
            && ForeignKeys(after)
            && Sweeps.Sweep(db, clocks, principal, ids) ==
               if done.Err? then (after, Err(done.code))
               else Sweeps.AfterMore(Sweeps.Counted(done.value), Sweeps.Sweep(after, clocks[1..], principal, ids[1..]))
  {
    hide ApprovalStore.ReconcileOne;
    var more := Sweeps.Sweep(db, clocks, principal, ids);
    ForeignKeysAfter(db, clocks[0], principal, ids[0]);
  }

  lemma ForeignKeysAfter(db: Db, now: Time, principal: Principal, id: nat)
    requires ForeignKeys(db)
    ensures ForeignKeys(ApprovalStore.ReconcileOne(db, now, principal, id).0)
  {
    hide ApprovalStore.ReconcileOne, RetryOf, KeyTaken, LogOf, LogGain;
    var effect := ReconcileEffect(db, now, principal, id);
  }
}
