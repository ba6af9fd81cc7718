/** What a transaction can do to requests, decisions and lifecycle events. Every command
    has exactly one of six effects, and an effect says nothing about idempotency keys,
    permissions or trigger texts: the invariants of the tables are proved effect by
    effect. */
module ApprovalEffects {
  import opened Policy
  import opened Evaluator
  import opened ApprovalStore

  datatype Effect =
    | NoRows
    | Inserted(request: Request)
    | Ended(id: nat, status: Status, now: Time)
    | EndedAndInserted(id: nat, status: Status, now: Time, request: Request)
    | Voted(decision: Decision)
    | VotedAndEnded(decision: Decision, verdict: Verdict, now: Time)

  // ---------------------------------------------------------------- lifecycle log

  /** The kinds of event recorded for one request, in order. */
  function LogOf(events: seq<Event>, id: nat): seq<EventKind> {
    if events == [] then []
    else
      var last := events[|events| - 1];
      LogOf(events[..|events| - 1], id) + if last.requestId == id then [last.kind] else []
  }

  lemma LogAppend(events: seq<Event>, e: Event, id: nat)
    ensures LogOf(events + [e], id) == LogOf(events, id) + if e.requestId == id then [e.kind] else []
  {
    assert (events + [e])[..|events|] == events;
  }

  // ---------------------------------------------------------------- effects on rows

  function Close(request: Request, status: Status, now: Time): Request {
    request.(status := status, resolvedAt := Some(now))
  }

  /** `s` is `r`, or `r` closed if it was pending. */
  predicate RowLater(r: Request, s: Request) {
    && s.(status := r.status, resolvedAt := r.resolvedAt) == r
    && (r.status != PENDING ==> s == r)
  }

  ghost predicate InRange(db: Db, effect: Effect) {
    match effect
    case NoRows => true
    case Inserted(_) => true
    case Ended(id, _, _) => id < |db.requests|
    case EndedAndInserted(id, _, _, _) => id < |db.requests|
    case Voted(d) => d.requestId < |db.requests|
    case VotedAndEnded(d, _, _) => d.requestId < |db.requests|
  }

  ghost function RequestsAfter(db: Db, effect: Effect): seq<Request>
    requires InRange(db, effect)
  {
    match effect
    case NoRows => db.requests
    case Inserted(r) => db.requests + [r]
    case Ended(id, status, now) => db.requests[id := Close(db.requests[id], status, now)]
    case EndedAndInserted(id, status, now, r) => db.requests[id := Close(db.requests[id], status, now)] + [r]
    case Voted(_) => db.requests
    case VotedAndEnded(d, v, now) =>
      db.requests[d.requestId := Close(db.requests[d.requestId], Evaluated(v), now)]
  }

  function DecisionsAfter(db: Db, effect: Effect): seq<Decision> {
    match effect
    case Voted(d) => db.decisions + [d]
    case VotedAndEnded(d, _, _) => db.decisions + [d]
    case _ => db.decisions
  }

  function LogGain(db: Db, effect: Effect, id: nat): seq<EventKind> {
    match effect
    case NoRows => []
    case Inserted(_) => if id == |db.requests| then [RequestCreated] else []
    case Ended(i, status, _) => if id == i then [RequestResolved(status)] else []
    case EndedAndInserted(i, status, _, _) =>
      if id == |db.requests| then [RequestCreated] else if id == i then [RequestResolved(status)] else []
    case Voted(_) => []
    case VotedAndEnded(d, v, _) => if id == d.requestId then [RequestResolved(Evaluated(v))] else []
  }

  /** `after` is `db` changed by `effect`, up to idempotency rows and activations. */
  ghost predicate Results(db: Db, effect: Effect, after: Db) {
    && InRange(db, effect)
    && after.policies == db.policies
    && after.requests == RequestsAfter(db, effect)
    && after.decisions == DecisionsAfter(db, effect)
    && (forall id :: LogOf(after.events, id) == LogOf(db.events, id) + LogGain(db, effect, id))
    && db.events <= after.events
  }

  // ---------------------------------------------------------------- which effects are legal

  function DefinitionOf(db: Db, id: nat): PolicyDefinition
    requires ForeignKeys(db) && id < |db.requests|
  {
    db.policies[db.requests[id].policyId].definition
  }

  ghost predicate IsOpen(db: Db, id: nat) {
    id < |db.requests| && db.requests[id].status == PENDING
  }

  /** A request as every insert makes it. */
  ghost predicate NewRow(db: Db, r: Request) {
    && r.policyId in db.policies && db.policies[r.policyId].definition.Valid()
    && r.status == PENDING && r.resolvedAt.None?
    && (r.triggerKey.Some? ==> !KeyTaken(db.requests, r.triggerKey.value))
  }

  /** A request that starts a chain: created by a human, or for an observed head. */
  ghost predicate FirstOfChain(r: Request) {
    && r.autoRetryCount == 0
    && (r.triggerKey.None? <==> r.source == ByHuman)
    && (r.triggerKey.Some? ==> exists head :: IsRequestFor(r, head))
  }

  /** The key and the target are those of the head. */
  predicate IsRequestFor(r: Request, head: Head) {
    r.triggerKey == Some(MissionKey(head)) && r.target == TriggerTarget(head)
  }

  /** The successor that replaces the expired request `id`. */
  ghost predicate RetryOf(db: Db, id: nat, now: Time, r: Request)
    requires ForeignKeys(db)
  {
    && id < |db.requests|
    && (var was := db.requests[id];
       && Overdue(was, now) && DefinitionOf(db, id).Valid()
       && RetriesLeft(was, DefinitionOf(db, id)) && Ttl(was) > 0
       && r.policyId == was.policyId && r.target == was.target && r.source == BySystem
       && r.autoRetryCount == was.autoRetryCount + 1
       && r.triggerKey == Some(NextRecreateTriggerKey(was, id))
       && r.supersedes == Some(id)
       && r.createdAt == now && r.expiresAt == Some(now + Ttl(was)))
  }

  /** A vote that its request accepts: a first vote, or one replacing the caller's own
      effective one. */
  ghost predicate Castable(db: Db, d: Decision)
    requires ForeignKeys(db)
  {
    && IsOpen(db, d.requestId) && DefinitionOf(db, d.requestId).Valid()
    && (match d.supersedes
       case None => !HasVoted(db, d.requestId, d.principal)
       case Some(k) =>
         && k in EffectiveDecisions(db.decisions, d.requestId)
         && db.decisions[k].principal == d.principal)
  }

  ghost function EvaluationAfter(db: Db, d: Decision): Evaluation
    requires ForeignKeys(db) && IsOpen(db, d.requestId) && DefinitionOf(db, d.requestId).Valid()
  {
    Evaluate(DefinitionOf(db, d.requestId), CurrentVotes(AddDecision(db, d), d.requestId))
  }

  ghost predicate Legal(db: Db, effect: Effect)
    requires ForeignKeys(db)
  {
    match effect
    case NoRows => true
    case Inserted(r) => NewRow(db, r) && FirstOfChain(r)
    case Ended(id, status, now) =>
      && IsOpen(db, id)
      && (status == Superseded || (status == Expired && Overdue(db.requests[id], now)))
    case EndedAndInserted(id, status, now, r) =>
      && IsOpen(db, id) && NewRow(db, r)
      && if status == Expired then RetryOf(db, id, now, r) else status == Superseded && FirstOfChain(r)
    case Voted(d) => Castable(db, d) && EvaluationAfter(db, d).status == Pending
    case VotedAndEnded(d, v, _) => Castable(db, d) && v == EvaluationAfter(db, d).status && v != Pending
  }

  // ---------------------------------------------------------------- every command has a legal effect

  lemma InsertResults(db: Db, r: Request, detail: Detail, now: Time)
    ensures Results(db, Inserted(r), AddRequest(db, r, detail, now))
  {
    forall id ensures LogOf(AddRequest(db, r, detail, now).events, id) ==
                      LogOf(db.events, id) + LogGain(db, Inserted(r), id) {
      LogAppend(db.events, Event(|db.requests|, RequestCreated, Some(r.createdBy), detail, now), id);
    }
  }

  lemma ResolveResults(db: Db, id: nat, status: Status, now: Time, actor: Option<nat>, detail: Detail)
    requires id < |db.requests|
    ensures Results(db, Ended(id, status, now), Resolve(db, id, status, now, actor, detail))
  {
    forall i ensures LogOf(Resolve(db, id, status, now, actor, detail).events, i) ==
                     LogOf(db.events, i) + LogGain(db, Ended(id, status, now), i) {
      LogAppend(db.events, Event(id, RequestResolved(status), actor, detail, now), i);
    }
  }

  lemma NoRowsResults(db: Db)
    ensures Results(db, NoRows, db)
  {
  }

  lemma CreateEffect(db: Db, now: Time, principal: Principal, policyKey: string, target: Target,
                     expiresAt: Option<Time>, key: string) returns (effect: Effect)
    requires ForeignKeys(db)
    ensures Legal(db, effect)
    ensures Results(db, effect, CreateApprovalRequest(db, now, principal, policyKey, target, expiresAt, key).0)
  {
    hide MissionKey, LogOf, RetryOf, Castable, EvaluationAfter;
    effect := NoRows;
    var (after, outcome) := CreateApprovalRequest(db, now, principal, policyKey, target, expiresAt, key);
    if |after.requests| > |db.requests| {
      var r := after.requests[|db.requests|];
      effect := Inserted(r);
      InsertResults(db, r, NoDetail, now);
    }
  }

  lemma FinalizeEffect(db: Db, reserved: Db, now: Time, d: Decision) returns (effect: Effect)
    requires ForeignKeys(db) && Castable(db, d)
    requires reserved == db.(operations := reserved.operations)
    ensures Legal(db, effect)
    ensures Results(db, effect, FinalizeDecision(reserved, now, DefinitionOf(db, d.requestId), d).0)
    ensures effect.Voted? || effect.VotedAndEnded?
    ensures FinalizeDecision(reserved, now, DefinitionOf(db, d.requestId), d).0.operations == reserved.operations
  {
    hide Evaluate, LogOf, MissionKey, RetryOf, FirstOfChain, EffectiveDecisions, VotesOf;
    var e := EvaluationAfter(db, d);
    assert CurrentVotes(AddDecision(db, d), d.requestId) == CurrentVotes(AddDecision(reserved, d), d.requestId);
    if e.status != Pending {
      effect := VotedAndEnded(d, e.status, now);
      var actor, detail := Some(d.principal), Decided(e.quorumSatisfied, e.missionEffect, e.reason);
      ResolveResults(AddDecision(reserved, d), d.requestId, Evaluated(e.status), now, actor, detail);
    } else {
      effect := Voted(d);
      PendingMeansNoQuorum(DefinitionOf(db, d.requestId), CurrentVotes(AddDecision(db, d), d.requestId));
    }
  }

  lemma PendingMeansNoQuorum(policy: PolicyDefinition, votes: seq<EffectiveDecision>)
    requires policy.Valid() && Evaluate(policy, votes).status == Pending
    ensures !Evaluate(policy, votes).quorumSatisfied
  {
    hide Evaluate;
    if Evaluate(policy, votes).quorumSatisfied { QuorumDecides(policy, votes); }
  }

  lemma SubmitEffect(db: Db, now: Time, principal: Principal, requestId: nat, vote: Vote, reason: Option<string>,
                     key: string) returns (effect: Effect)
    requires ForeignKeys(db)
    ensures Legal(db, effect)
    ensures Results(db, effect, SubmitDecision(db, now, principal, requestId, vote, reason, key).0)
    ensures effect.NoRows? || effect.Voted? || effect.VotedAndEnded?
  {
    hide FinalizeDecision;
    effect := NoRows;
    var opKey := OpKey(key, principal.id, SubmitScope);
    var payload := SubmitPayload(requestId, vote, reason);
    var (after, outcome) := SubmitDecision(db, now, principal, requestId, vote, reason, key);
    if outcome.Ok? && opKey !in db.operations {
      var d := Decision(requestId, principal.id, vote, reason, principal.roles, principal.trust, now, None);
      effect := FinalizeEffect(db, SetOperation(db, opKey, Operation(payload, NotYet)), now, d);
    }
  }

  lemma SupersedeEffect(db: Db, now: Time, principal: Principal, requestId: nat, decisionId: nat, vote: Vote,
                        reason: Option<string>, key: string) returns (effect: Effect)
    requires ForeignKeys(db)
    ensures Legal(db, effect)
    ensures Results(db, effect, SupersedeDecision(db, now, principal, requestId, decisionId, vote, reason, key).0)
    ensures effect.NoRows? || effect.Voted? || effect.VotedAndEnded?
  {
    hide FinalizeDecision;
    effect := NoRows;
    var opKey := OpKey(key, principal.id, SupersedeScope);
    var payload := SupersedePayload(requestId, decisionId, vote, reason);
    var (after, outcome) := SupersedeDecision(db, now, principal, requestId, decisionId, vote, reason, key);
    if outcome.Ok? && opKey !in db.operations {
      var d := Decision(requestId, principal.id, vote, reason, principal.roles, principal.trust, now, Some(decisionId));
      effect := FinalizeEffect(db, SetOperation(db, opKey, Operation(payload, NotYet)), now, d);
    }
  }

  /** What an insert for a head comes to: the predecessor, if any, is closed, and a row is
      added exactly when the key is free. */
  ghost predicate HeadOutcome(db: Db, effect: Effect, now: Time, head: Head, supersedes: Option<nat>,
                              predecessor: Option<nat>)
  {
    match effect
    case NoRows => true
    case Inserted(r) => predecessor.None? && HeadRow(db, r, now, head, supersedes)
    case Ended(id, status, _) =>
      predecessor == Some(id) && status == Superseded && KeyTaken(db.requests, MissionKey(head))
    case EndedAndInserted(id, status, _, r) =>
      predecessor == Some(id) && status == Superseded && HeadRow(db, r, now, head, supersedes)
    case _ => false
  }

  ghost predicate HeadRow(db: Db, r: Request, now: Time, head: Head, supersedes: Option<nat>) {
    && !KeyTaken(db.requests, MissionKey(head))
    && r.status == PENDING && r.triggerKey == Some(MissionKey(head)) && r.target == TriggerTarget(head)
    && r.createdAt == now && r.supersedes == supersedes
  }

  /** An insert for an observed head, with or without a predecessor to close. */
  lemma HeadEffect(db: Db, now: Time, principal: Principal, policyId: nat, ttl: int, head: Head,
                   supersedes: Option<nat>, predecessor: Option<nat>) returns (effect: Effect)
    requires ForeignKeys(db) && policyId in db.policies && db.policies[policyId].definition.Valid()
    requires predecessor.Some? ==> IsOpen(db, predecessor.value)
    ensures Legal(db, effect)
    ensures Results(db, effect,
              CreateSystemRequest(db, now, principal, policyId, TriggerTarget(head), Some(now + ttl), MissionKey(head),
                                  supersedes, predecessor, 0).0)
    ensures HeadOutcome(db, effect, now, head, supersedes, predecessor)
    ensures effect == NoRows
            && CreateSystemRequest(db, now, principal, policyId, TriggerTarget(head), Some(now + ttl), MissionKey(head),
                                   supersedes, predecessor, 0).1.Ok? ==>
              predecessor.None? && KeyTaken(db.requests, MissionKey(head))
  {
    hide MissionKey, TriggerTarget, LogOf, NextRecreateTriggerKey, RetriesLeft;
    var (after, outcome) :=
      CreateSystemRequest(db, now, principal, policyId, TriggerTarget(head), Some(now + ttl), MissionKey(head),
                          supersedes, predecessor, 0);
    var key := MissionKey(head);
    if outcome.Err? {
      effect := NoRows;
    } else if predecessor.None? {
      if KeyTaken(db.requests, key) {
        effect := NoRows;
      } else {
        effect := Inserted(after.requests[|db.requests|]);
        assert IsRequestFor(after.requests[|db.requests|], head);
        InsertResults(db, after.requests[|db.requests|], CreatedByTrigger(key), now);
      }
    } else {
      var p := predecessor.value;
      var closed := Resolve(db, p, Superseded, now, Some(principal.id), NewerTrigger(key));
      ResolveResults(db, p, Superseded, now, Some(principal.id), NewerTrigger(key));
      SameKeys(db.requests, p, Superseded, now, key);
      if KeyTaken(closed.requests, key) {
        effect := Ended(p, Superseded, now);
      } else {
        var r := after.requests[|db.requests|];
        effect := EndedAndInserted(p, Superseded, now, r);
        assert IsRequestFor(r, head);
        InsertResults(closed, r, CreatedByTrigger(key), now);
      }
    }
  }

  lemma SameKeys(requests: seq<Request>, p: nat, status: Status, now: Time, key: string)
    requires p < |requests|
    ensures KeyTaken(requests[p := Close(requests[p], status, now)], key) <==> KeyTaken(requests, key)
  {
    var closed := requests[p := Close(requests[p], status, now)];
    assert forall i | 0 <= i < |requests| :: closed[i].triggerKey == requests[i].triggerKey;
  }

  lemma ReconcileEffect(db: Db, now: Time, principal: Principal, id: nat) returns (effect: Effect)
    requires ForeignKeys(db)
    ensures Legal(db, effect)
    ensures Results(db, effect, ReconcileOne(db, now, principal, id).0)
    ensures effect != NoRows <==>
        ReconcileOne(db, now, principal, id).1.Ok? && IsOpen(db, id) && Overdue(db.requests[id], now)
    ensures effect != NoRows ==> effect.Ended? || effect.EndedAndInserted?
    ensures effect != NoRows ==> effect.id == id && effect.status == Expired && effect.now == now
  {
    hide NextRecreateTriggerKey, LogOf, MissionKey, KeyTaken, DetailOfExpiration;
    effect := NoRows;
    var (after, outcome) := ReconcileOne(db, now, principal, id);
    if outcome.Ok? && outcome.value.Some? {
      var request := db.requests[id];
      var key := NextRecreateTriggerKey(request, id);
      var expired := SetStatus(db, id, Expired, now);
      var event := Event(id, RequestResolved(Expired), None, DetailOfExpiration(request, DefinitionOf(db, id)), now);
      SameKeys(db.requests, id, Expired, now, key);
      if outcome.value == Some(Recreated) && !KeyTaken(db.requests, key) {
        var r := after.requests[|db.requests|];
        effect := EndedAndInserted(id, Expired, now, r);
        var created := Event(|db.requests|, RequestCreated, Some(r.createdBy), CreatedByTrigger(key), now);
        forall i ensures LogOf(after.events, i) == LogOf(db.events, i) + LogGain(db, effect, i) {
          LogAppend(db.events, created, i);
          LogAppend(db.events + [created], event, i);
        }
      } else {
        effect := Ended(id, Expired, now);
        forall i ensures LogOf(after.events, i) == LogOf(db.events, i) + LogGain(db, effect, i) {
          LogAppend(db.events, event, i);
        }
      }
    }
  }

  lemma CommandEffect(db: Db, command: Command) returns (effect: Effect)
    requires ForeignKeys(db)
    ensures Legal(db, effect) && Results(db, effect, Apply(db, command))
  {
    hide MissionKey, TriggerTarget, Castable, RetryOf, NewRow, FirstOfChain, CreateSystemRequest, ReconcileOne,
         SubmitDecision, SupersedeDecision, CreateApprovalRequest, EvaluationAfter;
    match command {
      case Create(now, p, policyKey, target, expiresAt, key) =>
        effect := CreateEffect(db, now, p, policyKey, target, expiresAt, key);
      case Submit(now, p, id, vote, reason, key) =>
        effect := SubmitEffect(db, now, p, id, vote, reason, key);
      case Supersede(now, p, id, decisionId, vote, reason, key) =>
        effect := SupersedeEffect(db, now, p, id, decisionId, vote, reason, key);
      case Reconcile(now, p, id) =>
        effect := ReconcileEffect(db, now, p, id);
      case Trigger(now, p, ttl, head, supersedes) =>
        effect := NoRows;
        var policyId := LoadActivePolicy(db, TriggerPolicyKey());
        if policyId.Ok? { effect := HeadEffect(db, now, p, policyId.value, ttl, head, supersedes, None); }
      case NewHead(now, p, ttl, head, predecessor) =>
        effect := NoRows;
        var policyId := LoadActivePolicy(db, TriggerPolicyKey());
        if policyId.Ok? && IsOpen(db, predecessor) {
          effect := HeadEffect(db, now, p, policyId.value, ttl, head, Some(predecessor), Some(predecessor));
        }
      case Activate(_, _) =>
        effect := NoRows;
    }
  }
}
