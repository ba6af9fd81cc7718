/** The approval tables and, for every locked transaction of the approval service, the
    change it makes to them. A failing transaction rolls back: the tables it returns are
    the ones it was given. */
module ApprovalStore {
  import opened Policy
  import opened Evaluator
  import opened Text

  // ---------------------------------------------------------------- rows

  type Time = int

  /** A stored status is either what the evaluator last said or one of the two ways a
      request ends without a verdict. */
  datatype Status = Evaluated(verdict: Verdict) | Expired | Superseded

  const PENDING := Evaluated(Pending)

  datatype CreationSource = ByHuman | BySystem

  datatype Target = Target(scopeType: string, repo: string, cardKind: string, cardNumber: int,
                           actionKey: Option<string>)

  datatype Request = Request(
    policyId: nat,
    target: Target,
    createdBy: nat,
    source: CreationSource,
    status: Status,
    createdAt: Time,
    expiresAt: Option<Time>,
    resolvedAt: Option<Time>,
    supersedes: Option<nat>,
    triggerKey: Option<string>,
    autoRetryCount: nat)

  datatype Decision = Decision(
    requestId: nat,
    principal: nat,
    vote: Vote,
    reason: Option<string>,
    roles: set<string>,
    trust: string,
    createdAt: Time,
    supersedes: Option<nat>)

  datatype EventKind = RequestCreated | RequestResolved(status: Status) | QuorumReached

  datatype Detail =
    | NoDetail
    | CreatedByTrigger(key: string)
    | Decided(quorumSatisfied: bool, effect: Option<MissionEffect>, why: Reason)
    | QuorumDetail(why: Reason)
    | NewerTrigger(key: string)
    | ExpirationDetail(missionBlocked: bool, nonPositiveTtl: bool, retriesExhausted: bool)

  datatype Event = Event(requestId: nat, kind: EventKind, actor: Option<nat>, detail: Detail, at: Time)

  datatype Scope = CreateScope | SubmitScope | SupersedeScope
  datatype OpKey = OpKey(key: string, principal: nat, scope: Scope)

  datatype Payload =
    | CreatePayload(policyKey: string, target: Target, expiresAt: Option<Time>)
    | SubmitPayload(requestId: nat, vote: Vote, reason: Option<string>)
    | SupersedePayload(requestId: nat, decisionId: nat, vote: Vote, reason: Option<string>)

  /** What a command answers, and what its idempotency row keeps for a repeat. */
  datatype Reply =
    | NotYet
    | RequestReply(requestId: nat, policyKey: string, policyVersion: int, status: Status, createdBy: nat,
                   createdAt: Time, expiresAt: Option<Time>)
    | DecisionReply(requestId: nat, decisionId: nat, principal: nat, vote: Vote, reason: Option<string>,
                    status: Status, quorumSatisfied: bool, effect: Option<MissionEffect>, createdAt: Time)

  datatype Operation = Operation(payload: Payload, reply: Reply)

  datatype PolicyRow = PolicyRow(key: string, version: int, definition: PolicyDefinition)

  /** All tables. Request and decision identifiers are positions. */
  datatype Db = Db(
    policies: map<nat, PolicyRow>,
    activations: map<string, nat>,
    requests: seq<Request>,
    decisions: seq<Decision>,
    operations: map<OpKey, Operation>,
    events: seq<Event>)

  function EmptyDb(policies: map<nat, PolicyRow>): Db {
    Db(policies, map[], [], [], map[], [])
  }

  /** The foreign keys that the transactions rely on. */
  predicate ForeignKeys(db: Db) {
    && (forall i | 0 <= i < |db.requests| :: db.requests[i].policyId in db.policies)
    && (forall k | 0 <= k < |db.decisions| :: db.decisions[k].requestId < |db.requests|)
  }

  datatype Principal = Principal(id: nat, kind: PrincipalType, trust: string, roles: set<string>)

  datatype ErrorCode =
    | PrincipalNotHuman
    | PolicyNotFound
    | PolicyInvalid
    | PrincipalNotAuthorized
    | PrincipalTrustInsufficient
    | RequestNotFound
    | RequestNotOpen
    | DecisionNotFound
    | ApprovalDecisionExists
    | InvalidSupersede
    | KeyReusedWithDifferentPayload
    | TriggerKeyTooLong

  datatype Outcome<+T> = Ok(value: T) | Err(code: ErrorCode)

  // ---------------------------------------------------------------- primitive writes

  function AddEvent(db: Db, event: Event): Db {
    db.(events := db.events + [event])
  }

  function AddRequest(db: Db, request: Request, detail: Detail, now: Time): Db {
    AddEvent(db.(requests := db.requests + [request]),
             Event(|db.requests|, RequestCreated, Some(request.createdBy), detail, now))
  }

  function SetStatus(db: Db, id: nat, status: Status, now: Time): Db
    requires id < |db.requests|
  {
    db.(requests := db.requests[id := db.requests[id].(status := status, resolvedAt := Some(now))])
  }

  function Resolve(db: Db, id: nat, status: Status, now: Time, actor: Option<nat>, detail: Detail): Db
    requires id < |db.requests|
  {
    AddEvent(SetStatus(db, id, status, now), Event(id, RequestResolved(status), actor, detail, now))
  }

  function AddDecision(db: Db, decision: Decision): Db {
    db.(decisions := db.decisions + [decision])
  }

  function SetOperation(db: Db, key: OpKey, operation: Operation): Db {
    db.(operations := db.operations[key := operation])
  }

  // ---------------------------------------------------------------- idempotency

  datatype Reservation = Reserved(db: Db) | Replayed(reply: Reply) | KeyReused

  function ReserveOrGet(db: Db, key: OpKey, payload: Payload): Reservation {
    if key !in db.operations then Reserved(SetOperation(db, key, Operation(payload, NotYet)))
    else if db.operations[key].payload != payload then KeyReused
    else Replayed(db.operations[key].reply)
  }

  function FinalizeOperation(db: Db, key: OpKey, reply: Reply): Db
    requires key in db.operations
  {
    SetOperation(db, key, db.operations[key].(reply := reply))
  }

  // ---------------------------------------------------------------- policies and permissions

  function LoadActivePolicy(db: Db, key: string): Outcome<nat> {
    if key !in db.activations || db.activations[key] !in db.policies then Err(PolicyNotFound)
    else if !db.policies[db.activations[key]].definition.Valid() then Err(PolicyInvalid)
    else Ok(db.activations[key])
  }

  function AuthorizeDecision(principal: Principal, definition: PolicyDefinition): Option<ErrorCode> {
    if principal.kind !in definition.allowedTypes then Some(PrincipalNotAuthorized)
    else if !(exists r | r in definition.allowedRoles :: r in principal.roles) then Some(PrincipalNotAuthorized)
    else if definition.trustRequirements.Some? && |definition.trustRequirements.value| > 0
            && principal.trust !in definition.trustRequirements.value then Some(PrincipalTrustInsufficient)
    else None
  }

  function CanPrincipalDecide(principal: Principal, request: Request, definition: PolicyDefinition): bool {
    request.status == PENDING && principal.kind == Human && AuthorizeDecision(principal, definition).None?
  }

  // ---------------------------------------------------------------- effective decisions

  predicate IsSuperseded(decisions: seq<Decision>, requestId: nat, k: nat) {
    exists j | 0 <= j < |decisions| :: decisions[j].requestId == requestId && decisions[j].supersedes == Some(k)
  }

  predicate IsEffective(decisions: seq<Decision>, requestId: nat, k: nat) {
    k < |decisions| && decisions[k].requestId == requestId && !IsSuperseded(decisions, requestId, k)
  }

  function EffectiveBelow(decisions: seq<Decision>, requestId: nat, n: nat): (ids: seq<nat>)
    requires n <= |decisions|
    ensures forall k :: k in ids <==> 0 <= k < n && IsEffective(decisions, requestId, k)
  {
    if n == 0 then []
    else
      var before := EffectiveBelow(decisions, requestId, n - 1);
      if IsEffective(decisions, requestId, n - 1) then before + [n - 1] else before
  }

  function EffectiveDecisions(decisions: seq<Decision>, requestId: nat): (ids: seq<nat>)
    ensures forall k :: k in ids <==> 0 <= k && IsEffective(decisions, requestId, k)
  {
    EffectiveBelow(decisions, requestId, |decisions|)
  }

  function AsVote(decision: Decision): EffectiveDecision {
    EffectiveDecision(decision.principal, decision.vote, decision.roles, decision.trust)
  }

  function VotesOf(decisions: seq<Decision>, ids: seq<nat>): (votes: seq<EffectiveDecision>)
    requires forall k | k in ids :: k < |decisions|
    ensures |votes| == |ids|
  {
    seq(|ids|, i requires 0 <= i < |ids| => assert ids[i] in ids; AsVote(decisions[ids[i]]))
  }

  /** The votes that count on a request. */
  function CurrentVotes(db: Db, requestId: nat): seq<EffectiveDecision> {
    VotesOf(db.decisions, EffectiveDecisions(db.decisions, requestId))
  }

  predicate HasVoted(db: Db, requestId: nat, principal: nat) {
    exists k | k in EffectiveDecisions(db.decisions, requestId) :: db.decisions[k].principal == principal
  }

  // ---------------------------------------------------------------- commands of a human

  function ResultOf(request: Request, id: nat, policy: PolicyRow): Reply {
    RequestReply(id, policy.key, policy.version, request.status, request.createdBy, request.createdAt,
                 request.expiresAt)
  }

  function CreateApprovalRequest(db: Db, now: Time, principal: Principal, policyKey: string, target: Target,
                                 expiresAt: Option<Time>, idempotencyKey: string): (Db, Outcome<Reply>)
  {
    var key := OpKey(idempotencyKey, principal.id, CreateScope);
    if principal.kind != Human then (db, Err(PrincipalNotHuman))
    else
      match ReserveOrGet(db, key, CreatePayload(policyKey, target, expiresAt))
      case Replayed(reply) => (db, Ok(reply))
      case KeyReused => (db, Err(KeyReusedWithDifferentPayload))
      case Reserved(reserved) =>
        match LoadActivePolicy(reserved, policyKey)
        case Err(code) => (db, Err(code))
        case Ok(policyId) =>
          var policy := reserved.policies[policyId];
          if principal.kind !in policy.definition.allowedTypes then (db, Err(PrincipalNotAuthorized))
          else
            var request := Request(policyId, target, principal.id, ByHuman, PENDING, now, expiresAt, None, None, None,
                                   0);
            var reply := ResultOf(request, |db.requests|, policy);
            (FinalizeOperation(AddRequest(reserved, request, NoDetail, now), key, reply), Ok(reply))
  }

  /** Store a decision, evaluate the request afresh and record what that settles. */
  ghost function FinalizeDecision(db: Db, now: Time, definition: PolicyDefinition, decision: Decision): (Db, Reply)
    requires definition.Valid() && decision.requestId < |db.requests|
  {
    var id := decision.requestId;
    var stored := AddDecision(db, decision);
    var e := Evaluate(definition, CurrentVotes(stored, id));
    var settled :=
      if e.status != Pending && db.requests[id].status == PENDING then
        Resolve(stored, id, Evaluated(e.status), now, Some(decision.principal),
                Decided(e.quorumSatisfied, e.missionEffect, e.reason))
      else if e.quorumSatisfied then
        AddEvent(stored, Event(id, QuorumReached, Some(decision.principal), QuorumDetail(e.reason), now))
      else stored;
    (settled,
     DecisionReply(id, |db.decisions|, decision.principal, decision.vote, decision.reason,
                   settled.requests[id].status, e.quorumSatisfied, e.missionEffect, now))
  }

  ghost function SubmitDecision(db: Db, now: Time, principal: Principal, requestId: nat, vote: Vote,
                                reason: Option<string>, idempotencyKey: string): (Db, Outcome<Reply>)
    requires ForeignKeys(db)
  {
    var key := OpKey(idempotencyKey, principal.id, SubmitScope);
    if principal.kind != Human then (db, Err(PrincipalNotHuman))
    else if requestId >= |db.requests| then (db, Err(RequestNotFound))
    else
      match ReserveOrGet(db, key, SubmitPayload(requestId, vote, reason))
      case Replayed(reply) => (db, Ok(reply))
      case KeyReused => (db, Err(KeyReusedWithDifferentPayload))
      case Reserved(reserved) =>
        var request := db.requests[requestId];
        var definition := db.policies[request.policyId].definition;
        if request.status != PENDING then (db, Err(RequestNotOpen))
        else if !definition.Valid() then (db, Err(PolicyInvalid))
        else if AuthorizeDecision(principal, definition).Some? then
          (db, Err(AuthorizeDecision(principal, definition).value))
        else if HasVoted(db, requestId, principal.id) then (db, Err(ApprovalDecisionExists))
        else
          var decision := Decision(requestId, principal.id, vote, reason, principal.roles, principal.trust, now, None);
          var (settled, reply) := FinalizeDecision(reserved, now, definition, decision);
          (FinalizeOperation(settled, key, reply), Ok(reply))
  }

  ghost function SupersedeDecision(db: Db, now: Time, principal: Principal, requestId: nat, decisionId: nat, vote: Vote,
                                   reason: Option<string>, idempotencyKey: string): (Db, Outcome<Reply>)
    requires ForeignKeys(db)
  {
    var key := OpKey(idempotencyKey, principal.id, SupersedeScope);
    if principal.kind != Human then (db, Err(PrincipalNotHuman))
    else if requestId >= |db.requests| then (db, Err(RequestNotFound))
    else
      match ReserveOrGet(db, key, SupersedePayload(requestId, decisionId, vote, reason))
      case Replayed(reply) => (db, Ok(reply))
      case KeyReused => (db, Err(KeyReusedWithDifferentPayload))
      case Reserved(reserved) =>
        var request := db.requests[requestId];
        var definition := db.policies[request.policyId].definition;
        if request.status != PENDING then (db, Err(RequestNotOpen))
        else if decisionId >= |db.decisions| || db.decisions[decisionId].requestId != requestId then
          (db, Err(DecisionNotFound))
        else if db.decisions[decisionId].principal != principal.id then (db, Err(InvalidSupersede))
        else if decisionId !in EffectiveDecisions(db.decisions, requestId) then (db, Err(InvalidSupersede))
        else if !definition.Valid() then (db, Err(PolicyInvalid))
        else if AuthorizeDecision(principal, definition).Some? then
          (db, Err(AuthorizeDecision(principal, definition).value))
        else
          var decision :=
            Decision(requestId, principal.id, vote, reason, principal.roles, principal.trust, now, Some(decisionId));
          var (settled, reply) := FinalizeDecision(reserved, now, definition, decision);
          (FinalizeOperation(settled, key, reply), Ok(reply))
  }

  // ---------------------------------------------------------------- system-created requests

  predicate KeyTaken(requests: seq<Request>, key: string) {
    exists i | 0 <= i < |requests| :: requests[i].triggerKey == Some(key)
  }

  function FindKey(requests: seq<Request>, key: string): (id: nat)
    requires KeyTaken(requests, key)
    ensures id < |requests| && requests[id].triggerKey == Some(key)
  {
    if requests[0].triggerKey == Some(key) then 0 else 1 + FindKey(requests[1..], key)
  }

  function RecreatePrefix(): string { "recreate:" }

  /** A trigger key without its retry mark. */
  function BaseOf(key: string): string {
    if StartsWith(key, RecreatePrefix()) then RecreatePrefix() + Before(key[|RecreatePrefix()|..], ['|'])
    else Before(key, RetryMark())
  }

  /** The part of a trigger key that all retries of a request share. */
  function KeyBase(request: Request, id: nat): string {
    match request.triggerKey
    case None => RecreatePrefix() + Decimal(id)
    case Some(key) => BaseOf(key)
  }

  function NextRecreateTriggerKey(request: Request, id: nat): string {
    KeyBase(request, id) + RetryMark() + Decimal(request.autoRetryCount + 1)
  }

  /** Insert a system-created request, first closing `predecessor` when there is one. If
      the trigger key is already in use nothing is inserted, but a predecessor closed on
      the way stays closed. */
  function CreateSystemRequest(db: Db, now: Time, principal: Principal, policyId: nat, target: Target,
                               expiresAt: Option<Time>, triggerKey: string, supersedes: Option<nat>,
                               predecessor: Option<nat>, autoRetryCount: nat): (Db, Outcome<Reply>)
    requires policyId in db.policies
    requires predecessor.Some? ==> predecessor.value < |db.requests|
  {
    var policy := db.policies[policyId];
    if principal.kind != System then (db, Err(PrincipalNotAuthorized))
    else if System !in policy.definition.allowedTypes then (db, Err(PrincipalNotAuthorized))
    else
      var closed :=
        match predecessor
        case None => db
        case Some(p) => Resolve(db, p, Superseded, now, Some(principal.id), NewerTrigger(triggerKey));
      if KeyTaken(closed.requests, triggerKey) then
        var id := FindKey(closed.requests, triggerKey);
        (closed, Ok(ResultOf(closed.requests[id], id, policy)))
      else
        var request := Request(policyId, target, principal.id, BySystem, PENDING, now, expiresAt, None, supersedes,
                               Some(triggerKey), autoRetryCount);
        (AddRequest(closed, request, CreatedByTrigger(triggerKey), now),
         Ok(ResultOf(request, |closed.requests|, policy)))
  }

  // ---------------------------------------------------------------- expiration

  datatype Reconciled = PlainlyExpired | Recreated

  predicate Overdue(request: Request, now: Time) {
    request.status == PENDING && request.expiresAt.Some? && request.expiresAt.value <= now
  }

  function Ttl(request: Request): int
    requires request.expiresAt.Some?
  {
    request.expiresAt.value - request.createdAt
  }

  predicate RetriesLeft(request: Request, definition: PolicyDefinition)
    requires definition.Valid()
  {
    definition.expiration.behavior == Recreate && request.autoRetryCount < definition.expiration.maxAutoRetries.value
  }

  function DetailOfExpiration(request: Request, definition: PolicyDefinition): Detail
    requires definition.Valid() && request.expiresAt.Some?
  {
    ExpirationDetail(
      definition.expiration.behavior == BlockOnExpiry,
      RetriesLeft(request, definition) && Ttl(request) <= 0,
      definition.expiration.behavior == Recreate && !RetriesLeft(request, definition))
  }

  /** Lock, recheck and expire one request, and create its successor when the policy
      still allows one. */
  function ReconcileOne(db: Db, now: Time, principal: Principal, id: nat): (Db, Outcome<Option<Reconciled>>)
    requires ForeignKeys(db)
  {
    if id >= |db.requests| || !Overdue(db.requests[id], now) then (db, Ok(None))
    else
      var request := db.requests[id];
      var definition := db.policies[request.policyId].definition;
      if !definition.Valid() then (db, Err(PolicyInvalid))
      else
        var event := Event(id, RequestResolved(Expired), None, DetailOfExpiration(request, definition), now);
        var expired := SetStatus(db, id, Expired, now);
        if RetriesLeft(request, definition) && Ttl(request) > 0 then
          var (recreated, outcome) :=
            CreateSystemRequest(expired, now, principal, request.policyId, request.target, Some(now + Ttl(request)),
                                NextRecreateTriggerKey(request, id), Some(id), None, request.autoRetryCount + 1);
          if outcome.Err? then (db, Err(outcome.code))
          else (AddEvent(recreated, event), Ok(Some(Recreated)))
        else (AddEvent(expired, event), Ok(Some(PlainlyExpired)))
  }

  // ---------------------------------------------------------------- triggers

  /** Owner and repository names and commit hashes contain no bar. */
  type Name = s: string | BarFree(s) witness ""

  datatype Head = Head(owner: Name, repo: Name, number: int, sha: Name)

  function TriggerPolicyKey(): string { "implementation_review" }
  function TriggerActionKey(): string { "implementation_review" }
  function TriggerTarget(head: Head): Target {
    Target("action", head.owner + "/" + head.repo, "pull_request", head.number, Some(TriggerActionKey()))
  }

  const TRIGGER_KEY_MAX_LENGTH := 512

  function MissionKey(head: Head): string {
    "mission:" + head.owner + "/" + head.repo + "#" + IntText(head.number)
    + "|action:" + TriggerActionKey() + "|head:" + head.sha
  }

  /** Insert a request for a head, in a transaction of its own. */
  function CreateTriggerRequest(db: Db, now: Time, principal: Principal, ttl: int, head: Head, supersedes: Option<nat>)
    : (Db, Outcome<Reply>)
  {
    match LoadActivePolicy(db, TriggerPolicyKey())
    case Err(code) => (db, Err(code))
    case Ok(policyId) =>
      CreateSystemRequest(db, now, principal, policyId, TriggerTarget(head), Some(now + ttl), MissionKey(head),
                          supersedes, None, 0)
  }

  /** Close a predecessor that is still pending and insert its successor, both or neither. */
  function SupersedeForNewHead(db: Db, now: Time, principal: Principal, ttl: int, head: Head, predecessor: nat)
    : (Db, Outcome<Reply>)
    requires predecessor < |db.requests|
  {
    match LoadActivePolicy(db, TriggerPolicyKey())
    case Err(code) => (db, Err(code))
    case Ok(policyId) =>
      CreateSystemRequest(db, now, principal, policyId, TriggerTarget(head), Some(now + ttl), MissionKey(head),
                          Some(predecessor), Some(predecessor), 0)
  }

  datatype Observed = NothingToDo | TriggerCreated | TriggerSuperseded

  function Reported(step: (Db, Outcome<Reply>), observed: Observed): (Db, Outcome<Observed>) {
    (step.0, match step.1 case Ok(_) => Ok(observed) case Err(code) => Err(code))
  }

  /** React to the head of a pull request, given the newest request seen for it. */
  function EvaluateOnePr(db: Db, now: Time, principal: Principal, ttl: int, head: Head, latest: Option<nat>)
    : (Db, Outcome<Observed>)
    requires latest.Some? ==> latest.value < |db.requests|
  {
    if |MissionKey(head)| > TRIGGER_KEY_MAX_LENGTH then (db, Err(TriggerKeyTooLong))
    else
      match latest
      case None => Reported(CreateTriggerRequest(db, now, principal, ttl, head, None), TriggerCreated)
      case Some(id) =>
        var request := db.requests[id];
        if request.triggerKey == Some(MissionKey(head)) then
          if request.status == PENDING then (db, Ok(NothingToDo))
          else Reported(CreateTriggerRequest(db, now, principal, ttl, head, request.supersedes), NothingToDo)
        else if request.status != PENDING then
          Reported(CreateTriggerRequest(db, now, principal, ttl, head, Some(id)), TriggerCreated)
        else Reported(SupersedeForNewHead(db, now, principal, ttl, head, id), TriggerSuperseded)
  }

  // ---------------------------------------------------------------- runs

  /** One committed transaction. The two trigger commands stand apart because an
      observation may be stale by the time its transaction runs: they take any
      predecessor, and a locked one is rechecked. */
  datatype Command =
    | Create(now: Time, principal: Principal, policyKey: string, target: Target, expiresAt: Option<Time>, key: string)
    | Submit(now: Time, principal: Principal, requestId: nat, vote: Vote, reason: Option<string>, key: string)
    | Supersede(now: Time, principal: Principal, requestId: nat, decisionId: nat, vote: Vote, reason: Option<string>,
                key: string)
    | Reconcile(now: Time, principal: Principal, requestId: nat)
    | Trigger(now: Time, principal: Principal, ttl: int, head: Head, supersedes: Option<nat>)
    | NewHead(now: Time, principal: Principal, ttl: int, head: Head, predecessor: nat)
    | Activate(policyKey: string, policyId: nat)

  ghost function Apply(db: Db, command: Command): Db
    requires ForeignKeys(db)
  {
    match command
    case Create(now, p, policyKey, target, expiresAt, key) =>
      CreateApprovalRequest(db, now, p, policyKey, target, expiresAt, key).0
    case Submit(now, p, id, vote, reason, key) => SubmitDecision(db, now, p, id, vote, reason, key).0
    case Supersede(now, p, id, decisionId, vote, reason, key) =>
      SupersedeDecision(db, now, p, id, decisionId, vote, reason, key).0
    case Reconcile(now, p, id) => ReconcileOne(db, now, p, id).0
    case Trigger(now, p, ttl, head, supersedes) => CreateTriggerRequest(db, now, p, ttl, head, supersedes).0
    case NewHead(now, p, ttl, head, predecessor) =>
      if predecessor < |db.requests| && db.requests[predecessor].status == PENDING then
        SupersedeForNewHead(db, now, p, ttl, head, predecessor).0
      else db
    case Activate(policyKey, policyId) =>
      if policyId in db.policies && db.policies[policyId].key == policyKey then
        db.(activations := db.activations[policyKey := policyId])
      else db
  }
}
