/** Automatic triggers: at most one request per pull request is pending and it is the
    newest, and exactly when an observation leaves one pending. */
module TriggerSafety {
  import opened Policy
  import opened Evaluator
  import opened Text
  import opened ApprovalStore
  import opened ApprovalEffects
  import opened ApprovalInvariants
  import opened RetryChain
  import opened ApprovalRuns
  import opened TriggerSteps

  // ---------------------------------------------------------------- the lookup

  /** What the lookup returns: a most recently created row for the subject, if any. Rows
      created at the same instant may come in either order. */
  ghost predicate IsNewest(db: Db, head: Head, latest: Option<nat>) {
    match latest
    case None => forall i | 0 <= i < |db.requests| :: !SameSubject(db.requests[i].target, TriggerTarget(head))
    case Some(k) =>
      && k < |db.requests| && SameSubject(db.requests[k].target, TriggerTarget(head))
      && forall i | 0 <= i < |db.requests| && SameSubject(db.requests[i].target, TriggerTarget(head)) ::
           db.requests[i].createdAt <= db.requests[k].createdAt
  }

  // ---------------------------------------------------------------- disciplined runs

  /** A transaction, or a whole trigger observation taken as one step. */
  datatype Action =
    | Do(command: Command)
    | Observe(now: Time, principal: Principal, ttl: int, head: Head, latest: Option<nat>)

  ghost function Perform(db: Db, action: Action): Db
    requires ForeignKeys(db)
  {
    match action
    case Do(command) => Apply(db, command)
    case Observe(now, p, ttl, head, latest) =>
      if latest.Some? && latest.value >= |db.requests| then db
      else EvaluateOnePr(db, now, p, ttl, head, latest).0
  }

  /** Observations act atomically on what they look up, creation times increase, and no other
      transaction doubles a pending request. */
  ghost predicate Disciplined(db: Db, action: Action) {
    match action
    case Do(command) => Timely(db, command) && !Doubles(db, command)
    case Observe(now, _, _, head, latest) => ClockAhead(db, now) && IsNewest(db, head, latest)
  }

  // ---------------------------------------------------------------- what an observation does

  /** Which rows an observation may touch, case by case. */
  ghost predicate ObservationOutcome(db: Db, effect: Effect, now: Time, head: Head, latest: Option<nat>) {
    var open := latest.Some? && IsOpen(db, latest.value);
    match effect
    case NoRows => true
    case Inserted(r) => !open && HeadRow(db, r, now, head, latest)
    case Ended(id, status, _) =>
      open && latest == Some(id) && status == Superseded && KeyTaken(db.requests, MissionKey(head))
      && db.requests[id].triggerKey != Some(MissionKey(head))
    case EndedAndInserted(id, status, _, r) =>
      open && latest == Some(id) && status == Superseded && HeadRow(db, r, now, head, latest)
    case _ => false
  }

  lemma ObserveEffect(db: Db, now: Time, p: Principal, ttl: int, head: Head, latest: Option<nat>)
    returns (effect: Effect)
    requires ForeignKeys(db) && (latest.Some? ==> latest.value < |db.requests|)
    ensures Legal(db, effect) && Results(db, effect, EvaluateOnePr(db, now, p, ttl, head, latest).0)
    ensures ObservationOutcome(db, effect, now, head, latest)
    ensures EvaluateOnePr(db, now, p, ttl, head, latest).1.Ok? && effect == NoRows ==>
              if latest.Some? && IsOpen(db, latest.value) then
                  db.requests[latest.value].triggerKey == Some(MissionKey(head))
              else KeyTaken(db.requests, MissionKey(head))
  {
    hide MissionKey, TriggerTarget, CreateSystemRequest, RetryOf, FirstOfChain, Castable, Results, NewRow,
         EvaluationAfter, TriggerPolicyKey;
    NoRowsResults(db);
    effect := NoRows;
    var policyId := LoadActivePolicy(db, TriggerPolicyKey());
    if |MissionKey(head)| <= TRIGGER_KEY_MAX_LENGTH && policyId.Ok? {
      var open := latest.Some? && IsOpen(db, latest.value);
      if open && db.requests[latest.value].triggerKey != Some(MissionKey(head)) {
        effect := HeadEffect(db, now, p, policyId.value, ttl, head, latest, latest);
      } else if !open {
        var replay := latest.Some? && db.requests[latest.value].triggerKey == Some(MissionKey(head));
        var supersedes := if replay then db.requests[latest.value].supersedes else latest;
        effect := HeadEffect(db, now, p, policyId.value, ttl, head, supersedes, None);
        assert replay ==> KeyTaken(db.requests, MissionKey(head));
      }
    }
  }

  // ---------------------------------------------------------------- one pending request each

  lemma PerformPreserves(db: Db, action: Action)
    requires Safe(db) && OnePendingEach(db.requests) && Disciplined(db, action)
    ensures Safe(Perform(db, action)) && OnePendingEach(Perform(db, action).requests)
  {
    hide Safe, Apply, EvaluateOnePr, Legal, Results, OnePendingEach;
    FromSafe(db);
    match action {
      case Do(command) =>
        SafeStep(db, command);
        OnePendingEachIff(db, command);
      case Observe(now, p, ttl, head, latest) =>
        var effect := ObserveEffect(db, now, p, ttl, head, latest);
        SafeEffect(db, effect, Perform(db, action));
        ObservationKeepsOnePending(db, effect, Perform(db, action), now, head, latest);
    }
  }

  lemma ObservationKeepsOnePending(db: Db, effect: Effect, after: Db, now: Time, head: Head, latest: Option<nat>)
    requires ForeignKeys(db) && OnePendingEach(db.requests) && ClockAhead(db, now) && IsNewest(db, head, latest)
    requires ObservationOutcome(db, effect, now, head, latest) && Results(db, effect, after)
    ensures OnePendingEach(after.requests)
  {
    hide MissionKey, TriggerTarget, LogOf, LogGain, KeyTaken, OnePendingEach;
    if effect.EndedAndInserted? || effect.Ended? {
      ClosingKeepsOnePending(db.requests, after.requests[..|db.requests|]);
    }
    if effect.EndedAndInserted? || effect.Inserted? {
      NoOtherPending(db, head, latest);
      AddingKeepsOnePending(after.requests[..|db.requests|], effect.request);
      assert after.requests == after.requests[..|db.requests|] + [effect.request];
    } else {
      assert after.requests == after.requests[..|db.requests|];
    }
  }

  /** Only the newest row of a triggered subject can be pending. */
  lemma NoOtherPending(db: Db, head: Head, latest: Option<nat>)
    requires OnePendingEach(db.requests) && IsNewest(db, head, latest)
    ensures forall i | 0 <= i < |db.requests| && db.requests[i].status == PENDING
                       && SameSubject(db.requests[i].target, TriggerTarget(head)) :: latest == Some(i)
  {
    hide TriggerTarget, TriggerActionKey;
    TriggerTargetsAreTriggers(head);
    forall i | 0 <= i < |db.requests| && db.requests[i].status == PENDING
        && SameSubject(db.requests[i].target, TriggerTarget(head))
      ensures latest == Some(i)
    {
      SubjectIsTrigger(TriggerTarget(head), db.requests[i].target);
    }
  }

  ghost function PerformAll(db: Db, actions: seq<Action>): (after: Db)
    requires Safe(db) && OnePendingEach(db.requests)
    requires AllDisciplined(db, actions)
    ensures Safe(after) && OnePendingEach(after.requests)
    decreases |actions|
  {
    if actions == [] then db
    else
      PerformPreserves(db, actions[0]);
      PerformAll(Perform(db, actions[0]), actions[1..])
  }

  ghost predicate AllDisciplined(db: Db, actions: seq<Action>)
    requires Safe(db) && OnePendingEach(db.requests)
    decreases |actions|
  {
    actions == [] ||
    (Disciplined(db, actions[0]) &&
     (PerformPreserves(db, actions[0]);
      AllDisciplined(Perform(db, actions[0]), actions[1..])))
  }

  lemma AtMostOnePending(policies: map<nat, PolicyRow>, actions: seq<Action>, i: nat, j: nat)
    requires Safe(EmptyDb(policies)) && AllDisciplined(EmptyDb(policies), actions)
    requires var db := PerformAll(EmptyDb(policies), actions);
             && i < |db.requests| && j < |db.requests|
             && db.requests[i].status == PENDING && db.requests[j].status == PENDING
             && IsTrigger(db.requests[i].target) && SameSubject(db.requests[i].target, db.requests[j].target)
    ensures i == j
  {
    hide PerformAll, Safe, TriggerActionKey;
    var db := PerformAll(EmptyDb(policies), actions);
    SubjectIsTrigger(db.requests[i].target, db.requests[j].target);
    assert SameSubject(db.requests[j].target, db.requests[i].target);
  }

  // ---------------------------------------------------------------- when something is left pending

  /** The pending request seen carries the very key of the head. */
  ghost predicate AlreadyPending(db: Db, head: Head, latest: Option<nat>) {
    latest.Some? && IsOpen(db, latest.value) && db.requests[latest.value].triggerKey == Some(MissionKey(head))
  }

  ghost predicate Proceeds(db: Db, p: Principal, head: Head, latest: Option<nat>) {
    |MissionKey(head)| <= TRIGGER_KEY_MAX_LENGTH && (AlreadyPending(db, head, latest) || TriggerAdmits(db, p))
  }

  /** An observation succeeds if and only if the key is short enough and there is nothing to
      do or the trigger policy admits the request; when it fails it changes nothing. */
  lemma ObservationSucceedsIff(db: Db, now: Time, p: Principal, ttl: int, head: Head, latest: Option<nat>)
    requires latest.Some? ==> latest.value < |db.requests|
    ensures EvaluateOnePr(db, now, p, ttl, head, latest).1.Ok? <==> Proceeds(db, p, head, latest)
    ensures !Proceeds(db, p, head, latest) ==> EvaluateOnePr(db, now, p, ttl, head, latest).0 == db
  {
    hide MissionKey, TriggerTarget, TriggerPolicyKey, KeyTaken;
  }

  /** The exact outcome of every observation. One that proceeds leaves a request of the
      subject pending if and only if this very head was never requested before or is the
      pending request seen, and adds a row if and only if it was never requested before;
      any other observation changes nothing. */
  lemma PendingAfterObservation(db: Db, now: Time, p: Principal, ttl: int, head: Head, latest: Option<nat>)
    requires Safe(db) && OnePendingEach(db.requests) && ClockAhead(db, now) && IsNewest(db, head, latest)
    ensures var after := EvaluateOnePr(db, now, p, ttl, head, latest).0;
            if Proceeds(db, p, head, latest) then
              && (HasPending(after, head) <==>
                    !RequestedBefore(db.requests, head) || AlreadyPending(db, head, latest))
              && |after.requests| == |db.requests| + (if RequestedBefore(db.requests, head) then 0 else 1)
            else after == db
  {
    hide Safe, EvaluateOnePr, MissionKey, TriggerTarget, Legal, RequestedBefore, TriggerAdmits;
    FromSafe(db);
    TriggerTargetsAreTriggers(head);
    ObservationSucceedsIff(db, now, p, ttl, head, latest);
    KeyTakenInSafe(db, head);
    var effect := ObserveEffect(db, now, p, ttl, head, latest);
    if Proceeds(db, p, head, latest) {
      PendingAfterEffect(db, effect, EvaluateOnePr(db, now, p, ttl, head, latest).0, now, head, latest);
    }
  }

  lemma PendingAfterEffect(db: Db, effect: Effect, after: Db, now: Time, head: Head, latest: Option<nat>)
    requires ForeignKeys(db) && OnePendingEach(db.requests) && IsNewest(db, head, latest)
    requires IsTrigger(TriggerTarget(head))
    requires ObservationOutcome(db, effect, now, head, latest) && Results(db, effect, after)
    requires effect == NoRows ==>
              if latest.Some? && IsOpen(db, latest.value) then
                  db.requests[latest.value].triggerKey == Some(MissionKey(head))
              else KeyTaken(db.requests, MissionKey(head))
    ensures HasPending(after, head) <==>
            !KeyTaken(db.requests, MissionKey(head))
            || (latest.Some? && IsOpen(db, latest.value)
                && db.requests[latest.value].triggerKey == Some(MissionKey(head)))
    ensures |after.requests| == |db.requests| + if KeyTaken(db.requests, MissionKey(head)) then 0 else 1
  {
    hide MissionKey, TriggerTarget, LogOf, LogGain, TriggerActionKey;
    NoOtherPending(db, head, latest);
    match effect {
      case NoRows =>
      case Inserted(r) => assert after.requests[|db.requests|] == r;
      case Ended(id, _, _) => assert forall i | 0 <= i < |after.requests| && i != id ::
          after.requests[i] == db.requests[i];
      case EndedAndInserted(id, _, _, r) => assert after.requests[|db.requests|] == r;
    }
  }

  /** Seeing a head again while a retry for that very head is pending closes the retry and
      leaves the pull request without a pending request: the retry's key carries a mark,
      so it does not compare equal, and the unmarked key is in use. */
  lemma SameHeadClosesItsRetry(db: Db, now: Time, p: Principal, ttl: int, head: Head, latest: nat)
    requires Safe(db) && OnePendingEach(db.requests) && ClockAhead(db, now) && IsNewest(db, head, Some(latest))
    requires IsOpen(db, latest) && db.requests[latest].autoRetryCount > 0
    requires KeyBase(db.requests[latest], latest) == MissionKey(head)
    requires |MissionKey(head)| <= TRIGGER_KEY_MAX_LENGTH && TriggerAdmits(db, p)
    ensures var after := EvaluateOnePr(db, now, p, ttl, head, Some(latest)).0;
            !HasPending(after, head) && latest < |after.requests| && after.requests[latest].status == Superseded
  {
    hide MissionKey, TriggerTarget, EvaluateOnePr, VerdictsAgree, Lifecycles, Chained, PoliciesUsed, RetryMark,
         RecreatePrefix, BaseOf, LogOf, LogGain, HasPending, OnePendingEach, IsNewest, RequestedBefore, TriggerAdmits,
         KeysNameTargets;
    RootHoldsKey(db, latest, head);
    KeyTakenInSafe(db, head);
    ObservationSucceedsIff(db, now, p, ttl, head, Some(latest));
    PendingAfterObservation(db, now, p, ttl, head, Some(latest));
    var effect := ObserveEffect(db, now, p, ttl, head, Some(latest));
  }

  /** The documented "same head, still pending: nothing to do" holds exactly for requests
      that are not retries, failed observations aside. */
  lemma SameHeadIsNoOpIff(db: Db, now: Time, p: Principal, ttl: int, head: Head, latest: nat)
    requires Safe(db) && IsOpen(db, latest) && KeyBase(db.requests[latest], latest) == MissionKey(head)
    ensures EvaluateOnePr(db, now, p, ttl, head, Some(latest)).0 == db <==>
            || db.requests[latest].autoRetryCount == 0
            || |MissionKey(head)| > TRIGGER_KEY_MAX_LENGTH
            || !TriggerAdmits(db, p)
  {
    hide MissionKey, TriggerTarget, EvaluateOnePr, Safe, KeyBase, TriggerAdmits;
    FromSafe(db);
    ObservationSucceedsIff(db, now, p, ttl, head, Some(latest));
    if db.requests[latest].autoRetryCount == 0 {
      FirstHoldsKey(db, latest, head);
      PendingIsLeft(db, now, p, ttl, head, latest);
    } else {
      RootHoldsKey(db, latest, head);
      var effect := ObserveEffect(db, now, p, ttl, head, Some(latest));
    }
  }

  lemma PendingIsLeft(db: Db, now: Time, p: Principal, ttl: int, head: Head, latest: nat)
    requires IsOpen(db, latest) && db.requests[latest].triggerKey == Some(MissionKey(head))
    ensures EvaluateOnePr(db, now, p, ttl, head, Some(latest)).0 == db
  {
    hide MissionKey;
  }

  lemma FirstHoldsKey(db: Db, latest: nat, head: Head)
    requires Safe(db) && latest < |db.requests| && db.requests[latest].autoRetryCount == 0
    requires KeyBase(db.requests[latest], latest) == MissionKey(head)
    ensures db.requests[latest].triggerKey == Some(MissionKey(head))
  {
    hide MissionKey, VerdictsAgree, Lifecycles, Chained, PoliciesUsed, RetryMark, RecreatePrefix, BaseOf, Linked,
         StartsWith, Markless, UniqueKeys, KeysNameTargets;
    assert KeyShape(db.requests[latest], latest);
    MissionKeyBase(head);
    RecreateBase(latest);
  }

  lemma RootHoldsKey(db: Db, latest: nat, head: Head)
    requires Safe(db) && latest < |db.requests| && db.requests[latest].autoRetryCount > 0
    requires KeyBase(db.requests[latest], latest) == MissionKey(head)
    ensures KeyTaken(db.requests, MissionKey(head))
    ensures db.requests[latest].triggerKey != Some(MissionKey(head))
  {
    hide MissionKey, VerdictsAgree, Lifecycles, Chained, PoliciesUsed, RetryMark, RecreatePrefix, BaseOf, Linked,
         StartsWith, Markless, UniqueKeys;
    var root := ChainRoot(db, latest);
    assert KeyShape(db.requests[latest], latest) && KeyShape(db.requests[root], root);
    RootBase(db, latest);
    MissionKeyBase(head);
    RecreateBase(root);
    MarkedBefore(MissionKey(head), Decimal(db.requests[latest].autoRetryCount));
  }
}
