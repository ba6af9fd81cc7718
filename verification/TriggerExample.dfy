/** A run in which a pull request loses its pending approval although nothing about it has
    changed: its head is observed, the request expires and is recreated, and the same head
    is observed once more. */
module TriggerExample {
  import opened Policy
  import opened Text
  import opened ApprovalStore
  import opened ApprovalEffects
  import opened ApprovalInvariants
  import opened RetryChain
  import opened ApprovalRuns
  import opened TriggerSteps
  import opened TriggerSafety
  import opened Reconciliation

  /** An active trigger policy that recreates an expired request at least once. */
  predicate Recreates(db: Db, policyId: nat) {
    && LoadActivePolicy(db, TriggerPolicyKey()) == Ok(policyId)
    && policyId in db.policies && db.policies[policyId].definition.Valid()
    && db.policies[policyId].definition.expiration.behavior == Recreate
    && db.policies[policyId].definition.expiration.maxAutoRetries.value >= 1
  }

  function FirstRow(policyId: nat, p: Principal, now: Time, ttl: int, head: Head): Request {
    Request(policyId, TriggerTarget(head), p.id, BySystem, PENDING, now, Some(now + ttl), None, None,
            Some(MissionKey(head)), 0)
  }

  lemma ActivationRecreates(policies: map<nat, PolicyRow>, policyId: nat)
    requires policyId in policies && policies[policyId].key == TriggerPolicyKey()
    requires policies[policyId].definition.Valid()
    requires policies[policyId].definition.expiration.behavior == Recreate
    requires policies[policyId].definition.expiration.maxAutoRetries.value >= 1
    ensures var db := Apply(EmptyDb(policies), Activate(TriggerPolicyKey(), policyId));
            Recreates(db, policyId) && db.requests == []
  {
    hide TriggerPolicyKey;
  }

  lemma FirstObservation(db: Db, policyId: nat, p: Principal, now: Time, ttl: int, head: Head)
    requires Recreates(db, policyId) && db.requests == [] && p.kind == System
    requires |MissionKey(head)| <= TRIGGER_KEY_MAX_LENGTH
    ensures var after := EvaluateOnePr(db, now, p, ttl, head, None).0;
            Recreates(after, policyId) && after.requests == [FirstRow(policyId, p, now, ttl, head)]
  {
    hide MissionKey, TriggerPolicyKey, TriggerTarget;
  }

  lemma ExpiryRecreates(db: Db, policyId: nat, p: Principal, start: Time, now: Time, ttl: int, head: Head)
    requires Safe(db) && Recreates(db, policyId) && db.requests == [FirstRow(policyId, p, start, ttl, head)]
    requires p.kind == System && ttl > 0 && start + ttl <= now
    ensures ForeignKeys(db)
    ensures var after := ReconcileOne(db, now, p, 0).0;
            && Recreates(after, policyId) && |after.requests| == 2
            && after.requests[0] == Close(db.requests[0], Expired, now)
            && after.requests[1].status == PENDING && after.requests[1].autoRetryCount == 1
            && after.requests[1].createdAt == now && after.requests[1].target == TriggerTarget(head)
            && KeyBase(after.requests[1], 1) == MissionKey(head)
  {
    hide MissionKey, TriggerPolicyKey, TriggerTarget, VerdictsAgree, Lifecycles, Chained, BaseOf, RetryMark,
         RecreatePrefix;
    FromSafe(db);
    ReconcileSucceeds(db, now, p, 0);
    var r := ReconcileOne(db, now, p, 0).0.requests[1];
    RetryKeyShape(db, 0, now, r);
    MissionKeyBase(head);
    assert ReconcileOne(db, now, p, 0).0.requests[..1][0] == Close(db.requests[0], Expired, now);
  }

  lemma SecondObservation(db: Db, policyId: nat, p: Principal, now: Time, ttl: int, head: Head)
    requires Safe(db) && OnePendingEach(db.requests) && ClockAhead(db, now) && Recreates(db, policyId)
    requires p.kind == System
    requires |db.requests| == 2 && db.requests[0].createdAt < db.requests[1].createdAt
    requires db.requests[0].target == db.requests[1].target == TriggerTarget(head)
    requires db.requests[1].status == PENDING && db.requests[1].autoRetryCount == 1
    requires KeyBase(db.requests[1], 1) == MissionKey(head) && |MissionKey(head)| <= TRIGGER_KEY_MAX_LENGTH
    ensures IsNewest(db, head, Some(1))
    ensures var after := EvaluateOnePr(db, now, p, ttl, head, Some(1)).0;
            !HasPending(after, head) && 1 < |after.requests| && after.requests[1].status == Superseded
  {
    hide MissionKey, TriggerPolicyKey, TriggerTarget, Safe, OnePendingEach, HasPending, KeyBase, EvaluateOnePr;
    SameHeadClosesItsRetry(db, now, p, ttl, head, 1);
  }

  /** The four steps of the run. */
  function Steps(policyId: nat, p: Principal, ttl: int, head: Head, start: Time, expiry: Time,
                 again: Time): seq<Action> {
    [Do(Activate(TriggerPolicyKey(), policyId)), Observe(start, p, ttl, head, None), Do(Reconcile(expiry, p, 0)),
     Observe(again, p, ttl, head, Some(1))]
  }

  lemma FirstStep(db: Db, action: Action, rest: seq<Action>)
    requires Safe(db) && OnePendingEach(db.requests) && Disciplined(db, action)
    ensures Safe(Perform(db, action)) && ForeignKeys(Perform(db, action))
    ensures OnePendingEach(Perform(db, action).requests)
    ensures AllDisciplined(Perform(db, action), rest) ==>
              AllDisciplined(db, [action] + rest)
                  && PerformAll(db, [action] + rest) == PerformAll(Perform(db, action), rest)
  {
    hide Safe, OnePendingEach, Disciplined, Perform;
    PerformPreserves(db, action);
    FromSafe(db);
    FromSafe(Perform(db, action));
    assert ([action] + rest)[1..] == rest;
  }

  /** For every head, every system principal and every time to live, the run is
      disciplined and ends with two closed requests and none pending. */
  lemma SameHeadLosesItsRequest(policies: map<nat, PolicyRow>, policyId: nat, p: Principal, ttl: int, head: Head,
                                start: Time, expiry: Time, again: Time)
    requires policyId in policies && policies[policyId].key == TriggerPolicyKey()
    requires policies[policyId].definition.Valid()
    requires policies[policyId].definition.expiration.behavior == Recreate
    requires policies[policyId].definition.expiration.maxAutoRetries.value >= 1
    requires p.kind == System && ttl > 0 && start + ttl <= expiry < again
    requires |MissionKey(head)| <= TRIGGER_KEY_MAX_LENGTH
    ensures Safe(EmptyDb(policies)) && OnePendingEach(EmptyDb(policies).requests)
    ensures AllDisciplined(EmptyDb(policies), Steps(policyId, p, ttl, head, start, expiry, again))
    ensures !HasPending(PerformAll(EmptyDb(policies), Steps(policyId, p, ttl, head, start, expiry, again)), head)
  {
    hide MissionKey, TriggerPolicyKey, TriggerTarget, Safe, OnePendingEach, HasPending, KeyBase, PerformAll,
         AllDisciplined, EvaluateOnePr, Apply, Recreates, ReconcileOne;
    var empty := EmptyDb(policies);
    var steps := Steps(policyId, p, ttl, head, start, expiry, again);
    EmptyIsSafe(policies);
    NothingPending(policies);
    ActivationRecreates(policies, policyId);
    FirstStep(empty, steps[0], steps[1..]);
    var active := Perform(empty, steps[0]);
    FirstObservation(active, policyId, p, start, ttl, head);
    NoRowsNewest(active, head);
    FirstStep(active, steps[1], steps[2..]);
    var observed := Perform(active, steps[1]);
    ExpiryRecreates(observed, policyId, p, start, expiry, ttl, head);
    FirstStep(observed, steps[2], steps[3..]);
    var recreated := Perform(observed, steps[2]);
    assert recreated == ReconcileOne(observed, expiry, p, 0).0 by { ReconcileIsApplied(observed, expiry, p); }
    SecondObservation(recreated, policyId, p, again, ttl, head);
    FirstStep(recreated, steps[3], []);
    NothingLeft(Perform(recreated, steps[3]));
    assert steps[3..] == [steps[3]] + [] && steps[2..] == [steps[2]] + steps[3..];
    assert steps[1..] == [steps[1]] + steps[2..] && steps == [steps[0]] + steps[1..];
  }

  lemma NothingPending(policies: map<nat, PolicyRow>)
    ensures OnePendingEach(EmptyDb(policies).requests)
  {
  }

  lemma NoRowsNewest(db: Db, head: Head)
    requires db.requests == []
    ensures IsNewest(db, head, None)
  {
  }

  lemma ReconcileIsApplied(db: Db, now: Time, p: Principal)
    requires ForeignKeys(db)
    ensures Apply(db, Reconcile(now, p, 0)) == ReconcileOne(db, now, p, 0).0
  {
  }

  lemma NothingLeft(db: Db)
    requires Safe(db) && OnePendingEach(db.requests)
    ensures AllDisciplined(db, []) && PerformAll(db, []) == db
  {
  }
}
