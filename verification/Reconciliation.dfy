/** The expiration sweep: repeated ticks expire all requests overdue at a given clock, oldest
    first, a full batch at a time, and then change nothing. Each recheck reads the clock
    again, so it may run later than the selection. */
module Reconciliation {
  import opened Policy
  import opened ApprovalStore
  import opened ApprovalEffects
  import opened ApprovalInvariants
  import opened RetryChain
  import opened ApprovalRuns

  datatype TickResult = TickResult(processed: nat, recreated: nat)

  // ---------------------------------------------------------------- candidates

  function OverdueIds(requests: seq<Request>, now: Time): set<nat> {
    set i | 0 <= i < |requests| && Overdue(requests[i], now)
  }

  /** What the candidate query may return: overdue requests, oldest expiry first, up to
      the batch size, leaving out only requests that expire no earlier. */
  ghost predicate IsBatch(requests: seq<Request>, now: Time, limit: nat, ids: seq<nat>) {
    && (forall k | 0 <= k < |ids| :: ids[k] in OverdueIds(requests, now))
    && (forall k, l | 0 <= k < l < |ids| :: ids[k] != ids[l] && Expiry(requests, ids[k]) <= Expiry(requests, ids[l]))
    && |ids| == (if limit <= |OverdueIds(requests, now)| then limit else |OverdueIds(requests, now)|)
    && (forall k, i | 0 <= k < |ids| && i in OverdueIds(requests, now) && i !in ids ::
          Expiry(requests, ids[k]) <= Expiry(requests, i))
  }

  function Expiry(requests: seq<Request>, i: nat): Time {
    if i < |requests| && requests[i].expiresAt.Some? then requests[i].expiresAt.value else 0
  }

  // ---------------------------------------------------------------- the sweep

  /** Process the candidates in order, each in its own transaction and at its own clock; the
      first failure ends the sweep and keeps what was already committed. */
  ghost function Sweep(db: Db, clocks: seq<Time>, principal: Principal, ids: seq<nat>): (r: (Db, Outcome<TickResult>))
    requires ForeignKeys(db) && |clocks| == |ids|
    ensures ForeignKeys(r.0)
    decreases |ids|
  {
    if ids == [] then (db, Ok(TickResult(0, 0)))
    else
      var (after, outcome) := ReconcileOne(db, clocks[0], principal, ids[0]);
      ForeignKeysStep(db, Reconcile(clocks[0], principal, ids[0]));
      match outcome
      case Err(code) => (after, Err(code))
      case Ok(done) => AfterMore(Counted(done), Sweep(after, clocks[1..], principal, ids[1..]))
  }

  /** What one recheck adds to the counts of its tick. */
  function Counted(done: Option<Reconciled>): TickResult {
    TickResult(if done.Some? then 1 else 0, if done == Some(Recreated) then 1 else 0)
  }

  /** Counts already made, added to what the rest of a sweep reports. */
  function AfterMore(made: TickResult, rest: (Db, Outcome<TickResult>)): (Db, Outcome<TickResult>) {
    (rest.0,
     match rest.1
     case Err(code) => Err(code)
     case Ok(t) => Ok(TickResult(made.processed + t.processed, made.recreated + t.recreated)))
  }

  /** Every recheck happens at the clock of the selection or later. */
  predicate FollowClock(clocks: seq<Time>, now: Time) {
    forall k | 0 <= k < |clocks| :: now <= clocks[k]
  }

  /** In a safe state a recheck by the system principal cannot fail, and it inserts the
      successor exactly when the policy allows one. */
  lemma ReconcileSucceeds(db: Db, now: Time, principal: Principal, id: nat)
    requires Safe(db) && principal.kind == System && id < |db.requests| && Overdue(db.requests[id], now)
    ensures var (after, outcome) := ReconcileOne(db, now, principal, id);
            && outcome.Ok? && outcome.value.Some?
            && after.requests[..|db.requests|] == db.requests[id := Close(db.requests[id], Expired, now)]
            && (if RetriesLeft(db.requests[id], DefinitionOf(db, id)) && Ttl(db.requests[id]) > 0 then
                  && outcome == Ok(Some(Recreated)) && |after.requests| == |db.requests| + 1
                  && RetryOf(db, id, now, after.requests[|db.requests|])
                  && after.requests[|db.requests|].status == PENDING
                  && after.requests[|db.requests|].createdBy == principal.id
                else
                  outcome == Ok(Some(PlainlyExpired)) && |after.requests| == |db.requests|)
  {
    hide Lifecycles, VerdictsAgree, Chained, RetryChains, NextRecreateTriggerKey, KeyTaken;
    assert DefinitionOf(db, id).Valid();
    RetryKeyIsFree(db, id);
    SameKeys(db.requests, id, Expired, now, NextRecreateTriggerKey(db.requests[id], id));
  }

  /** A recheck does nothing before its request is due, and fails only when a retry is due that
      the caller may not make. */
  lemma RecheckAnswers(db: Db, now: Time, principal: Principal, id: nat)
    requires Safe(db)
    ensures ForeignKeys(db)
    ensures var (after, outcome) := ReconcileOne(db, now, principal, id);
            var due := IsOpen(db, id) && db.requests[id].expiresAt.Some? && db.requests[id].expiresAt.value <= now;
            var retry := due && DefinitionOf(db, id).expiration.behavior == Recreate
                         && db.requests[id].autoRetryCount < DefinitionOf(db, id).expiration.maxAutoRetries.value
                         && db.requests[id].createdAt < db.requests[id].expiresAt.value;
            && (outcome == Ok(None) <==> !due)
            && (outcome == Ok(Some(Recreated)) <==> retry && principal.kind == System)
            && (outcome == Ok(Some(PlainlyExpired)) <==> due && !retry)
            && (outcome == Err(PrincipalNotAuthorized) <==> retry && principal.kind != System)
            && (!due || outcome.Err? ==> after == db)
  {
    hide Lifecycles, VerdictsAgree, Chained, RetryChains, KeysNameTargets, NextRecreateTriggerKey, KeyTaken,
         DetailOfExpiration;
    if IsOpen(db, id) {
      assert DefinitionOf(db, id).Valid();
    }
  }

  /** A recheck at any later clock removes exactly its request from those overdue at `now`: a
      recreated successor is not among them. */
  lemma ReconcileRemoves(db: Db, now: Time, at: Time, principal: Principal, id: nat)
    requires Safe(db) && principal.kind == System && id in OverdueIds(db.requests, now) && now <= at
    ensures var after := ReconcileOne(db, at, principal, id).0;
            && OverdueIds(after.requests, now) == OverdueIds(db.requests, now) - {id}
            && |db.requests| <= |after.requests|
            && (forall i | 0 <= i < |db.requests| :: after.requests[i].expiresAt == db.requests[i].expiresAt)
  {
    hide Safe, ReconcileOne;
    FromSafe(db);
    ReconcileSucceeds(db, at, principal, id);
    var after := ReconcileOne(db, at, principal, id).0;
    var closed := db.requests[id := Close(db.requests[id], Expired, at)];
    forall i | 0 <= i < |db.requests| ensures after.requests[i] == closed[i] {
      assert after.requests[i] == after.requests[..|db.requests|][i];
    }
    assert forall i :: i in OverdueIds(after.requests, now) <==> i in OverdueIds(db.requests, now) - {id};
  }

  lemma {:induction false} SweepRemoves(db: Db, now: Time, clocks: seq<Time>, principal: Principal, ids: seq<nat>)
    requires Safe(db) && principal.kind == System && |clocks| == |ids| && FollowClock(clocks, now)
    requires forall k | 0 <= k < |ids| :: ids[k] in OverdueIds(db.requests, now)
    requires forall k, l | 0 <= k < l < |ids| :: ids[k] != ids[l]
    ensures ForeignKeys(db)
    ensures var (after, outcome) := Sweep(db, clocks, principal, ids);
            && outcome.Ok? && outcome.value.processed == |ids|
            && |after.requests| == |db.requests| + outcome.value.recreated
            && Safe(after)
            && OverdueIds(after.requests, now) == OverdueIds(db.requests, now) - Elements(ids)
            && |db.requests| <= |after.requests|
            && (forall i | 0 <= i < |db.requests| :: after.requests[i].expiresAt == db.requests[i].expiresAt)
    decreases |ids|
  {
    hide Safe, ReconcileOne, RetryOf, OverdueIds;
    FromSafe(db);
    if ids == [] {
      assert Elements(ids) == {};
    } else {
      assert ids[0] in OverdueIds(db.requests, now);
      InRangeOverdue(db.requests, now, ids[0]);
      ReconcileSucceeds(db, clocks[0], principal, ids[0]);
      ReconcileRemoves(db, now, clocks[0], principal, ids[0]);
      SafeStep(db, Reconcile(clocks[0], principal, ids[0]));
      var after := ReconcileOne(db, clocks[0], principal, ids[0]).0;
      SweepRemoves(after, now, clocks[1..], principal, ids[1..]);
      assert Elements(ids) == {ids[0]} + Elements(ids[1..]) by { assert ids == [ids[0]] + ids[1..]; }
    }
  }

  lemma InRangeOverdue(requests: seq<Request>, now: Time, id: nat)
    requires id in OverdueIds(requests, now)
    ensures id < |requests| && Overdue(requests[id], now)
  {
  }

  /** The first failure ends a sweep with its code and keeps what was swept before it. */
  lemma {:induction false} SweepStops(db: Db, clocks: seq<Time>, principal: Principal, ids: seq<nat>, k: nat,
                                      code: ErrorCode)
    requires ForeignKeys(db) && |clocks| == |ids| && k < |ids|
    requires var (before, outcome) := Sweep(db, clocks[..k], principal, ids[..k]);
             outcome.Ok? && ReconcileOne(before, clocks[k], principal, ids[k]).1 == Err(code)
    ensures var (before, _) := Sweep(db, clocks[..k], principal, ids[..k]);
            Sweep(db, clocks, principal, ids)
            == (ReconcileOne(before, clocks[k], principal, ids[k]).0, Err(code))
    decreases k
  {
    hide ReconcileOne, ForeignKeys;
    if k > 0 {
      ForeignKeysStep(db, Reconcile(clocks[0], principal, ids[0]));
      ReconcileIsStep(db, clocks[0], principal, ids[0]);
      assert clocks[..k][0] == clocks[0] && ids[..k][0] == ids[0];
      assert clocks[..k][1..] == clocks[1..][..k - 1] && ids[..k][1..] == ids[1..][..k - 1];
      SweepStops(ReconcileOne(db, clocks[0], principal, ids[0]).0, clocks[1..], principal, ids[1..], k - 1, code);
    }
  }

  lemma ReconcileIsStep(db: Db, now: Time, principal: Principal, id: nat)
    requires ForeignKeys(db)
    ensures Apply(db, Reconcile(now, principal, id)) == ReconcileOne(db, now, principal, id).0
  {
    hide ReconcileOne;
  }

  // ---------------------------------------------------------------- one tick

  /** A tick expires min(batch size, number overdue) requests, and what it leaves expires
      no earlier than anything it took. */
  lemma TickDrains(db: Db, now: Time, clocks: seq<Time>, principal: Principal, limit: nat, ids: seq<nat>)
    requires Safe(db) && principal.kind == System && IsBatch(db.requests, now, limit, ids)
    requires |clocks| == |ids| && FollowClock(clocks, now)
    ensures ForeignKeys(db)
    ensures var (after, outcome) := Sweep(db, clocks, principal, ids);
            var n := |OverdueIds(db.requests, now)|;
            && Safe(after)
            && outcome.Ok? && outcome.value.processed == (if limit <= n then limit else n)
            && |after.requests| == |db.requests| + outcome.value.recreated
            && |OverdueIds(after.requests, now)| == n - outcome.value.processed
            && (forall i, j | i in OverdueIds(db.requests, now) - OverdueIds(after.requests, now)
                              && j in OverdueIds(after.requests, now) ::
                  Expiry(db.requests, i) <= Expiry(db.requests, j))
            && (n == 0 ==> after == db)
  {
    hide Safe, ReconcileOne;
    SweepRemoves(db, now, clocks, principal, ids);
    assert Elements(ids) <= OverdueIds(db.requests, now);
    DistinctCount(ids);
    SetMinus(OverdueIds(db.requests, now), Elements(ids));
    if OverdueIds(db.requests, now) == {} { assert ids == []; }
  }

  lemma SetMinus(a: set<nat>, b: set<nat>)
    requires b <= a
    ensures |a - b| == |a| - |b|
  {
    assert a == b + (a - b);
  }

  // ---------------------------------------------------------------- repeated ticks

  /** States produced by one tick after another, all selecting at the same clock. */
  ghost predicate AreTicks(states: seq<Db>, now: Time, principal: Principal, limit: nat) {
    && |states| > 0
    && (forall k | 0 <= k < |states| :: ForeignKeys(states[k]))
    && (forall k, l | 0 <= k < l < |states| && l == k + 1 :: IsTick(states[k], states[l], now, principal, limit))
  }

  ghost predicate IsTick(before: Db, after: Db, now: Time, principal: Principal, limit: nat)
    requires ForeignKeys(before)
  {
    exists clocks, ids | |clocks| == |ids| ::
      && IsBatch(before.requests, now, limit, ids) && FollowClock(clocks, now)
      && Sweep(before, clocks, principal, ids).0 == after
  }

  lemma OneTickDrains(before: Db, after: Db, now: Time, principal: Principal, limit: nat)
    requires Safe(before) && principal.kind == System && ForeignKeys(before)
    requires IsTick(before, after, now, principal, limit)
    ensures Safe(after)
    ensures var n := |OverdueIds(before.requests, now)|;
            && |OverdueIds(after.requests, now)| == (if limit <= n then n - limit else 0)
            && (n == 0 ==> after == before)
  {
    hide Safe, Sweep, OverdueIds, IsBatch, FollowClock;
    var clocks, ids :| |clocks| == |ids| && IsBatch(before.requests, now, limit, ids) && FollowClock(clocks, now)
                       && Sweep(before, clocks, principal, ids).0 == after;
    TickDrains(before, now, clocks, principal, limit, ids);
  }

  /** After k ticks max(0, n - k * batch) requests are still overdue, and once none is, a
      tick leaves every table as it was. */
  lemma {:induction false} TicksDrain(states: seq<Db>, now: Time, principal: Principal, limit: nat, k: nat)
    requires AreTicks(states, now, principal, limit) && Safe(states[0]) && principal.kind == System && k < |states|
    ensures Safe(states[k])
    ensures var n := |OverdueIds(states[0].requests, now)|;
            |OverdueIds(states[k].requests, now)| == if n >= k * limit then n - k * limit else 0
    ensures |OverdueIds(states[k].requests, now)| == 0 && k + 1 < |states| ==> states[k + 1] == states[k]
  {
    hide Safe, OverdueIds, IsTick;
    if k > 0 {
      TicksDrain(states, now, principal, limit, k - 1);
      OneTickDrains(states[k - 1], states[k], now, principal, limit);
      assert k * limit == (k - 1) * limit + limit;
    }
    if k + 1 < |states| {
      OneTickDrains(states[k], states[k + 1], now, principal, limit);
    }
  }
}
