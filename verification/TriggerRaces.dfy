/** Observers whose lookup and write are transactions of their own: what the write comes to
    after any run in between, exactly when it leaves two requests of one pull request pending,
    and how what is reported relates to what is inserted. */
module TriggerRaces {
  import opened Policy
  import opened Text
  import opened ApprovalStore
  import opened ApprovalEffects
  import opened RetryChain
  import opened ApprovalRuns
  import opened ApprovalRecords
  import opened TriggerSteps
  import opened TriggerSafety

  // ---------------------------------------------------------------- a sight and the write after it

  /** What an observer saw when it looked: the newest row of the subject as it was then. */
  datatype Seen = NoRow | Row(id: nat, row: Request)

  function Sight(db: Db, latest: Option<nat>): Seen
    requires latest.Some? ==> latest.value < |db.requests|
  {
    match latest
    case None => NoRow
    case Some(id) => Row(id, db.requests[id])
  }

  ghost predicate WasSeen(db: Db, head: Head, seen: Seen) {
    seen.Row? ==>
      && seen.id < |db.requests| && RowLater(seen.row, db.requests[seen.id])
      && SameSubject(seen.row.target, TriggerTarget(head))
  }

  /** What was seen of a subject stays a sight of it, whatever runs after the look. */
  lemma SightLasts(db: Db, between: seq<Command>, head: Head, latest: Option<nat>)
    requires ForeignKeys(db) && IsNewest(db, head, latest)
    ensures WasSeen(Run(db, between), head, Sight(db, latest))
  {
    hide TriggerTarget, SameSubject, Run, ForeignKeys, RowLater;
    RunIsLater(db, between);
  }

  /** Close the predecessor and insert its successor if it is still pending under its lock, or
      fall back to a plain insert. */
  function HandleNewHead(db: Db, now: Time, p: Principal, ttl: int, head: Head, predecessor: nat)
    : (Db, Outcome<Observed>)
    requires predecessor < |db.requests|
  {
    if db.requests[predecessor].status == PENDING then
      Reported(SupersedeForNewHead(db, now, p, ttl, head, predecessor), TriggerSuperseded)
    else
      Reported(CreateTriggerRequest(db, now, p, ttl, head, Some(predecessor)), TriggerCreated)
  }

  /** React to a head by what was seen, however long ago. */
  function ActOnSight(db: Db, now: Time, p: Principal, ttl: int, head: Head, seen: Seen): (Db, Outcome<Observed>)
    requires seen.Row? ==> seen.id < |db.requests|
  {
    if |MissionKey(head)| > TRIGGER_KEY_MAX_LENGTH then (db, Err(TriggerKeyTooLong))
    else
      match seen
      case NoRow => Reported(CreateTriggerRequest(db, now, p, ttl, head, None), TriggerCreated)
      case Row(id, row) =>
        if row.triggerKey == Some(MissionKey(head)) then
          if row.status == PENDING then (db, Ok(NothingToDo))
          else Reported(CreateTriggerRequest(db, now, p, ttl, head, row.supersedes), NothingToDo)
        else if row.status != PENDING then
          Reported(CreateTriggerRequest(db, now, p, ttl, head, Some(id)), TriggerCreated)
        else HandleNewHead(db, now, p, ttl, head, id)
  }

  /** Acting at once is the observation taken as one step. */
  lemma AtOnceIsAtomic(db: Db, now: Time, p: Principal, ttl: int, head: Head, latest: Option<nat>)
    requires latest.Some? ==> latest.value < |db.requests|
    ensures ActOnSight(db, now, p, ttl, head, Sight(db, latest)) == EvaluateOnePr(db, now, p, ttl, head, latest)
  {
    hide MissionKey, CreateTriggerRequest, SupersedeForNewHead;
  }

  /** The transaction that the observer's write comes to, however much later it runs: a
      pending predecessor is rechecked under its lock, and a lost race falls back to a plain
      insert. */
  function WriteOf(db: Db, now: Time, p: Principal, ttl: int, head: Head, seen: Seen): Option<Command> {
    if |MissionKey(head)| > TRIGGER_KEY_MAX_LENGTH then None
    else
      match seen
      case NoRow => Some(Trigger(now, p, ttl, head, None))
      case Row(id, row) =>
        if row.triggerKey == Some(MissionKey(head)) then
          if row.status == PENDING then None else Some(Trigger(now, p, ttl, head, row.supersedes))
        else if row.status == PENDING && id < |db.requests| && db.requests[id].status == PENDING then
          Some(NewHead(now, p, ttl, head, id))
        else Some(Trigger(now, p, ttl, head, Some(id)))
  }

  /** Acting on a sight is that transaction. */
  lemma ActIsWrite(db: Db, now: Time, p: Principal, ttl: int, head: Head, seen: Seen)
    requires ForeignKeys(db) && (seen.Row? ==> seen.id < |db.requests|)
    ensures var write := WriteOf(db, now, p, ttl, head, seen);
            ActOnSight(db, now, p, ttl, head, seen).0 == if write.Some? then Apply(db, write.value) else db
  {
    hide MissionKey, CreateTriggerRequest, SupersedeForNewHead;
  }

  // ---------------------------------------------------------------- writes that double

  /** Another request of the pull request than the one seen is pending. */
  ghost predicate PendingUnseen(db: Db, head: Head, seen: Seen) {
    exists i | 0 <= i < |db.requests| ::
      && db.requests[i].status == PENDING && SameSubject(db.requests[i].target, TriggerTarget(head))
      && (seen.Row? ==> i != seen.id)
  }

  /** Exactly when an observer's write doubles: its commit was never requested, the policy
      admits the request, and one of the pull request is pending that it did not see. */
  lemma StaleWriteDoublesIff(db: Db, now: Time, p: Principal, ttl: int, head: Head, seen: Seen)
    requires Safe(db) && NoTwoPending(db.requests) && WasSeen(db, head, seen)
    ensures var write := WriteOf(db, now, p, ttl, head, seen);
            write.Some? && Doubles(db, write.value) <==>
              && |MissionKey(head)| <= TRIGGER_KEY_MAX_LENGTH && TriggerAdmits(db, p)
              && !RequestedBefore(db.requests, head) && PendingUnseen(db, head, seen)
  {
    hide MissionKey, TriggerTarget, TriggerAdmits, RequestedBefore, Safe, SameSubject, IsTrigger;
    KeyTakenInSafe(db, head);
    if seen.Row? && seen.row.triggerKey == Some(MissionKey(head)) {
      assert db.requests[seen.id].triggerKey == Some(MissionKey(head));
    }
  }

  /** A request of the pull request is pending that was inserted after the observer looked. */
  ghost predicate PendingSince(rows: nat, db: Db, head: Head) {
    exists i | rows <= i < |db.requests| ::
      db.requests[i].status == PENDING && SameSubject(db.requests[i].target, TriggerTarget(head))
  }

  /** Of a subject with at most one pending request, the newest, only rows inserted since the
      look can be pending unseen. */
  lemma UnseenIsSince(db: Db, between: seq<Command>, head: Head, latest: Option<nat>)
    requires ForeignKeys(db) && OnePendingEach(db.requests) && IsNewest(db, head, latest)
    ensures var after := Run(db, between);
            PendingUnseen(after, head, Sight(db, latest)) <==> PendingSince(|db.requests|, after, head)
  {
    hide TriggerTarget, SameSubject, Run, ForeignKeys, OnePendingEach;
    RunIsLater(db, between);
    NoOtherPending(db, head, latest);
    var after := Run(db, between);
    forall i | 0 <= i < |db.requests| ensures RowLater(db.requests[i], after.requests[i]) {
    }
  }

  /** The exact condition for observers, whatever any actors do between look and write: the
      write doubles if and only if its commit was never requested, the policy admits the
      request, and one of the pull request inserted since the look is pending. */
  lemma LateWriteDoublesIff(db: Db, between: seq<Command>, now: Time, p: Principal, ttl: int, head: Head,
                            latest: Option<nat>)
    requires Safe(db) && OnePendingEach(db.requests) && IsNewest(db, head, latest)
    requires ForeignKeys(db) && NoTwoPending(Run(db, between).requests)
    ensures var after := Run(db, between);
            var write := WriteOf(after, now, p, ttl, head, Sight(db, latest));
            write.Some? && Doubles(after, write.value) <==>
              && |MissionKey(head)| <= TRIGGER_KEY_MAX_LENGTH && TriggerAdmits(after, p)
              && !RequestedBefore(after.requests, head) && PendingSince(|db.requests|, after, head)
  {
    hide MissionKey, TriggerTarget, TriggerAdmits, RequestedBefore, Safe, OnePendingEach, NoTwoPending, Run,
         PendingUnseen, PendingSince, WasSeen, WriteOf, Doubles;
    RunIsSafe(db, between);
    SightLasts(db, between, head, latest);
    UnseenIsSince(db, between, head, latest);
    StaleWriteDoublesIff(Run(db, between), now, p, ttl, head, Sight(db, latest));
  }

  // ---------------------------------------------------------------- what is inserted

  /** The request for a head as the trigger has to make it: under the active trigger policy, by
      the caller for the system, and for the given time. */
  ghost predicate RequestsReview(db: Db, r: Request, now: Time, p: Principal, ttl: int, head: Head) {
    && IsActive(db, "implementation_review", r.policyId)
    && r.target == Target("action", head.owner + "/" + head.repo, "pull_request", head.number,
                          Some("implementation_review"))
    && r.createdBy == p.id && r.source == BySystem && r.status == PENDING && r.resolvedAt.None?
    && r.triggerKey == Some(MissionKey(head)) && r.autoRetryCount == 0
    && r.createdAt == now && r.expiresAt == Some(now + ttl)
  }

  lemma SystemRow(db: Db, now: Time, p: Principal, ttl: int, head: Head, supersedes: Option<nat>,
                  predecessor: Option<nat>)
    requires predecessor.Some? ==> IsOpen(db, predecessor.value)
    requires predecessor.Some? ==> supersedes == predecessor
    ensures var after := (if predecessor.Some? then SupersedeForNewHead(db, now, p, ttl, head, predecessor.value)
                          else CreateTriggerRequest(db, now, p, ttl, head, supersedes)).0;
            var n := |db.requests|;
            && n <= |after.requests| <= n + 1
            && (|after.requests| > n ==>
                  && RequestsReview(db, after.requests[n], now, p, ttl, head)
                  && after.requests[n].supersedes == supersedes)
  {
    hide MissionKey, KeyTaken;
  }

  /** Whatever was seen and however long ago: a request that is inserted for a head is as the
      trigger has to make it, follows the request seen, and is overdue from the end of its time
      on and not before. */
  lemma InsertedRequest(db: Db, now: Time, p: Principal, ttl: int, head: Head, seen: Seen, t: Time)
    requires Safe(db) && WasSeen(db, head, seen)
    ensures var after := ActOnSight(db, now, p, ttl, head, seen).0;
            var n := |db.requests|;
            && n <= |after.requests| <= n + 1
            && (|after.requests| > n ==>
                  var r := after.requests[n];
                  && RequestsReview(db, r, now, p, ttl, head)
                  && r.supersedes == (if seen.Row? then Some(seen.id) else None)
                  && (Overdue(r, t) <==> now + ttl <= t))
  {
    hide MissionKey, TriggerTarget, Safe, SameSubject, RequestedBefore, TriggerAdmits, KeyTaken, CreateTriggerRequest,
         SupersedeForNewHead, TriggerPolicyKey, IsActive;
    match seen
    case NoRow => SystemRow(db, now, p, ttl, head, None, None);
    case Row(id, row) =>
      if CarriesKey(seen, head) {
        HolderTakes(db.requests, MissionKey(head), id);
        TriggerRows(db, now, p, ttl, head, row.supersedes);
      }
      SystemRow(db, now, p, ttl, head, Some(id), None);
      if IsOpen(db, id) {
        SystemRow(db, now, p, ttl, head, Some(id), Some(id));
      }
  }

  /** The request seen is replaced when it was pending, is still pending and is for another
      key. */
  ghost predicate Replaces(db: Db, head: Head, seen: Seen) {
    seen.Row? && seen.row.status == PENDING && !CarriesKey(seen, head) && IsOpen(db, seen.id)
  }

  /** What is reported and what becomes of the requests there were: only a replaced request is
      closed, and an observation is refused exactly for a key over 512 characters or for what
      keeps a request from being made. */
  lemma SightAnswers(db: Db, now: Time, p: Principal, ttl: int, head: Head, seen: Seen)
    requires Safe(db) && WasSeen(db, head, seen)
    ensures var (after, outcome) := ActOnSight(db, now, p, ttl, head, seen);
            var idle := CarriesKey(seen, head) && seen.row.status == PENDING;
            var n := |db.requests|;
            && (outcome == Err(TriggerKeyTooLong) <==> |MissionKey(head)| > 512)
            && (outcome.Ok? <==> |MissionKey(head)| <= 512 && (idle || TriggerAdmits(db, p)))
            && (outcome.Ok? ==>
                  && (outcome.value == NothingToDo <==> CarriesKey(seen, head))
                  && (outcome.value == TriggerSuperseded <==> Replaces(db, head, seen)))
            && n <= |after.requests|
            && after.requests[..n] == (if outcome.Ok? && Replaces(db, head, seen) then
                                         db.requests[seen.id := Close(db.requests[seen.id], Superseded, now)]
                                       else db.requests)
  {
    hide MissionKey, TriggerTarget, Safe, SameSubject, RequestedBefore, TriggerAdmits, KeyTaken, CreateTriggerRequest,
         SupersedeForNewHead;
    match seen
    case NoRow =>
      TriggerRows(db, now, p, ttl, head, None);
      NotTooLong(db, now, p, ttl, head, None, None);
    case Row(id, row) =>
      TriggerRows(db, now, p, ttl, head, row.supersedes);
      NotTooLong(db, now, p, ttl, head, row.supersedes, None);
      TriggerRows(db, now, p, ttl, head, Some(id));
      NotTooLong(db, now, p, ttl, head, Some(id), None);
      if IsOpen(db, id) {
        NewHeadRows(db, now, p, ttl, head, id);
        NotTooLong(db, now, p, ttl, head, Some(id), Some(id));
      }
  }

  lemma NotTooLong(db: Db, now: Time, p: Principal, ttl: int, head: Head, supersedes: Option<nat>,
                   predecessor: Option<nat>)
    requires predecessor.Some? ==> IsOpen(db, predecessor.value)
    ensures var outcome := (if predecessor.Some? then SupersedeForNewHead(db, now, p, ttl, head, predecessor.value)
                            else CreateTriggerRequest(db, now, p, ttl, head, supersedes)).1;
            outcome != Err(TriggerKeyTooLong)
  {
    hide MissionKey, KeyTaken, TriggerTarget;
  }

  // ---------------------------------------------------------------- what is reported

  /** What was seen carries the very key of the head. */
  predicate CarriesKey(seen: Seen, head: Head) {
    seen.Row? && seen.row.triggerKey == Some(MissionKey(head))
  }

  /** An observation that succeeds is counted as an insert if and only if what it saw does not
      carry the head's key, and inserts if and only if the head was never requested; one that
      fails changes nothing. */
  lemma CountedAndInserted(db: Db, now: Time, p: Principal, ttl: int, head: Head, seen: Seen)
    requires Safe(db) && WasSeen(db, head, seen)
    ensures var (after, outcome) := ActOnSight(db, now, p, ttl, head, seen);
            if outcome.Ok? then
              && (outcome.value != NothingToDo <==> !CarriesKey(seen, head))
              && |after.requests| == |db.requests| + (if RequestedBefore(db.requests, head) then 0 else 1)
            else after == db
  {
    hide MissionKey, TriggerTarget, Safe, SameSubject, RequestedBefore, TriggerAdmits, KeyTaken, CreateTriggerRequest,
         SupersedeForNewHead;
    KeyTakenInSafe(db, head);
    match seen
    case NoRow => TriggerRows(db, now, p, ttl, head, None);
    case Row(id, row) =>
      if CarriesKey(seen, head) {
        HolderTakes(db.requests, MissionKey(head), id);
      }
      TriggerRows(db, now, p, ttl, head, row.supersedes);
      TriggerRows(db, now, p, ttl, head, Some(id));
      if IsOpen(db, id) {
        NewHeadRows(db, now, p, ttl, head, id);
      }
  }

  lemma HolderTakes(requests: seq<Request>, key: string, id: nat)
    requires id < |requests| && requests[id].triggerKey == Some(key)
    ensures KeyTaken(requests, key)
  {
  }

  /** Why observations have to be atomic: two observers that both looked before either wrote
      leave two requests of one pull request pending. */
  lemma StaleObserversLeaveTwo(db: Db, p: Principal, ttl: int, first: Time, a: Head, second: Time, b: Head,
                               latest: Option<nat>)
    requires Safe(db) && TriggerAdmits(db, p) && TriggerTarget(a) == TriggerTarget(b) && a.sha != b.sha
    requires !RequestedBefore(db.requests, a) && !RequestedBefore(db.requests, b)
    ensures ForeignKeys(db) && ForeignKeys(Apply(db, Trigger(first, p, ttl, a, latest)))
    ensures var once := Apply(db, Trigger(first, p, ttl, a, latest));
            var twice := Apply(once, Trigger(second, p, ttl, b, latest));
            var n := |db.requests|;
            && |twice.requests| == n + 2
            && twice.requests[n].status == twice.requests[n + 1].status == PENDING
            && twice.requests[n].target == twice.requests[n + 1].target == TriggerTarget(a)
  {
    hide MissionKey, TriggerTarget, Safe, RequestedBefore, TriggerPolicyKey, KeyTaken;
    FromSafe(db);
    ForeignKeysStep(db, Trigger(first, p, ttl, a, latest));
    KeyTakenInSafe(db, a);
    KeyTakenInSafe(db, b);
    KeyNamesHead(a, b);
    var once := Apply(db, Trigger(first, p, ttl, a, latest));
    OtherKeyStaysFree(db.requests, once.requests[|db.requests|], MissionKey(b));
  }

  lemma OtherKeyStaysFree(requests: seq<Request>, r: Request, key: string)
    requires !KeyTaken(requests, key) && r.triggerKey != Some(key)
    ensures !KeyTaken(requests + [r], key)
  {
  }

  lemma FreeKeyIsHeldByNone(requests: seq<Request>, key: string, id: nat)
    requires !KeyTaken(requests, key) && id < |requests|
    ensures requests[id].triggerKey != Some(key)
  {
  }

  /** The race that the lock recheck loses: two observers of different commits saw the same
      pending request; the first replaces it, the second finds it closed and inserts too. */
  lemma LostRaceLeavesTwo(db: Db, p: Principal, ttl: int, first: Time, a: Head, second: Time, b: Head, seen: nat)
    requires Safe(db) && TriggerAdmits(db, p) && TriggerTarget(a) == TriggerTarget(b) && a.sha != b.sha
    requires IsOpen(db, seen) && SameSubject(db.requests[seen].target, TriggerTarget(a))
    requires !RequestedBefore(db.requests, a) && !RequestedBefore(db.requests, b)
    requires |MissionKey(b)| <= TRIGGER_KEY_MAX_LENGTH
    ensures ForeignKeys(db) && ForeignKeys(Apply(db, NewHead(first, p, ttl, a, seen)))
    ensures var once := Apply(db, NewHead(first, p, ttl, a, seen));
            var fallback := Trigger(second, p, ttl, b, Some(seen));
            var twice := Apply(once, fallback);
            var n := |db.requests|;
            && WriteOf(once, second, p, ttl, b, Row(seen, db.requests[seen])) == Some(fallback)
            && |twice.requests| == n + 2
            && twice.requests[n].status == twice.requests[n + 1].status == PENDING
            && twice.requests[n].target == twice.requests[n + 1].target == TriggerTarget(a)
  {
    hide MissionKey, TriggerTarget, Safe, RequestedBefore, KeyTaken, TriggerAdmits, SameSubject, CreateTriggerRequest,
         SupersedeForNewHead;
    FromSafe(db);
    ForeignKeysStep(db, NewHead(first, p, ttl, a, seen));
    KeyTakenInSafe(db, a);
    KeyTakenInSafe(db, b);
    KeyNamesHead(a, b);
    var once := Apply(db, NewHead(first, p, ttl, a, seen));
    var closed := db.requests[seen := Close(db.requests[seen], Superseded, first)];
    NewHeadRows(db, first, p, ttl, a, seen);
    StepShape(db, NewHead(first, p, ttl, a, seen));
    FreeKeyIsHeldByNone(db.requests, MissionKey(b), seen);
    SameKeys(db.requests, seen, Superseded, first, MissionKey(b));
    OtherKeyStaysFree(closed, once.requests[|db.requests|], MissionKey(b));
    assert once.requests == closed + [once.requests[|db.requests|]];
    SamePolicies(db, first, p, ttl, a, seen);
    TriggerRows(once, second, p, ttl, b, Some(seen));
    StepShape(once, Trigger(second, p, ttl, b, Some(seen)));
  }

  lemma SamePolicies(db: Db, now: Time, p: Principal, ttl: int, head: Head, predecessor: nat)
    requires IsOpen(db, predecessor)
    ensures TriggerAdmits(SupersedeForNewHead(db, now, p, ttl, head, predecessor).0, p) <==> TriggerAdmits(db, p)
  {
    hide MissionKey, TriggerTarget, KeyTaken, TriggerPolicyKey;
  }
}
