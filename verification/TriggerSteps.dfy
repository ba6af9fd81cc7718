/** The requests of one pull request over single transactions: exactly which transaction,
    by whomever and however stale, leaves two of them pending, and over runs. */
module TriggerSteps {
  import opened Policy
  import opened Evaluator
  import opened Text
  import opened ApprovalStore
  import opened ApprovalEffects
  import opened ApprovalInvariants
  import opened RetryChain
  import opened ApprovalRuns

  // ---------------------------------------------------------------- subjects

  /** Two targets that the trigger lookup cannot tell apart. */
  predicate SameSubject(a: Target, b: Target) {
    a.repo == b.repo && a.cardNumber == b.cardNumber && a.actionKey == b.actionKey
  }

  predicate IsTrigger(target: Target) {
    target.actionKey == Some(TriggerActionKey())
  }

  /** No two requests of one triggered subject are pending. */
  ghost predicate NoTwoPending(requests: seq<Request>) {
    forall i, j | 0 <= i < |requests| && 0 <= j < |requests| && i != j
                  && requests[i].status == PENDING && requests[j].status == PENDING ::
      !(IsTrigger(requests[i].target) && SameSubject(requests[i].target, requests[j].target))
  }

  /** A pending triggered request is newer than every other row of its subject; so no
      subject has two. */
  ghost predicate OnePendingEach(requests: seq<Request>) {
    forall i, j | 0 <= i < |requests| && 0 <= j < |requests| && i != j
                  && requests[i].status == PENDING && IsTrigger(requests[i].target)
                  && SameSubject(requests[i].target, requests[j].target) ::
      requests[j].createdAt < requests[i].createdAt
  }

  lemma SubjectIsTrigger(a: Target, b: Target)
    requires IsTrigger(a) && SameSubject(a, b)
    ensures IsTrigger(b)
  {
  }

  lemma ClosingKeepsOnePending(a: seq<Request>, b: seq<Request>)
    requires OnePendingEach(a) && |b| == |a|
    requires forall i | 0 <= i < |a| ::
               && b[i].target == a[i].target && b[i].createdAt == a[i].createdAt
               && (b[i].status == PENDING ==> a[i].status == PENDING)
    ensures OnePendingEach(b)
  {
    hide IsTrigger, SameSubject;
  }

  /** A row may be added that is newer than all of its subject, once none of those is
      pending, or that is about no triggered action. */
  lemma AddingKeepsOnePending(a: seq<Request>, r: Request)
    requires OnePendingEach(a)
    requires !IsTrigger(r.target)
             || forall i | 0 <= i < |a| && SameSubject(a[i].target, r.target) ::
                  a[i].status != PENDING && a[i].createdAt < r.createdAt
    ensures OnePendingEach(a + [r])
  {
    hide TriggerActionKey;
    forall i | 0 <= i < |a| && IsTrigger(a[i].target) && SameSubject(a[i].target, r.target)
      ensures IsTrigger(r.target)
    {
      SubjectIsTrigger(a[i].target, r.target);
    }
  }

  lemma TriggerTargetsAreTriggers(head: Head)
    ensures IsTrigger(TriggerTarget(head))
  {
  }

  lemma OneEachMeansNoTwo(requests: seq<Request>)
    requires OnePendingEach(requests)
    ensures NoTwoPending(requests)
  {
    hide TriggerActionKey;
    forall i, j | 0 <= i < |requests| && 0 <= j < |requests|
                  && IsTrigger(requests[i].target) && SameSubject(requests[i].target, requests[j].target)
      ensures IsTrigger(requests[j].target) && SameSubject(requests[j].target, requests[i].target)
    {
      SubjectIsTrigger(requests[i].target, requests[j].target);
    }
  }

  // ---------------------------------------------------------------- a row and what was there before

  /** The same rows, some of them closed. */
  ghost predicate ClosedFrom(a: seq<Request>, b: seq<Request>) {
    && |b| == |a|
    && forall i | 0 <= i < |a| ::
         && b[i].target == a[i].target && b[i].createdAt == a[i].createdAt
         && (b[i].status == PENDING ==> a[i].status == PENDING)
  }

  ghost predicate PendingOn(requests: seq<Request>, target: Target) {
    exists i | 0 <= i < |requests| :: requests[i].status == PENDING && SameSubject(requests[i].target, target)
  }

  /** The row is a second pending request of its subject. */
  ghost predicate Clashes(rows: seq<Request>, r: Request) {
    IsTrigger(r.target) && PendingOn(rows, r.target)
  }

  lemma ClosingKeepsNoTwo(a: seq<Request>, b: seq<Request>)
    requires NoTwoPending(a) && ClosedFrom(a, b)
    ensures NoTwoPending(b)
  {
    hide IsTrigger, SameSubject;
  }

  lemma AddingKeepsNoTwoIff(rows: seq<Request>, r: Request)
    requires NoTwoPending(rows) && r.status == PENDING
    ensures NoTwoPending(rows + [r]) <==> !Clashes(rows, r)
  {
    hide TriggerActionKey;
    var more := rows + [r];
    if Clashes(rows, r) {
      var i :| 0 <= i < |rows| && rows[i].status == PENDING && SameSubject(rows[i].target, r.target);
      assert more[i] == rows[i] && more[|rows|] == r;
      SubjectIsTrigger(r.target, rows[i].target);
    }
  }

  lemma NoOtherOfSubject(requests: seq<Request>, k: nat, target: Target)
    requires NoTwoPending(requests) && k < |requests| && requests[k].status == PENDING
    requires IsTrigger(target) && SameSubject(requests[k].target, target)
    ensures forall i | 0 <= i < |requests| && i != k && requests[i].status == PENDING ::
              !SameSubject(requests[i].target, target)
  {
    hide TriggerActionKey;
  }

  ghost predicate ClockAhead(db: Db, now: Time) {
    forall i | 0 <= i < |db.requests| :: db.requests[i].createdAt < now
  }

  /** Every transaction closes some rows and adds at most one, which is pending. */
  lemma StepShape(db: Db, command: Command)
    requires ForeignKeys(db)
    ensures var n, after := |db.requests|, Apply(db, command).requests;
            && n <= |after| <= n + 1 && ClosedFrom(db.requests, after[..n])
            && (|after| == n + 1 ==> after[n].status == PENDING)
  {
    hide Apply, RetryOf, FirstOfChain, Castable, EvaluationAfter, LogOf, LogGain, KeyTaken;
    var effect := CommandEffect(db, command);
  }

  // ---------------------------------------------------------------- which transactions double

  ghost predicate HasPending(db: Db, head: Head) {
    PendingOn(db.requests, TriggerTarget(head))
  }

  /** The active trigger policy admits requests that this principal makes. */
  predicate TriggerAdmits(db: Db, p: Principal) {
    var policyId := LoadActivePolicy(db, TriggerPolicyKey());
    policyId.Ok? && p.kind == System && System in db.policies[policyId.value].definition.allowedTypes
  }

  lemma KeyTakenInSafe(db: Db, head: Head)
    requires Safe(db)
    ensures KeyTaken(db.requests, MissionKey(head)) <==> RequestedBefore(db.requests, head)
  {
    hide MissionKey, KeyTaken, RequestedBefore, KeysNameTargets, VerdictsAgree, Lifecycles, Chained;
    KeyTakenIff(db, head);
  }

  /** A creation under a fresh key that passes all its checks. */
  predicate CreateAdds(db: Db, p: Principal, policyKey: string, key: string) {
    var policyId := LoadActivePolicy(db, policyKey);
    && p.kind == Human && OpKey(key, p.id, CreateScope) !in db.operations
    && policyId.Ok? && Human in db.policies[policyId.value].definition.allowedTypes
  }

  ghost predicate PendingBeside(db: Db, head: Head, predecessor: nat) {
    exists i | 0 <= i < |db.requests| && i != predecessor ::
      db.requests[i].status == PENDING && SameSubject(db.requests[i].target, TriggerTarget(head))
  }

  /** The transaction inserts a request for a commit never requested, or by hand, although one
      of the pull request is pending and stays so. */
  ghost predicate Doubles(db: Db, command: Command) {
    match command
    case Create(_, p, policyKey, target, _, key) =>
      IsTrigger(target) && CreateAdds(db, p, policyKey, key) && PendingOn(db.requests, target)
    case Trigger(_, p, _, head, _) =>
      TriggerAdmits(db, p) && !RequestedBefore(db.requests, head) && HasPending(db, head)
    case NewHead(_, p, _, head, predecessor) =>
      && IsOpen(db, predecessor) && TriggerAdmits(db, p) && !RequestedBefore(db.requests, head)
      && PendingBeside(db, head, predecessor)
    case _ => false
  }

  ghost predicate AddsClash(db: Db, command: Command)
    requires ForeignKeys(db)
  {
    var n, after := |db.requests|, Apply(db, command).requests;
    |after| > n && Clashes(after[..n], after[n])
  }

  lemma CreateClashes(db: Db, now: Time, p: Principal, policyKey: string, target: Target, expiresAt: Option<Time>,
                      key: string)
    ensures var after := CreateApprovalRequest(db, now, p, policyKey, target, expiresAt, key).0.requests;
            if CreateAdds(db, p, policyKey, key) then
              && |after| == |db.requests| + 1 && after[..|db.requests|] == db.requests
              && after[|db.requests|].target == target && after[|db.requests|].createdAt == now
            else after == db.requests
  {
  }

  lemma TriggerRows(db: Db, now: Time, p: Principal, ttl: int, head: Head, supersedes: Option<nat>)
    ensures CreateTriggerRequest(db, now, p, ttl, head, supersedes).1.Ok? <==> TriggerAdmits(db, p)
    ensures !TriggerAdmits(db, p) ==> CreateTriggerRequest(db, now, p, ttl, head, supersedes).0 == db
    ensures var after := CreateTriggerRequest(db, now, p, ttl, head, supersedes).0.requests;
            if TriggerAdmits(db, p) && !KeyTaken(db.requests, MissionKey(head)) then
              && |after| == |db.requests| + 1 && after[..|db.requests|] == db.requests
              && after[|db.requests|].target == TriggerTarget(head) && after[|db.requests|].createdAt == now
              && after[|db.requests|].triggerKey == Some(MissionKey(head))
            else after == db.requests
  {
    hide MissionKey, TriggerTarget, KeyTaken, TriggerPolicyKey;
  }

  lemma NewHeadRows(db: Db, now: Time, p: Principal, ttl: int, head: Head, predecessor: nat)
    requires IsOpen(db, predecessor)
    ensures SupersedeForNewHead(db, now, p, ttl, head, predecessor).1.Ok? <==> TriggerAdmits(db, p)
    ensures !TriggerAdmits(db, p) ==> SupersedeForNewHead(db, now, p, ttl, head, predecessor).0 == db
    ensures var after := SupersedeForNewHead(db, now, p, ttl, head, predecessor).0.requests;
            var closed := db.requests[predecessor := Close(db.requests[predecessor], Superseded, now)];
            if !TriggerAdmits(db, p) then after == db.requests
            else if KeyTaken(db.requests, MissionKey(head)) then after == closed
            else
              && |after| == |db.requests| + 1 && after[..|db.requests|] == closed
              && after[|db.requests|].target == TriggerTarget(head) && after[|db.requests|].createdAt == now
              && after[|db.requests|].triggerKey == Some(MissionKey(head))
  {
    hide MissionKey, TriggerTarget, KeyTaken, TriggerPolicyKey;
    SameKeys(db.requests, predecessor, Superseded, now, MissionKey(head));
  }

  lemma BesideMeansOpen(db: Db, now: Time, head: Head, predecessor: nat)
    requires IsOpen(db, predecessor)
    ensures var closed := db.requests[predecessor := Close(db.requests[predecessor], Superseded, now)];
            PendingOn(closed, TriggerTarget(head)) <==> PendingBeside(db, head, predecessor)
  {
    hide TriggerTarget, SameSubject;
    var closed := db.requests[predecessor := Close(db.requests[predecessor], Superseded, now)];
    if PendingBeside(db, head, predecessor) {
      var i :| 0 <= i < |db.requests| && i != predecessor && db.requests[i].status == PENDING
               && SameSubject(db.requests[i].target, TriggerTarget(head));
      assert closed[i] == db.requests[i];
    }
    if PendingOn(closed, TriggerTarget(head)) {
      var i :| 0 <= i < |closed| && closed[i].status == PENDING && SameSubject(closed[i].target, TriggerTarget(head));
      assert closed[i] == db.requests[i];
    }
  }

  lemma RetryDoesNotClash(db: Db, now: Time, p: Principal, id: nat)
    requires ForeignKeys(db) && NoTwoPending(db.requests)
    ensures !AddsClash(db, Reconcile(now, p, id))
  {
    hide ReconcileOne, LogOf, LogGain, KeyTaken, NextRecreateTriggerKey, RetriesLeft, TriggerActionKey, DefinitionOf;
    var effect := ReconcileEffect(db, now, p, id);
    if effect.EndedAndInserted? && IsTrigger(db.requests[id].target) {
      NoOtherOfSubject(db.requests, id, db.requests[id].target);
    }
  }

  lemma VotesAddNothing(db: Db, now: Time, p: Principal, id: nat, decisionId: nat, vote: Vote, reason: Option<string>,
                        key: string)
    requires ForeignKeys(db)
    ensures |SubmitDecision(db, now, p, id, vote, reason, key).0.requests| == |db.requests|
    ensures |SupersedeDecision(db, now, p, id, decisionId, vote, reason, key).0.requests| == |db.requests|
  {
    hide SubmitDecision, SupersedeDecision, LogOf, LogGain, EvaluationAfter, HasVoted;
    var e := SubmitEffect(db, now, p, id, vote, reason, key);
    var f := SupersedeEffect(db, now, p, id, decisionId, vote, reason, key);
  }

  lemma DoublesIsClash(db: Db, command: Command)
    requires Safe(db) && NoTwoPending(db.requests)
    ensures ForeignKeys(db) && (Doubles(db, command) <==> AddsClash(db, command))
  {
    hide Safe, NoTwoPending, CreateApprovalRequest, SubmitDecision, SupersedeDecision, ReconcileOne,
         CreateTriggerRequest, SupersedeForNewHead, MissionKey, TriggerTarget, IsTrigger, PendingOn, PendingBeside,
         KeyTaken, RequestedBefore, TriggerAdmits, CreateAdds;
    FromSafe(db);
    match command
    case Create(now, p, policyKey, target, expiresAt, key) =>
      CreateClashes(db, now, p, policyKey, target, expiresAt, key);
    case Submit(now, p, id, vote, reason, key) => VotesAddNothing(db, now, p, id, 0, vote, reason, key);
    case Supersede(now, p, id, decisionId, vote, reason, key) =>
      VotesAddNothing(db, now, p, id, decisionId, vote, reason, key);
    case Reconcile(now, p, id) => RetryDoesNotClash(db, now, p, id);
    case Trigger(now, p, ttl, head, supersedes) =>
      TriggerRows(db, now, p, ttl, head, supersedes);
      KeyTakenInSafe(db, head);
      TriggerTargetsAreTriggers(head);
    case NewHead(now, p, ttl, head, predecessor) =>
      if IsOpen(db, predecessor) {
        NewHeadRows(db, now, p, ttl, head, predecessor);
        BesideMeansOpen(db, now, head, predecessor);
        KeyTakenInSafe(db, head);
        TriggerTargetsAreTriggers(head);
      }
    case Activate(_, _) =>
  }

  /** The exact condition, at any clock and for every transaction: from a state with no two
      pending requests of one pull request, two are pending afterwards if and only if the
      transaction doubles. */
  lemma NoTwoPendingIff(db: Db, command: Command)
    requires Safe(db) && NoTwoPending(db.requests)
    ensures ForeignKeys(db) && (NoTwoPending(Apply(db, command).requests) <==> !Doubles(db, command))
  {
    hide Safe, Apply, NoTwoPending, ClosedFrom, Clashes, Doubles;
    DoublesIsClash(db, command);
    StepShape(db, command);
    var n, after := |db.requests|, Apply(db, command).requests;
    ClosingKeepsNoTwo(db.requests, after[..n]);
    if |after| > n {
      AddingKeepsNoTwoIff(after[..n], after[n]);
      assert after == after[..n] + [after[n]];
    } else {
      assert after == after[..n];
    }
  }

  /** A predecessor still pending under its lock is replaced, never doubled. */
  lemma LockedSuccessorNeverDoubles(db: Db, now: Time, p: Principal, ttl: int, head: Head, predecessor: nat)
    requires NoTwoPending(db.requests) && IsOpen(db, predecessor)
    requires SameSubject(db.requests[predecessor].target, TriggerTarget(head))
    ensures !Doubles(db, NewHead(now, p, ttl, head, predecessor))
  {
    hide TriggerAdmits, RequestedBefore, TriggerActionKey;
    TriggerTargetsAreTriggers(head);
    NoOtherOfSubject(db.requests, predecessor, TriggerTarget(head));
  }

  // ---------------------------------------------------------------- and is the newest

  /** A transaction that may insert a row runs later than all insertions before it. */
  ghost predicate Timely(db: Db, command: Command) {
    match command
    case Create(now, _, _, _, _, _) => ClockAhead(db, now)
    case Trigger(now, _, _, _, _) => ClockAhead(db, now)
    case NewHead(now, _, _, _, _) => ClockAhead(db, now)
    case Reconcile(now, _, _) => ClockAhead(db, now)
    case _ => true
  }

  lemma AddedIsNewest(db: Db, command: Command)
    requires ForeignKeys(db) && Timely(db, command)
    ensures var n, after := |db.requests|, Apply(db, command).requests;
            |after| > n ==> forall i | 0 <= i < n :: db.requests[i].createdAt < after[n].createdAt
  {
    hide CreateApprovalRequest, SubmitDecision, SupersedeDecision, ReconcileOne, CreateTriggerRequest,
         SupersedeForNewHead, MissionKey, TriggerTarget, KeyTaken, TriggerAdmits, CreateAdds, LogOf, LogGain,
         RetriesLeft, NextRecreateTriggerKey;
    match command
    case Create(now, p, policyKey, target, expiresAt, key) =>
      CreateClashes(db, now, p, policyKey, target, expiresAt, key);
    case Submit(now, p, id, vote, reason, key) => VotesAddNothing(db, now, p, id, 0, vote, reason, key);
    case Supersede(now, p, id, decisionId, vote, reason, key) =>
      VotesAddNothing(db, now, p, id, decisionId, vote, reason, key);
    case Reconcile(now, p, id) => var effect := ReconcileEffect(db, now, p, id);
    case Trigger(now, p, ttl, head, supersedes) => TriggerRows(db, now, p, ttl, head, supersedes);
    case NewHead(now, p, ttl, head, predecessor) =>
      if IsOpen(db, predecessor) { NewHeadRows(db, now, p, ttl, head, predecessor); }
    case Activate(_, _) =>
  }

  /** With increasing creation times the same condition is exact for "the pending request is
      the newest of its subject". */
  lemma OnePendingEachIff(db: Db, command: Command)
    requires Safe(db) && OnePendingEach(db.requests) && Timely(db, command)
    ensures ForeignKeys(db) && (OnePendingEach(Apply(db, command).requests) <==> !Doubles(db, command))
  {
    hide Safe, Apply, NoTwoPending, OnePendingEach, Doubles, Timely, IsTrigger, SameSubject;
    OneEachMeansNoTwo(db.requests);
    DoublesIsClash(db, command);
    StepShape(db, command);
    NoTwoPendingIff(db, command);
    AddedIsNewest(db, command);
    var n, after := |db.requests|, Apply(db, command).requests;
    if OnePendingEach(after) {
      OneEachMeansNoTwo(after);
    }
    if !Doubles(db, command) {
      ClosingKeepsOnePending(db.requests, after[..n]);
      if |after| > n {
        AddingKeepsOnePending(after[..n], after[n]);
        assert after == after[..n] + [after[n]];
      } else {
        assert after == after[..n];
      }
    }
  }

  // ---------------------------------------------------------------- runs

  ghost predicate NeverDoubles(db: Db, commands: seq<Command>)
    requires ForeignKeys(db)
    decreases |commands|
  {
    commands == [] ||
    (!Doubles(db, commands[0])
     && (ForeignKeysStep(db, commands[0]);
         NeverDoubles(Apply(db, commands[0]), commands[1..])))
  }

  /** Throughout a run no two requests of one pull request are ever pending. */
  ghost predicate CleanThroughout(db: Db, commands: seq<Command>)
    requires ForeignKeys(db)
  {
    forall k | 0 <= k <= |commands| :: NoTwoPending(Run(db, commands[..k]).requests)
  }

  lemma RunFirst(db: Db, commands: seq<Command>, k: nat)
    requires ForeignKeys(db) && 1 <= k <= |commands|
    ensures ForeignKeys(Apply(db, commands[0]))
    ensures Run(db, commands[..k]) == Run(Apply(db, commands[0]), commands[1..][..k - 1])
  {
    hide Apply, ForeignKeys;
    ForeignKeysStep(db, commands[0]);
    assert commands[..k][0] == commands[0] && commands[..k][1..] == commands[1..][..k - 1];
  }

  lemma CleanStep(db: Db, commands: seq<Command>)
    requires ForeignKeys(db) && commands != [] && NoTwoPending(db.requests)
    ensures ForeignKeys(Apply(db, commands[0]))
    ensures CleanThroughout(db, commands) <==> CleanThroughout(Apply(db, commands[0]), commands[1..])
  {
    hide Apply, ForeignKeys, NoTwoPending, Run;
    ForeignKeysStep(db, commands[0]);
    var next, rest := Apply(db, commands[0]), commands[1..];
    RunOfNothing(db, commands[..0]);
    if CleanThroughout(db, commands) {
      forall k | 0 <= k <= |rest| ensures NoTwoPending(Run(next, rest[..k]).requests) {
        RunFirst(db, commands, k + 1);
        assert NoTwoPending(Run(db, commands[..k + 1]).requests);
      }
    }
    if CleanThroughout(next, rest) {
      forall k | 0 <= k <= |commands| ensures NoTwoPending(Run(db, commands[..k]).requests) {
        if k > 0 {
          RunFirst(db, commands, k);
          assert NoTwoPending(Run(next, rest[..k - 1]).requests);
        }
      }
    }
  }

  lemma RunOfNothing(db: Db, commands: seq<Command>)
    requires ForeignKeys(db) && commands == []
    ensures Run(db, commands) == db
  {
  }

  /** Exactly the runs in which no transaction doubles keep the property throughout. */
  lemma {:induction false} CleanThroughoutIff(db: Db, commands: seq<Command>)
    requires Safe(db) && NoTwoPending(db.requests)
    ensures ForeignKeys(db) && (CleanThroughout(db, commands) <==> NeverDoubles(db, commands))
    decreases |commands|
  {
    hide Safe, Apply, NoTwoPending, Run, Doubles, ForeignKeys;
    FromSafe(db);
    if commands == [] {
      RunOfNothing(db, commands);
      assert forall k | 0 <= k <= |commands| :: commands[..k] == commands;
    } else {
      NoTwoPendingIff(db, commands[0]);
      CleanStep(db, commands);
      var next := Apply(db, commands[0]);
      if NoTwoPending(next.requests) {
        SafeStep(db, commands[0]);
        CleanThroughoutIff(next, commands[1..]);
      } else {
        RunFirst(db, commands, 1);
        RunOfNothing(next, commands[1..][..0]);
        assert !NoTwoPending(Run(db, commands[..1]).requests);
      }
    }
  }

  /** Over any run, two requests of one pull request pending at the end go back to a
      transaction of the run, the `i`-th, that doubled. */
  lemma {:induction false} TwoPendingWereDoubled(db: Db, commands: seq<Command>) returns (i: nat)
    requires Safe(db) && NoTwoPending(db.requests) && ForeignKeys(db)
    requires !NoTwoPending(Run(db, commands).requests)
    ensures i < |commands| && NoTwoPending(Run(db, commands[..i]).requests)
    ensures Doubles(Run(db, commands[..i]), commands[i])
    decreases |commands|
  {
    hide Safe, Apply, NoTwoPending, Doubles, ForeignKeys;
    NoTwoPendingIff(db, commands[0]);
    ForeignKeysStep(db, commands[0]);
    var next := Apply(db, commands[0]);
    if NoTwoPending(next.requests) {
      SafeStep(db, commands[0]);
      var j := TwoPendingWereDoubled(next, commands[1..]);
      i := j + 1;
      RunFirst(db, commands, i);
    } else {
      i := 0;
      RunOfNothing(db, commands[..0]);
    }
  }
}
