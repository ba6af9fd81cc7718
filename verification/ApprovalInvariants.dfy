/** What holds of the approval tables after any sequence of transactions: the lifecycle of
    every request, the supersession chains of its votes, and the agreement of the stored
    status with a fresh evaluation. */
module ApprovalInvariants {
  import opened Policy
  import opened Evaluator
  import opened ApprovalStore
  import opened ApprovalEffects

  // ---------------------------------------------------------------- lifecycle

  function ExpectedLog(status: Status): seq<EventKind> {
    if status == PENDING then [RequestCreated] else [RequestCreated, RequestResolved(status)]
  }

  ghost predicate OrderlyLife(db: Db, i: nat)
    requires i < |db.requests|
  {
    && (db.requests[i].resolvedAt.Some? <==> db.requests[i].status != PENDING)
    && LogOf(db.events, i) == ExpectedLog(db.requests[i].status)
  }

  /** Every request was created once, is resolved exactly when it is no longer pending,
      and then has one more event, naming its status. */
  ghost predicate Lifecycles(db: Db) {
    && (forall i | 0 <= i < |db.requests| :: OrderlyLife(db, i))
    && (forall i | |db.requests| <= i :: LogOf(db.events, i) == [])
  }

  lemma LifecyclesPreserved(db: Db, effect: Effect, after: Db)
    requires ForeignKeys(db) && Lifecycles(db) && Legal(db, effect) && Results(db, effect, after)
    ensures Lifecycles(after)
  {
    hide RetryOf, FirstOfChain, EvaluationAfter, HasVoted, LogOf, KeyTaken;
    forall i | 0 <= i < |after.requests| ensures OrderlyLife(after, i) {
      assert LogOf(after.events, i) == LogOf(db.events, i) + LogGain(db, effect, i);
      if i < |db.requests| { assert OrderlyLife(db, i); }
    }
    forall i | |after.requests| <= i ensures LogOf(after.events, i) == [] {
      assert LogOf(after.events, i) == LogOf(db.events, i) + LogGain(db, effect, i);
    }
  }

  // ---------------------------------------------------------------- policies and keys

  ghost predicate PoliciesUsed(db: Db)
    requires ForeignKeys(db)
  {
    forall i | 0 <= i < |db.requests| :: DefinitionOf(db, i).Valid()
  }

  lemma BasicsPreserved(db: Db, effect: Effect, after: Db)
    requires ForeignKeys(db) && Legal(db, effect) && Results(db, effect, after)
    ensures ForeignKeys(after)
    ensures PoliciesUsed(db) ==> PoliciesUsed(after)
  {
    hide RetryOf, FirstOfChain, EvaluationAfter, LogOf, KeyTaken, LogGain;
    forall i | 0 <= i < |db.requests| ensures after.requests[i].policyId == db.requests[i].policyId {
    }
    if PoliciesUsed(db) {
      forall i | 0 <= i < |after.requests| ensures DefinitionOf(after, i).Valid() {
        if i < |db.requests| { assert DefinitionOf(db, i).Valid(); }
      }
    }
  }

  // ---------------------------------------------------------------- chains of votes

  predicate SameVoter(decisions: seq<Decision>, j: nat, requestId: nat, principal: nat)
    requires j < |decisions|
  {
    decisions[j].requestId == requestId && decisions[j].principal == principal
  }

  /** The voter's latest decision among the first `n`. */
  function LatestVote(decisions: seq<Decision>, requestId: nat, principal: nat, n: nat): (latest: Option<nat>)
    requires n <= |decisions|
    ensures latest.Some? ==> latest.value < n && SameVoter(decisions, latest.value, requestId, principal)
    ensures forall j | 0 <= j < n && SameVoter(decisions, j, requestId, principal) :: latest.Some? && j <= latest.value
  {
    if n == 0 then None
    else if SameVoter(decisions, n - 1, requestId, principal) then Some(n - 1)
    else LatestVote(decisions, requestId, principal, n - 1)
  }

  /** Every decision supersedes its author's previous one on the request, and nothing else. */
  ghost predicate Chained(decisions: seq<Decision>) {
    forall k | 0 <= k < |decisions| ::
      decisions[k].supersedes == LatestVote(decisions, decisions[k].requestId, decisions[k].principal, k)
  }

  lemma {:induction false} LatestVotePrefix(decisions: seq<Decision>, more: seq<Decision>, requestId: nat,
                                            principal: nat, n: nat)
    requires n <= |decisions|
    ensures LatestVote(decisions + more, requestId, principal, n) == LatestVote(decisions, requestId, principal, n)
  {
    if n > 0 { LatestVotePrefix(decisions, more, requestId, principal, n - 1); }
  }

  /** Between a decision and its author's latest one there is a decision that supersedes it. */
  lemma {:induction false} SupersederExists(decisions: seq<Decision>, k: nat, n: nat)
    requires Chained(decisions) && k < n <= |decisions|
    requires LatestVote(decisions, decisions[k].requestId, decisions[k].principal, n) != Some(k)
    ensures IsSuperseded(decisions, decisions[k].requestId, k)
    decreases n
  {
    assert SameVoter(decisions, k, decisions[k].requestId, decisions[k].principal);
    var latest := LatestVote(decisions, decisions[k].requestId, decisions[k].principal, n).value;
    if decisions[latest].supersedes != Some(k) {
      SupersederExists(decisions, k, latest);
    }
  }

  /** In a chain only the last vote is effective. */
  lemma EffectiveIsLatest(decisions: seq<Decision>, k: nat)
    requires Chained(decisions) && k < |decisions|
    ensures IsEffective(decisions, decisions[k].requestId, k) <==>
            LatestVote(decisions, decisions[k].requestId, decisions[k].principal, |decisions|) == Some(k)
  {
    var latest := LatestVote(decisions, decisions[k].requestId, decisions[k].principal, |decisions|);
    if latest != Some(k) {
      SupersederExists(decisions, k, |decisions|);
    } else if IsSuperseded(decisions, decisions[k].requestId, k) {
      var j :| 0 <= j < |decisions| && decisions[j].requestId == decisions[k].requestId
          && decisions[j].supersedes == Some(k);
      assert SameVoter(decisions, j, decisions[k].requestId, decisions[k].principal);
    }
  }

  lemma ChainedPreserved(db: Db, effect: Effect, after: Db)
    requires ForeignKeys(db) && Chained(db.decisions) && Legal(db, effect) && Results(db, effect, after)
    ensures Chained(after.decisions)
  {
    hide RetryOf, FirstOfChain, EvaluationAfter, LogOf, KeyTaken, LogGain;
    if effect.Voted? || effect.VotedAndEnded? {
      VoteExtendsChain(db, effect.decision);
    }
  }

  lemma VoteExtendsChain(db: Db, d: Decision)
    requires ForeignKeys(db) && Chained(db.decisions) && Castable(db, d)
    ensures Chained(db.decisions + [d])
  {
    hide Castable, ForeignKeys;
    var before, decisions := db.decisions, db.decisions + [d];
    SupersedesLatest(db, d);
    forall k | 0 <= k < |decisions|
      ensures decisions[k].supersedes == LatestVote(decisions, decisions[k].requestId, decisions[k].principal, k)
    {
      LatestVotePrefix(before, [d], decisions[k].requestId, decisions[k].principal, k);
    }
  }

  lemma SupersedesLatest(db: Db, d: Decision)
    requires ForeignKeys(db) && Chained(db.decisions) && Castable(db, d)
    ensures d.supersedes == LatestVote(db.decisions, d.requestId, d.principal, |db.decisions|)
  {
    hide DefinitionOf, Chained;
    var latest := LatestVote(db.decisions, d.requestId, d.principal, |db.decisions|);
    if latest.Some? {
      EffectiveIsLatest(db.decisions, latest.value);
      assert latest.value in EffectiveDecisions(db.decisions, d.requestId) <==> d.supersedes.Some?;
    }
    if d.supersedes.Some? {
      EffectiveIsLatest(db.decisions, d.supersedes.value);
    }
  }

  function Voters(decisions: seq<Decision>, requestId: nat): set<nat> {
    set k | 0 <= k < |decisions| && decisions[k].requestId == requestId :: decisions[k].principal
  }

  /** Every voter has an effective vote, and no voter has two. */
  ghost predicate OneEffectiveEach(decisions: seq<Decision>, requestId: nat) {
    && (forall p | p in Voters(decisions, requestId) ::
          exists k: nat :: IsEffective(decisions, requestId, k) && decisions[k].principal == p)
    && (forall k: nat, l: nat | IsEffective(decisions, requestId, k) && IsEffective(decisions, requestId, l)
                                && decisions[k].principal == decisions[l].principal :: k == l)
  }

  /** Effective votes and voters correspond one to one: nobody counts twice or is lost. */
  lemma OneVoteEach(decisions: seq<Decision>, requestId: nat)
    requires Chained(decisions)
    ensures OneEffectiveEach(decisions, requestId)
    ensures |EffectiveDecisions(decisions, requestId)| == |Voters(decisions, requestId)|
  {
    forall p | p in Voters(decisions, requestId)
      ensures exists k: nat :: IsEffective(decisions, requestId, k) && decisions[k].principal == p
    {
      var j :| 0 <= j < |decisions| && decisions[j].requestId == requestId && decisions[j].principal == p;
      assert SameVoter(decisions, j, requestId, p);
      EffectiveIsLatest(decisions, LatestVote(decisions, requestId, p, |decisions|).value);
    }
    forall k: nat, l: nat | IsEffective(decisions, requestId, k) && IsEffective(decisions, requestId, l)
                            && decisions[k].principal == decisions[l].principal
      ensures k == l
    {
      EffectiveIsLatest(decisions, k);
      EffectiveIsLatest(decisions, l);
    }
    CountVoters(decisions, requestId);
  }

  predicate Ascending(ids: seq<nat>) {
    forall i, j | 0 <= i < j < |ids| :: ids[i] < ids[j]
  }

  lemma {:induction false} AscendingIds(decisions: seq<Decision>, requestId: nat, n: nat)
    requires n <= |decisions|
    ensures Ascending(EffectiveBelow(decisions, requestId, n))
  {
    if n > 0 {
      AscendingIds(decisions, requestId, n - 1);
      var before := EffectiveBelow(decisions, requestId, n - 1);
      forall i | 0 <= i < |before| ensures before[i] < n - 1 {
        assert before[i] in before;
      }
    }
  }

  lemma CountVoters(decisions: seq<Decision>, requestId: nat)
    requires OneEffectiveEach(decisions, requestId)
    ensures |EffectiveDecisions(decisions, requestId)| == |Voters(decisions, requestId)|
  {
    var ids := EffectiveDecisions(decisions, requestId);
    var names := seq<nat>(|ids|, i requires 0 <= i < |ids| => assert ids[i] in ids; decisions[ids[i]].principal);
    forall i, j | 0 <= i < j < |names| ensures names[i] != names[j] {
      AscendingIds(decisions, requestId, |decisions|);
      assert ids[i] in ids && ids[j] in ids && ids[i] < ids[j];
    }
    DistinctCount(names);
    forall p ensures p in names <==> p in Voters(decisions, requestId) {
      if p in names {
        var i :| 0 <= i < |names| && names[i] == p;
        assert ids[i] in ids;
      }
      if p in Voters(decisions, requestId) {
        var k: nat :| IsEffective(decisions, requestId, k) && decisions[k].principal == p;
        assert k in ids;
        var i :| 0 <= i < |ids| && ids[i] == k;
        assert names[i] == p;
      }
    }
    assert Elements(names) == Voters(decisions, requestId);
  }

  function Elements(names: seq<nat>): set<nat> {
    set p | p in names
  }

  lemma {:induction false} DistinctCount(names: seq<nat>)
    requires forall i, j | 0 <= i < j < |names| :: names[i] != names[j]
    ensures |Elements(names)| == |names|
  {
    if names == [] {
      assert Elements(names) == {};
    } else {
      var n := |names| - 1;
      DistinctCount(names[..n]);
      assert names == names[..n] + [names[n]] && names[n] !in names[..n];
      assert Elements(names) == Elements(names[..n]) + {names[n]};
    }
  }

  // ---------------------------------------------------------------- stored and live verdict

  ghost function LiveStatus(db: Db, i: nat): Verdict
    requires ForeignKeys(db) && PoliciesUsed(db) && i < |db.requests|
  {
    Evaluate(DefinitionOf(db, i), CurrentVotes(db, i)).status
  }

  function StoredVerdict(status: Status): Verdict {
    match status
    case Evaluated(v) => v
    case _ => Pending
  }

  /** The stored status of every request is what a fresh evaluation of its votes says; a
      request that expired or was superseded still evaluates to pending. */
  ghost predicate VerdictsAgree(db: Db)
    requires ForeignKeys(db) && PoliciesUsed(db)
  {
    forall i | 0 <= i < |db.requests| :: LiveStatus(db, i) == StoredVerdict(db.requests[i].status)
  }

  /** A decision on one request leaves the votes of the others alone. */
  lemma {:induction false} OtherRequestBelow(decisions: seq<Decision>, d: Decision, requestId: nat, n: nat)
    requires d.requestId != requestId && n <= |decisions|
    ensures EffectiveBelow(decisions + [d], requestId, n) == EffectiveBelow(decisions, requestId, n)
  {
    if n > 0 {
      OtherRequestBelow(decisions, d, requestId, n - 1);
      SupersededElsewhere(decisions, d, requestId, n - 1);
    }
  }

  lemma SupersededElsewhere(decisions: seq<Decision>, d: Decision, requestId: nat, k: nat)
    requires d.requestId != requestId
    ensures IsSuperseded(decisions + [d], requestId, k) <==> IsSuperseded(decisions, requestId, k)
  {
    var longer := decisions + [d];
    assert forall j | 0 <= j < |decisions| :: longer[j] == decisions[j];
  }

  lemma OtherRequestVotes(db: Db, d: Decision, requestId: nat)
    requires d.requestId != requestId
    ensures CurrentVotes(AddDecision(db, d), requestId) == CurrentVotes(db, requestId)
  {
    OtherRequestBelow(db.decisions, d, requestId, |db.decisions|);
    assert EffectiveDecisions(db.decisions + [d], requestId) == EffectiveDecisions(db.decisions, requestId);
    forall i | 0 <= i < |EffectiveDecisions(db.decisions, requestId)|
      ensures EffectiveDecisions(db.decisions, requestId)[i] in EffectiveDecisions(db.decisions, requestId)
    {
    }
  }

  lemma UnknownRequestHasNoVotes(db: Db, requestId: nat)
    requires ForeignKeys(db) && |db.requests| <= requestId
    ensures CurrentVotes(db, requestId) == []
  {
    NoneEffective(db.decisions, requestId, |db.decisions|);
  }

  lemma {:induction false} NoneEffective(decisions: seq<Decision>, requestId: nat, n: nat)
    requires n <= |decisions| && forall k | 0 <= k < |decisions| :: decisions[k].requestId != requestId
    ensures EffectiveBelow(decisions, requestId, n) == []
  {
    if n > 0 { NoneEffective(decisions, requestId, n - 1); }
  }

  lemma VerdictsPreserved(db: Db, effect: Effect, after: Db)
    requires ForeignKeys(db) && PoliciesUsed(db) && VerdictsAgree(db)
    requires Legal(db, effect) && Results(db, effect, after) && ForeignKeys(after) && PoliciesUsed(after)
    ensures VerdictsAgree(after)
  {
    forall i | 0 <= i < |after.requests| ensures LiveStatus(after, i) == StoredVerdict(after.requests[i].status) {
      VerdictPreserved(db, effect, after, i);
    }
  }

  lemma VerdictPreserved(db: Db, effect: Effect, after: Db, i: nat)
    requires ForeignKeys(db) && PoliciesUsed(db) && VerdictsAgree(db)
    requires Legal(db, effect) && Results(db, effect, after) && ForeignKeys(after) && PoliciesUsed(after)
    requires i < |after.requests|
    ensures LiveStatus(after, i) == StoredVerdict(after.requests[i].status)
  {
    hide RetryOf, FirstOfChain, LogOf, KeyTaken, LogGain, Evaluate, EffectiveDecisions, VotesOf;
    if i == |db.requests| {
      UnknownRequestHasNoVotes(db, i);
      NoVotesArePending(DefinitionOf(after, i));
      assert CurrentVotes(after, i) == CurrentVotes(db, i);
    } else {
      assert LiveStatus(db, i) == StoredVerdict(db.requests[i].status);
      assert DefinitionOf(after, i) == DefinitionOf(db, i);
      if effect.Voted? || effect.VotedAndEnded? {
        var d := effect.decision;
        assert CurrentVotes(after, i) == CurrentVotes(AddDecision(db, d), i);
        if d.requestId != i { OtherRequestVotes(db, d, i); }
      } else {
        assert CurrentVotes(after, i) == CurrentVotes(db, i);
      }
    }
  }
}
