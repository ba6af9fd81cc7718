/** The approval evaluator: from a policy and the effective votes to a verdict. */
module Evaluator {
  import opened Policy
  import opened Matching

  datatype Vote = Approve | Reject
  datatype Verdict = Pending | Approved | Rejected
  datatype MissionEffect = Unchanged | Blocked

  /** The evaluator's fixed explanations, one name per text. */
  datatype Reason =
    | QuorumNotYetSatisfied
    | ApprovalsOutnumberRejections
    | ApprovalsDoNotOutnumberRejections
    | RejectionExists
    | NoRejection
    | VetoAuthorizedRejection
    | ApprovedWithoutVeto
    | NoApprovalYet

  datatype EffectiveDecision =
    EffectiveDecision(principal: nat, vote: Vote, roles: set<string>, trust: string)

  datatype Evaluation = Evaluation(
    status: Verdict,
    quorumSatisfied: bool,
    approvals: seq<nat>,
    rejections: seq<nat>,
    missing: seq<string>,
    missionEffect: Option<MissionEffect>,
    reason: Reason)

  // ---------------------------------------------------------------- the computation

  function WithVote(decisions: seq<EffectiveDecision>, vote: Vote): seq<EffectiveDecision> {
    if decisions == [] then []
    else if decisions[0].vote == vote then [decisions[0]] + WithVote(decisions[1..], vote)
    else WithVote(decisions[1..], vote)
  }

  function PrincipalsOf(decisions: seq<EffectiveDecision>): seq<nat> {
    seq(|decisions|, i requires 0 <= i < |decisions| => decisions[i].principal)
  }

  predicate HoldsOneOf(decision: EffectiveDecision, roles: seq<string>) {
    exists r | r in roles :: r in decision.roles
  }

  /** Indices below `n` of the approvals eligible for `slot`, in ascending order. */
  function EligibleFor(slot: QuorumSlot, approvals: seq<EffectiveDecision>, n: nat): (indices: seq<nat>)
    requires n <= |approvals|
    ensures forall p :: p in indices <==> 0 <= p < n && HoldsOneOf(approvals[p], slot.eligibleRoles)
  {
    if n == 0 then []
    else
      var before := EligibleFor(slot, approvals, n - 1);
      if HoldsOneOf(approvals[n - 1], slot.eligibleRoles) then before + [n - 1] else before
  }

  function Adjacency(slots: seq<QuorumSlot>, approvals: seq<EffectiveDecision>): (g: Graph)
    ensures |g| == |slots|
    ensures forall s: nat, p: nat :: Edge(g, s, p) <==>
              s < |slots| && p < |approvals| && HoldsOneOf(approvals[p], slots[s].eligibleRoles)
  {
    seq(|slots|, s requires 0 <= s < |slots| => EligibleFor(slots[s], approvals, |approvals|))
  }

  /** The names of the slots outside `filled`, in slot order. */
  function Missing(slots: seq<QuorumSlot>, filled: set<nat>, n: nat): (names: seq<string>)
    requires n <= |slots|
  {
    if n == 0 then []
    else
      var before := Missing(slots, filled, n - 1);
      if n - 1 in filled then before else before + [slots[n - 1].name]
  }

  function EvaluateMajority(quorum: bool, approveCount: nat, rejectCount: nat): (Verdict, Reason) {
    if !quorum then (Pending, QuorumNotYetSatisfied)
    else if approveCount > rejectCount then
      (Approved, ApprovalsOutnumberRejections)
    else (Rejected, ApprovalsDoNotOutnumberRejections)
  }

  function EvaluateUnanimous(quorum: bool, hasRejection: bool): (Verdict, Reason) {
    if !quorum then (Pending, QuorumNotYetSatisfied)
    else if hasRejection then
      (Rejected, RejectionExists)
    else (Approved, NoRejection)
  }

  function EvaluateVeto(vetoRoles: seq<string>, rejections: seq<EffectiveDecision>, quorum: bool, hasApproval: bool)
    : (Verdict, Reason)
  {
    if exists d | d in rejections :: HoldsOneOf(d, vetoRoles) then
      (Rejected, VetoAuthorizedRejection)
    else if quorum && hasApproval then
      (Approved, ApprovedWithoutVeto)
    else if quorum then
      (Pending, NoApprovalYet)
    else (Pending, QuorumNotYetSatisfied)
  }

  function ApplyRule(policy: PolicyDefinition, approvals: seq<EffectiveDecision>, rejections: seq<EffectiveDecision>,
                     quorum: bool): (Verdict, Reason)
    requires policy.Valid()
  {
    match policy.rule
    case Veto => EvaluateVeto(policy.vetoRoles.value, rejections, quorum, |approvals| > 0)
    case Unanimous => EvaluateUnanimous(quorum, |rejections| > 0)
    case Majority => EvaluateMajority(quorum, |approvals|, |rejections|)
  }

  /** The evaluation report, given which slots the matching fills. */
  function Report(policy: PolicyDefinition, decisions: seq<EffectiveDecision>, filled: set<nat>): Evaluation
    requires policy.Valid()
  {
    var approvals, rejections := WithVote(decisions, Approve), WithVote(decisions, Reject);
    var quorum := |filled| == |policy.slots|;
    var (status, reason) := ApplyRule(policy, approvals, rejections, quorum);
    Evaluation(
      status, quorum, PrincipalsOf(approvals), PrincipalsOf(rejections),
      Missing(policy.slots, filled, |policy.slots|),
      if status == Rejected then
        Some(if policy.rejectionBehavior == LeaveMissionUnchanged then Unchanged else Blocked)
      else None,
      reason)
  }

  /** The slots that the approvals among `decisions` fill. */
  ghost function FilledSlots(policy: PolicyDefinition, decisions: seq<EffectiveDecision>): (filled: set<nat>)
    ensures forall s | s in filled :: s < |policy.slots|
  {
    Greedy(Adjacency(policy.slots, WithVote(decisions, Approve)), |policy.slots|)
  }

  ghost function Evaluate(policy: PolicyDefinition, decisions: seq<EffectiveDecision>): Evaluation
    requires policy.Valid()
  {
    Report(policy, decisions, FilledSlots(policy, decisions))
  }

  method EvaluateApproval(policy: PolicyDefinition, decisions: seq<EffectiveDecision>) returns (evaluation: Evaluation)
    requires policy.Valid()
    ensures evaluation == Evaluate(policy, decisions)
  {
    var matcher := new Matcher(Adjacency(policy.slots, WithVote(decisions, Approve)));
    var matching := matcher.MaxBipartiteMatching();
    evaluation := Report(policy, decisions, matching.Keys);
  }

  // ---------------------------------------------------------------- quorum means an assignment

  /** Distinct approving votes, one for every slot, each eligible for its slot. */
  ghost predicate FillsEverySlot(policy: PolicyDefinition, approvals: seq<EffectiveDecision>, pick: seq<nat>) {
    && |pick| == |policy.slots|
    && (forall s | 0 <= s < |pick| ::
          && pick[s] < |approvals|
          && exists role | role in policy.slots[s].eligibleRoles :: role in approvals[pick[s]].roles)
    && (forall s, t | 0 <= s < t < |pick| :: pick[s] != pick[t])
  }

  ghost predicate HasAssignment(policy: PolicyDefinition, decisions: seq<EffectiveDecision>) {
    exists pick :: FillsEverySlot(policy, WithVote(decisions, Approve), pick)
  }

  lemma QuorumIsAnAssignment(policy: PolicyDefinition, decisions: seq<EffectiveDecision>)
    requires policy.Valid()
    ensures Evaluate(policy, decisions).quorumSatisfied <==> HasAssignment(policy, decisions)
  {
    hide Matchable, FillsEverySlot;
    AllSlotsFilledIff(Adjacency(policy.slots, WithVote(decisions, Approve)), |policy.slots|);
    AssignmentIffMatchable(policy, decisions);
  }

  lemma AssignmentIffMatchable(policy: PolicyDefinition, decisions: seq<EffectiveDecision>)
    ensures HasAssignment(policy, decisions) <==>
            Matchable(Adjacency(policy.slots, WithVote(decisions, Approve)), Below(|policy.slots|))
  {
    hide Matchable, FillsEverySlot;
    var approvals := WithVote(decisions, Approve);
    var g, n := Adjacency(policy.slots, approvals), |policy.slots|;
    if Matchable(g, Below(n)) {
      var m := Witness(g, Below(n));
      var pick := PickFromMatching(policy, approvals, m);
    }
    if pick :| FillsEverySlot(policy, approvals, pick) {
      MatchingFromPick(policy, approvals, pick);
    }
  }

  lemma AllSlotsFilledIff(g: Graph, n: nat)
    requires n <= |g|
    ensures |Greedy(g, n)| == n <==> Matchable(g, Below(n))
  {
    hide Matchable;
    GreedyFillsAllIff(g, n);
    var filled := Greedy(g, n);
    assert Below(n) == filled + (Below(n) - filled);
  }

  lemma PickFromMatching(policy: PolicyDefinition, approvals: seq<EffectiveDecision>, m: map<nat, nat>)
    returns (pick: seq<nat>)
    requires IsMatching(Adjacency(policy.slots, approvals), m) && m.Keys == Below(|policy.slots|)
    ensures FillsEverySlot(policy, approvals, pick)
  {
    hide HoldsOneOf, IsMatching, Adjacency;
    pick := seq(|policy.slots|, s requires 0 <= s < |policy.slots| => m[s]);
    DistinctPicks(Adjacency(policy.slots, approvals), m, pick);
    forall s | 0 <= s < |pick|
      ensures pick[s] < |approvals|
      ensures exists role | role in policy.slots[s].eligibleRoles :: role in approvals[pick[s]].roles
    {
      MatchedIsEligible(policy.slots, approvals, m, s);
    }
  }

  lemma MatchedIsEligible(slots: seq<QuorumSlot>, approvals: seq<EffectiveDecision>, m: map<nat, nat>, s: nat)
    requires IsMatching(Adjacency(slots, approvals), m) && s in m
    ensures s < |slots| && m[s] < |approvals|
    ensures exists role | role in slots[s].eligibleRoles :: role in approvals[m[s]].roles
  {
    assert Edge(Adjacency(slots, approvals), s, m[s]);
  }

  lemma DistinctPicks(g: Graph, m: map<nat, nat>, pick: seq<nat>)
    requires IsMatching(g, m) && forall s: nat | s < |pick| :: s in m && m[s] == pick[s]
    ensures forall s, t | 0 <= s < t < |pick| :: pick[s] != pick[t]
  {
  }

  lemma MatchingFromPick(policy: PolicyDefinition, approvals: seq<EffectiveDecision>, pick: seq<nat>)
    requires FillsEverySlot(policy, approvals, pick)
    ensures Matchable(Adjacency(policy.slots, approvals), Below(|policy.slots|))
  {
    var m := map s | s in Below(|policy.slots|) :: pick[s];
    assert IsMatching(Adjacency(policy.slots, approvals), m);
  }

  /** No choice of slots that could be filled together leaves fewer slots missing. */
  lemma MissingIsFewest(policy: PolicyDefinition, decisions: seq<EffectiveDecision>, slots: set<nat>)
    requires policy.Valid()
    requires Matchable(Adjacency(policy.slots, WithVote(decisions, Approve)), slots)
    ensures |Evaluate(policy, decisions).missing| + |slots| <= |policy.slots|
  {
    var g, n := Adjacency(policy.slots, WithVote(decisions, Approve)), |policy.slots|;
    var m := Witness(g, slots);
    assert forall s | s in m :: Edge(g, s, m[s]);
    GreedyIsMaximum(g, n, m);
    MissingCount(policy.slots, FilledSlots(policy, decisions), n);
  }

  lemma {:induction false} MissingCount(slots: seq<QuorumSlot>, filled: set<nat>, n: nat)
    requires n <= |slots| && forall s | s in filled :: s < n
    ensures |Missing(slots, filled, n)| + |filled| == n
  {
    if n == 0 {
      assert filled == {};
    } else {
      MissingCount(slots, filled - {n - 1}, n - 1);
      MissingDependsOnPrefix(slots, filled, filled - {n - 1}, n - 1);
    }
  }

  lemma {:induction false} MissingDependsOnPrefix(slots: seq<QuorumSlot>, a: set<nat>, b: set<nat>, n: nat)
    requires n <= |slots| && forall s: nat | s < n :: s in a <==> s in b
    ensures Missing(slots, a, n) == Missing(slots, b, n)
  {
    if n > 0 { MissingDependsOnPrefix(slots, a, b, n - 1); }
  }

  lemma {:induction false} MissingNames(slots: seq<QuorumSlot>, filled: set<nat>, n: nat, name: string)
    requires n <= |slots|
    ensures name in Missing(slots, filled, n) <==> exists s :: 0 <= s < n && s !in filled && slots[s].name == name
  {
    if n > 0 { MissingNames(slots, filled, n - 1, name); }
  }

  // ---------------------------------------------------------------- what the verdict means

  ghost predicate Vetoed(policy: PolicyDefinition, decisions: seq<EffectiveDecision>) {
    policy.vetoRoles.Some? &&
    exists d :: d in decisions && d.vote == Reject && exists role | role in policy.vetoRoles.value :: role in d.roles
  }

  lemma {:induction false} WithVoteMembers(decisions: seq<EffectiveDecision>, vote: Vote, d: EffectiveDecision)
    ensures d in WithVote(decisions, vote) <==> d in decisions && d.vote == vote
  {
    if decisions != [] { WithVoteMembers(decisions[1..], vote, d); }
  }

  /** A filled quorum needs at least one approval per slot, and leaves nothing open:
      the veto rule's "quorum but no approval yet" answer never occurs. */
  lemma QuorumDecides(policy: PolicyDefinition, decisions: seq<EffectiveDecision>)
    requires policy.Valid() && Evaluate(policy, decisions).quorumSatisfied
    ensures |Evaluate(policy, decisions).approvals| >= |policy.slots| >= 1
    ensures Evaluate(policy, decisions).status != Pending
    ensures Evaluate(policy, decisions).missing == []
  {
    hide FilledSlots, HoldsOneOf, WithVote, Missing;
    MissingCount(policy.slots, FilledSlots(policy, decisions), |policy.slots|);
    FilledNeedApprovals(policy, decisions);
  }

  lemma FilledNeedApprovals(policy: PolicyDefinition, decisions: seq<EffectiveDecision>)
    ensures |FilledSlots(policy, decisions)| <= |WithVote(decisions, Approve)|
  {
    hide Matchable, HoldsOneOf, EligibleFor, IsMatching, WithVote;
    var approvals := WithVote(decisions, Approve);
    var g, n := Adjacency(policy.slots, approvals), |policy.slots|;
    GreedyIsMatchable(g, n);
    var m := Witness(g, Greedy(g, n));
    Pigeonhole(g, m, m.Keys, Below(|approvals|));
  }

  lemma VerdictMeaning(policy: PolicyDefinition, decisions: seq<EffectiveDecision>)
    requires policy.Valid()
    ensures var e := Evaluate(policy, decisions);
            && (e.status == Approved <==>
                  && e.quorumSatisfied && !Vetoed(policy, decisions)
                  && (policy.rule == Majority ==> |e.approvals| > |e.rejections|)
                  && (policy.rule == Unanimous ==> forall d | d in decisions :: d.vote == Approve))
            && (e.status == Pending <==> !e.quorumSatisfied && !Vetoed(policy, decisions))
            && (e.missionEffect.Some? <==> e.status == Rejected)
  {
    hide Matchable, EligibleFor, Greedy, WithVote, Missing;
    var rejections := WithVote(decisions, Reject);
    forall d ensures d in rejections <==> d in decisions && d.vote == Reject {
      WithVoteMembers(decisions, Reject, d);
    }
    if Evaluate(policy, decisions).quorumSatisfied { QuorumDecides(policy, decisions); }
    if rejections != [] { assert rejections[0] in rejections; }
  }

  /** A rejection has the effect its policy names, and nothing else has an effect. */
  lemma EffectMeaning(policy: PolicyDefinition, decisions: seq<EffectiveDecision>)
    requires policy.Valid()
    ensures var e := Evaluate(policy, decisions);
            && (e.missionEffect == Some(Blocked) <==>
                  e.status == Rejected && policy.rejectionBehavior == BlockMission)
            && (e.missionEffect == Some(Unchanged) <==>
                  e.status == Rejected && policy.rejectionBehavior == LeaveMissionUnchanged)
  {
    hide FilledSlots, ApplyRule, Missing;
  }

  /** Every explanation is given exactly when it is the case. */
  lemma ReasonMeaning(policy: PolicyDefinition, decisions: seq<EffectiveDecision>)
    requires policy.Valid()
    ensures var e := Evaluate(policy, decisions);
            && (e.reason == QuorumNotYetSatisfied <==> e.status == Pending)
            && (e.reason == VetoAuthorizedRejection <==> Vetoed(policy, decisions))
            && (e.reason == ApprovalsOutnumberRejections <==> policy.rule == Majority && e.status == Approved)
            && (e.reason == ApprovalsDoNotOutnumberRejections <==> policy.rule == Majority && e.status == Rejected)
            && (e.reason == RejectionExists <==> policy.rule == Unanimous && e.status == Rejected)
            && (e.reason == NoRejection <==> policy.rule == Unanimous && e.status == Approved)
            && (e.reason == ApprovedWithoutVeto <==> policy.rule == Veto && e.status == Approved)
            && e.reason != NoApprovalYet
  {
    hide Matchable, EligibleFor, Greedy, WithVote, Missing;
    var rejections := WithVote(decisions, Reject);
    forall d ensures d in rejections <==> d in decisions && d.vote == Reject {
      WithVoteMembers(decisions, Reject, d);
    }
    if Evaluate(policy, decisions).quorumSatisfied { QuorumDecides(policy, decisions); }
  }

  /** A vote is listed under its kind, after those read before it. */
  lemma VotesAreListed(policy: PolicyDefinition, decisions: seq<EffectiveDecision>, d: EffectiveDecision)
    requires policy.Valid()
    ensures var before, after := Evaluate(policy, decisions), Evaluate(policy, decisions + [d]);
            && after.approvals == before.approvals + (if d.vote == Approve then [d.principal] else [])
            && after.rejections == before.rejections + (if d.vote == Reject then [d.principal] else [])
    ensures Evaluate(policy, []).approvals == Evaluate(policy, []).rejections == []
  {
    hide FilledSlots, ApplyRule, Missing;
    WithVoteAppend(decisions, d, Approve);
    WithVoteAppend(decisions, d, Reject);
  }

  /** Missing names come in the order of the slots. */
  lemma {:induction false} MissingInSlotOrder(slots: seq<QuorumSlot>, filled: set<nat>, n: nat, i: nat, j: nat)
    returns (s: nat, t: nat)
    requires n <= |slots| && i < j < |Missing(slots, filled, n)|
    ensures s < t < n && s !in filled && t !in filled
    ensures Missing(slots, filled, n)[i] == slots[s].name && Missing(slots, filled, n)[j] == slots[t].name
  {
    var before := Missing(slots, filled, n - 1);
    if j < |before| {
      s, t := MissingInSlotOrder(slots, filled, n - 1, i, j);
    } else {
      assert before[i] in before;
      MissingNames(slots, filled, n - 1, before[i]);
      s :| 0 <= s < n - 1 && s !in filled && slots[s].name == before[i];
      t := n - 1;
    }
  }

  lemma NoVotesArePending(policy: PolicyDefinition)
    requires policy.Valid()
    ensures Evaluate(policy, []).status == Pending && !Evaluate(policy, []).quorumSatisfied
  {
    if Evaluate(policy, []).quorumSatisfied { QuorumDecides(policy, []); }
  }

  // ---------------------------------------------------------------- order of the votes

  /** A one-to-one renaming of positions that carries `a` onto `b`. */
  ghost predicate Carries<T>(a: seq<T>, b: seq<T>, f: map<nat, nat>) {
    && (forall i | 0 <= i < |a| :: i in f && f[i] < |b| && a[i] == b[f[i]])
    && (forall i, j | i in f && j in f && f[i] == f[j] :: i == j)
    && (forall i | i in f :: i < |a|)
  }

  lemma {:induction false} PermutationCarries<T>(a: seq<T>, b: seq<T>) returns (f: map<nat, nat>)
    requires multiset(a) == multiset(b)
    ensures Carries(a, b, f)
  {
    if |a| == 0 {
      f := map[];
    } else {
      var n := |a| - 1;
      assert a == a[..n] + [a[n]];
      assert a[n] in multiset(b);
      var j :| 0 <= j < |b| && b[j] == a[n];
      var rest := b[..j] + b[j + 1..];
      assert b == b[..j] + [b[j]] + b[j + 1..];
      assert multiset(rest) == multiset(b) - multiset{a[n]};
      var inner := PermutationCarries(a[..n], rest);
      f := OpenGap(a[..n], rest, inner, j, a[n]);
      assert b == rest[..j] + [a[n]] + rest[j..];
    }
  }

  /** Where position `k` goes when an element is inserted at position `j`. */
  function Shifted(k: nat, j: nat): nat {
    if k < j then k else k + 1
  }

  lemma ShiftedAt<T>(b: seq<T>, j: nat, x: T, k: nat)
    requires j <= |b| && k < |b|
    ensures (b[..j] + [x] + b[j..])[Shifted(k, j)] == b[k]
  {
  }

  /** Inserting one element at position `j` of the target. */
  lemma OpenGap<T>(a: seq<T>, b: seq<T>, f: map<nat, nat>, j: nat, x: T) returns (f': map<nat, nat>)
    requires Carries(a, b, f) && j <= |b|
    ensures Carries(a + [x], b[..j] + [x] + b[j..], f')
  {
    var longer, target := a + [x], b[..j] + [x] + b[j..];
    var moved: map<nat, nat> := map i | i in f :: Shifted(f[i], j);
    forall i | i in moved ensures moved[i] != j && moved[i] < |target| && longer[i] == target[moved[i]] {
      ShiftedAt(b, j, x, f[i]);
    }
    f' := moved[|a| := j];
    CarriesOneMore(longer, target, moved, j);
  }

  lemma CarriesOneMore<T>(a: seq<T>, b: seq<T>, f: map<nat, nat>, j: nat)
    requires |a| > 0 && j < |b| && a[|a| - 1] == b[j]
    requires forall i: nat :: i in f <==> i < |a| - 1
    requires forall i | i in f :: f[i] != j && f[i] < |b| && a[i] == b[f[i]]
    requires forall i, k | i in f && k in f && f[i] == f[k] :: i == k
    ensures Carries(a, b, f[|a| - 1 := j])
  {
  }

  lemma {:induction false} WithVoteMultiset(decisions: seq<EffectiveDecision>, vote: Vote, d: EffectiveDecision)
    ensures multiset(WithVote(decisions, vote))[d] == if d.vote == vote then multiset(decisions)[d] else 0
  {
    if decisions != [] {
      WithVoteMultiset(decisions[1..], vote, d);
      assert decisions == [decisions[0]] + decisions[1..];
    }
  }

  lemma WithVotePermuted(a: seq<EffectiveDecision>, b: seq<EffectiveDecision>, vote: Vote)
    requires multiset(a) == multiset(b)
    ensures multiset(WithVote(a, vote)) == multiset(WithVote(b, vote))
    ensures |WithVote(a, vote)| == |WithVote(b, vote)|
  {
    forall d ensures multiset(WithVote(a, vote))[d] == multiset(WithVote(b, vote))[d] {
      WithVoteMultiset(a, vote, d);
      WithVoteMultiset(b, vote, d);
    }
    assert multiset(WithVote(a, vote)) == multiset(WithVote(b, vote));
    assert |WithVote(a, vote)| == |multiset(WithVote(a, vote))|;
  }

  lemma CarriedAdjacency(slots: seq<QuorumSlot>, a: seq<EffectiveDecision>, b: seq<EffectiveDecision>, f: map<nat, nat>)
    requires Carries(a, b, f)
    ensures Renamed(Adjacency(slots, a), Adjacency(slots, b), f)
  {
  }

  lemma FilledSlotsPermuted(policy: PolicyDefinition, a: seq<EffectiveDecision>, b: seq<EffectiveDecision>)
    requires multiset(a) == multiset(b)
    ensures FilledSlots(policy, a) == FilledSlots(policy, b)
  {
    WithVotePermuted(a, b, Approve);
    var a', b' := WithVote(a, Approve), WithVote(b, Approve);
    var f := PermutationCarries(a', b');
    var back := PermutationCarries(b', a');
    CarriedAdjacency(policy.slots, a', b', f);
    CarriedAdjacency(policy.slots, b', a', back);
    RenamedGreedy(Adjacency(policy.slots, a'), Adjacency(policy.slots, b'), f, back, |policy.slots|);
  }

  /** The verdict does not depend on the order in which the votes are read. */
  lemma OrderIndependent(policy: PolicyDefinition, a: seq<EffectiveDecision>, b: seq<EffectiveDecision>)
    requires policy.Valid() && multiset(a) == multiset(b)
    ensures var x, y := Evaluate(policy, a), Evaluate(policy, b);
            && x.status == y.status && x.quorumSatisfied == y.quorumSatisfied && x.missing == y.missing
            && x.missionEffect == y.missionEffect && x.reason == y.reason
            && |x.approvals| == |y.approvals| && |x.rejections| == |y.rejections|
  {
    hide Matchable, HoldsOneOf, FilledSlots, WithVote, Missing, ApplyRule;
    FilledSlotsPermuted(policy, a, b);
    WithVotePermuted(a, b, Approve);
    WithVotePermuted(a, b, Reject);
    RulePermuted(policy, WithVote(a, Approve), WithVote(b, Approve), WithVote(a, Reject), WithVote(b, Reject),
                 Evaluate(policy, a).quorumSatisfied);
  }

  lemma RulePermuted(policy: PolicyDefinition, a: seq<EffectiveDecision>, b: seq<EffectiveDecision>,
                     r: seq<EffectiveDecision>, t: seq<EffectiveDecision>, quorum: bool)
    requires policy.Valid() && |a| == |b| && |r| == |t| && multiset(r) == multiset(t)
    ensures ApplyRule(policy, a, r, quorum) == ApplyRule(policy, b, t, quorum)
  {
    hide HoldsOneOf;
    forall d ensures d in r <==> d in t {
      assert d in multiset(r) <==> d in multiset(t);
    }
  }

  // ---------------------------------------------------------------- one more vote

  lemma {:induction false} WithVoteAppend(decisions: seq<EffectiveDecision>, d: EffectiveDecision, vote: Vote)
    ensures WithVote(decisions + [d], vote) == WithVote(decisions, vote) + (if d.vote == vote then [d] else [])
  {
    if decisions == [] {
    } else {
      assert (decisions + [d])[1..] == decisions[1..] + [d];
      WithVoteAppend(decisions[1..], d, vote);
    }
  }

  /** An extra approval keeps every filled slot filled and fills at most one more. */
  lemma ExtraApproval(policy: PolicyDefinition, decisions: seq<EffectiveDecision>, d: EffectiveDecision)
    requires policy.Valid() && d.vote == Approve
    ensures var before, after := Evaluate(policy, decisions), Evaluate(policy, decisions + [d]);
            && (forall name | name in after.missing :: name in before.missing)
            && |after.missing| <= |before.missing| <= |after.missing| + 1
            && (before.quorumSatisfied ==> after.quorumSatisfied)
            && (before.status == Approved ==> after.status == Approved)
  {
    hide Matchable, HoldsOneOf, EligibleFor, Greedy, WithVote, Missing, AddsPrincipal;
    var approvals, n := WithVote(decisions, Approve), |policy.slots|;
    WithVoteAppend(decisions, d, Approve);
    WithVoteAppend(decisions, d, Reject);
    var g, h := Adjacency(policy.slots, approvals), Adjacency(policy.slots, approvals + [d]);
    NewcomerIsNew(policy.slots, approvals, d);
    AddedPrincipalKeepsFilled(g, h, |approvals|, n);
    AddedPrincipalFillsAtMostOneMore(g, h, |approvals|, n);
    MissingCount(policy.slots, Greedy(g, n), n);
    MissingCount(policy.slots, Greedy(h, n), n);
    MoreFilledFewerMissing(policy.slots, Greedy(g, n), Greedy(h, n), n);
  }

  lemma NewcomerIsNew(slots: seq<QuorumSlot>, approvals: seq<EffectiveDecision>, d: EffectiveDecision)
    ensures AddsPrincipal(Adjacency(slots, approvals), Adjacency(slots, approvals + [d]), |approvals|)
  {
    var g := Adjacency(slots, approvals);
    forall s, k | 0 <= s < |g| && 0 <= k < |g[s]| ensures g[s][k] != |approvals| {
      assert Edge(g, s, g[s][k]);
    }
  }

  lemma MoreFilledFewerMissing(slots: seq<QuorumSlot>, filled: set<nat>, filled': set<nat>, n: nat)
    requires n <= |slots| && filled <= filled' && forall s | s in filled' :: s < n
    ensures forall name | name in Missing(slots, filled', n) :: name in Missing(slots, filled, n)
    ensures |Missing(slots, filled', n)| <= |Missing(slots, filled, n)|
  {
    forall name ensures name in Missing(slots, filled', n) ==> name in Missing(slots, filled, n) {
      MissingNames(slots, filled, n, name);
      MissingNames(slots, filled', n, name);
    }
    MissingCount(slots, filled, n);
    MissingCount(slots, filled', n);
    assert filled' == filled + (filled' - filled);
  }

  /** An extra rejection never fills or empties a slot, and never approves anything. */
  lemma ExtraRejection(policy: PolicyDefinition, decisions: seq<EffectiveDecision>, d: EffectiveDecision)
    requires policy.Valid() && d.vote == Reject
    ensures var before, after := Evaluate(policy, decisions), Evaluate(policy, decisions + [d]);
            && after.missing == before.missing && after.quorumSatisfied == before.quorumSatisfied
            && (after.status == Approved ==> before.status == Approved)
            && (before.status == Rejected ==> after.status == Rejected)
  {
    hide Matchable, HoldsOneOf, EligibleFor, Greedy, WithVote, Missing;
    WithVoteAppend(decisions, d, Approve);
    WithVoteAppend(decisions, d, Reject);
    assert WithVote(decisions + [d], Approve) == WithVote(decisions, Approve);
    VerdictMeaning(policy, decisions);
    VerdictMeaning(policy, decisions + [d]);
  }
}
