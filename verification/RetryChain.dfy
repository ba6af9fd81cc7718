/** Requests recreated on expiry form chains: each retry continues the one before it, under
    a key made from the key of the first, and no two requests ever share a key. */
module RetryChain {
  import opened Policy
  import opened Text
  import opened ApprovalStore
  import opened ApprovalEffects

  // ---------------------------------------------------------------- key texts

  predicate WellBase(base: string) {
    && Markless(base)
    && (StartsWith(base, RecreatePrefix()) ==> BarFree(base[|RecreatePrefix()|..]))
  }

  lemma RecreateBase(id: nat)
    ensures WellBase(RecreatePrefix() + Decimal(id))
    ensures StartsWith(RecreatePrefix() + Decimal(id), RecreatePrefix())
    ensures (RecreatePrefix() + Decimal(id))[|RecreatePrefix()|..] == Decimal(id)
  {
    var base := RecreatePrefix() + Decimal(id);
    assert base[..|RecreatePrefix()|] == RecreatePrefix();
    assert base[|RecreatePrefix()|..] == Decimal(id);
    assert BarFree(base);
  }

  lemma MarkedPrefix(base: string, tail: string)
    ensures StartsWith(base + RetryMark() + tail, RecreatePrefix()) <==> StartsWith(base, RecreatePrefix())
  {
    var key, prefix := base + RetryMark() + tail, RecreatePrefix();
    if StartsWith(base, prefix) {
      assert key[..|prefix|] == base[..|prefix|];
    } else if |prefix| <= |base| {
      assert key[..|prefix|] == base[..|prefix|];
    } else {
      assert key[|base|] == '|';
      assert prefix[|base|] != '|';
      assert |prefix| <= |key| ==> key[..|prefix|][|base|] == key[|base|];
    }
  }

  /** Stripping gives back the base, whether or not the key carries a retry mark. */
  lemma BaseOfKey(base: string, tail: string)
    requires WellBase(base)
    ensures BaseOf(base + RetryMark() + tail) == base
    ensures BaseOf(base) == base
  {
    hide StartsWith, Before, BarFree, Markless, RetryMark, RecreatePrefix;
    MarkedPrefix(base, tail);
    if StartsWith(base, RecreatePrefix()) {
      StrippedRecreate(base, tail);
    } else {
      MarklessBefore(base);
      MarkedBefore(base, tail);
    }
  }

  lemma StrippedRecreate(base: string, tail: string)
    requires StartsWith(base, RecreatePrefix()) && BarFree(base[|RecreatePrefix()|..])
    ensures |RecreatePrefix()| <= |base + RetryMark() + tail|
    ensures RecreatePrefix() + Before((base + RetryMark() + tail)[|RecreatePrefix()|..], ['|']) == base
    ensures RecreatePrefix() + Before(base[|RecreatePrefix()|..], ['|']) == base
  {
    var root, mark := base[|RecreatePrefix()|..], RetryMark();
    assert base == RecreatePrefix() + root;
    assert mark == ['|'] + mark[1..];
    assert (base + mark + tail)[|RecreatePrefix()|..] == root + ['|'] + (mark[1..] + tail);
    BarBefore(root, mark[1..] + tail);
  }

  lemma MarklessConcat(a: string, b: string)
    requires Markless(a) && Markless(b)
    ensures Markless(a + b)
  {
    var s := a + b;
    forall i | 0 <= i < |s| && s[i] == '|' ensures i + 1 < |s| && s[i + 1] != 'r' {
      if i < |a| { assert a[i] == '|'; } else { assert b[i - |a|] == '|'; }
    }
  }

  lemma MissionKeyBase(head: Head)
    ensures WellBase(MissionKey(head)) && !StartsWith(MissionKey(head), RecreatePrefix())
  {
    StartsAlike(MissionKey(head), RecreatePrefix());
    MarklessMission(head);
  }

  lemma MarklessMission(head: Head)
    ensures Markless(MissionKey(head))
  {
    hide TriggerActionKey;
    var where_ := "mission:" + head.owner + "/" + head.repo + "#" + IntText(head.number);
    assert BarFree(where_);
    var action := "|action:" + TriggerActionKey();
    assert Markless(action) by { ActionText(); }
    var at := "|head:" + head.sha;
    assert Markless(at);
    MarklessConcat(where_, action);
    MarklessConcat(where_ + action, at);
    assert MissionKey(head) == where_ + action + at;
  }

  lemma ActionText()
    ensures Markless("|action:" + TriggerActionKey())
  {
    assert BarFree(TriggerActionKey());
  }

  // ---------------------------------------------------------------- the invariant

  ghost predicate UniqueKeys(requests: seq<Request>) {
    forall i, j | 0 <= i < j < |requests| && requests[i].triggerKey.Some? ::
      requests[i].triggerKey != requests[j].triggerKey
  }

  /** The key is the base, or the base with one mark carrying the retry count. */
  ghost predicate KeyShape(request: Request, id: nat) {
    var base := KeyBase(request, id);
    && WellBase(base)
    && if request.autoRetryCount == 0 then
         request.triggerKey.Some? ==> request.triggerKey == Some(base) && !StartsWith(base, RecreatePrefix())
       else
         request.triggerKey == Some(base + RetryMark() + Decimal(request.autoRetryCount))
  }

  /** Request `i`, a retry, continues request `p`. */
  ghost predicate Continues(db: Db, i: nat, p: nat)
    requires ForeignKeys(db) && p < i < |db.requests|
  {
    var r, q := db.requests[i], db.requests[p];
    && q.status == Expired && q.resolvedAt == Some(r.createdAt)
    && r.autoRetryCount == q.autoRetryCount + 1
    && KeyBase(r, i) == KeyBase(q, p)
    && r.target == q.target && r.policyId == q.policyId && r.source == BySystem
    && q.expiresAt.Some? && r.expiresAt.Some? && Ttl(r) == Ttl(q) > 0
    && DefinitionOf(db, i).expiration.maxAutoRetries.Some?
    && r.autoRetryCount <= DefinitionOf(db, i).expiration.maxAutoRetries.value
  }

  ghost predicate Linked(db: Db, i: nat)
    requires ForeignKeys(db) && i < |db.requests|
  {
    db.requests[i].autoRetryCount > 0 ==>
      match db.requests[i].supersedes
      case None => false
      case Some(p) => p < i && Continues(db, i, p)
  }

  ghost predicate RetryChains(db: Db)
    requires ForeignKeys(db)
  {
    && UniqueKeys(db.requests)
    && (forall i | 0 <= i < |db.requests| :: KeyShape(db.requests[i], i))
    && (forall i | 0 <= i < |db.requests| :: Linked(db, i))
  }

  /** Base and count identify a request. */
  lemma SameBaseSameRequest(db: Db, i: nat, j: nat)
    requires ForeignKeys(db) && RetryChains(db) && i < |db.requests| && j < |db.requests|
    requires KeyBase(db.requests[i], i) == KeyBase(db.requests[j], j)
    requires db.requests[i].autoRetryCount == db.requests[j].autoRetryCount
    ensures i == j
  {
    hide RecreatePrefix, RetryMark, StartsWith, BaseOf, WellBase, Linked;
    var r, q := db.requests[i], db.requests[j];
    assert KeyShape(r, i) && KeyShape(q, j);
    if r.autoRetryCount == 0 && r.triggerKey.None? && q.triggerKey.None? {
      RecreateBase(i);
      RecreateBase(j);
      DecimalInjective(i, j);
    } else if r.autoRetryCount == 0 && (r.triggerKey.None? || q.triggerKey.None?) {
      RecreateBase(i);
      RecreateBase(j);
    }
  }

  /** The key that the next retry of a pending request would take is always free. */
  lemma RetryKeyIsFree(db: Db, id: nat)
    requires ForeignKeys(db) && RetryChains(db) && IsOpen(db, id)
    ensures !KeyTaken(db.requests, NextRecreateTriggerKey(db.requests[id], id))
  {
    hide RecreatePrefix, RetryMark, BaseOf, StartsWith, Markless;
    var r := db.requests[id];
    var base, n := KeyBase(r, id), r.autoRetryCount + 1;
    assert KeyShape(r, id);
    forall j | 0 <= j < |db.requests| ensures db.requests[j].triggerKey != Some(base + RetryMark() + Decimal(n)) {
      var q := db.requests[j];
      assert KeyShape(q, j) && Linked(db, j);
      if q.triggerKey == Some(base + RetryMark() + Decimal(n)) {
        MarkedBefore(base, Decimal(n));
        MarkedInjective(KeyBase(q, j), q.autoRetryCount, base, n);
        SameBaseSameRequest(db, q.supersedes.value, id);
      }
    }
  }

  /** No expired request is continued twice. */
  lemma AtMostOneSuccessor(db: Db, i: nat, j: nat)
    requires ForeignKeys(db) && RetryChains(db) && i < |db.requests| && j < |db.requests|
    requires db.requests[i].autoRetryCount > 0 && db.requests[j].autoRetryCount > 0
    requires db.requests[i].supersedes == db.requests[j].supersedes
    ensures i == j
  {
    hide KeyShape, KeyBase, UniqueKeys;
    assert Linked(db, i) && Linked(db, j);
    SameBaseSameRequest(db, i, j);
  }

  // ---------------------------------------------------------------- preservation

  lemma FirstKeyShape(r: Request, id: nat)
    requires FirstOfChain(r)
    ensures KeyShape(r, id)
  {
    if r.triggerKey.None? {
      RecreateBase(id);
    } else {
      var head :| IsRequestFor(r, head);
      hide MissionKey, BaseOf, WellBase, StartsWith;
      MissionKeyBase(head);
      BaseOfKey(MissionKey(head), "");
    }
  }

  lemma RetryKeyShape(db: Db, id: nat, now: Time, r: Request)
    requires ForeignKeys(db) && RetryOf(db, id, now, r) && KeyShape(db.requests[id], id)
    ensures KeyShape(r, |db.requests|)
    ensures KeyBase(r, |db.requests|) == KeyBase(db.requests[id], id)
  {
    hide RecreatePrefix, RetryMark, BaseOf, StartsWith, WellBase, DefinitionOf, RetriesLeft;
    BaseOfKey(KeyBase(db.requests[id], id), Decimal(r.autoRetryCount));
  }

  lemma RetryChainsPreserved(db: Db, effect: Effect, after: Db)
    requires ForeignKeys(db) && RetryChains(db) && Legal(db, effect) && Results(db, effect, after) && ForeignKeys(after)
    ensures RetryChains(after)
  {
    hide MissionKey, BaseOf, Results, Legal, RetryOf, FirstOfChain, KeyTaken, KeyShape, Linked, UniqueKeys;
    KeysStayUnique(db, effect, after);
    forall i | 0 <= i < |after.requests| ensures KeyShape(after.requests[i], i) && Linked(after, i) {
      RowStaysLinked(db, effect, after, i);
    }
  }

  lemma KeysStayUnique(db: Db, effect: Effect, after: Db)
    requires ForeignKeys(db) && RetryChains(db) && Legal(db, effect) && Results(db, effect, after)
    ensures UniqueKeys(after.requests)
  {
    hide KeyShape, Linked, LogOf, LogGain, RetryOf, FirstOfChain, Castable, EvaluationAfter;
    forall i | 0 <= i < |db.requests| ensures after.requests[i].triggerKey == db.requests[i].triggerKey {
    }
  }

  lemma RowStaysLinked(db: Db, effect: Effect, after: Db, i: nat)
    requires ForeignKeys(db) && RetryChains(db) && Legal(db, effect) && Results(db, effect, after) && ForeignKeys(after)
    requires i < |after.requests|
    ensures KeyShape(after.requests[i], i) && Linked(after, i)
  {
    hide LogOf, LogGain, KeyTaken, UniqueKeys, EvaluationAfter, HasVoted, MissionKey, KeyShape, RecreatePrefix,
         RetryMark;
    if i < |db.requests| {
      OldRowStaysLinked(db, effect, after, i);
    } else if effect.EndedAndInserted? && effect.status == Expired {
      RetryKeyShape(db, effect.id, effect.now, effect.request);
    } else {
      FirstKeyShape(effect.request, i);
    }
  }

  lemma OldRowStaysLinked(db: Db, effect: Effect, after: Db, i: nat)
    requires ForeignKeys(db) && RetryChains(db) && Legal(db, effect) && Results(db, effect, after) && ForeignKeys(after)
    requires i < |db.requests|
    ensures KeyShape(after.requests[i], i) && Linked(after, i)
  {
    hide LogOf, LogGain, UniqueKeys, EvaluationAfter, HasVoted, RetryOf, NewRow, FirstOfChain, KeyShape, Linked;
    assert KeyShape(db.requests[i], i) && Linked(db, i);
    forall j | 0 <= j < |db.requests| ensures RowLater(db.requests[j], after.requests[j]) {
    }
    LinkStays(db, after, i);
  }

  lemma LinkStays(db: Db, after: Db, i: nat)
    requires ForeignKeys(db) && ForeignKeys(after) && i < |db.requests| <= |after.requests|
    requires after.policies == db.policies
    requires forall j | 0 <= j < |db.requests| :: RowLater(db.requests[j], after.requests[j])
    requires KeyShape(db.requests[i], i) && Linked(db, i)
    ensures KeyShape(after.requests[i], i) && Linked(after, i)
  {
    hide WellBase, BaseOf, RecreatePrefix, RetryMark, StartsWith;
    assert RowLater(db.requests[i], after.requests[i]);
    if db.requests[i].autoRetryCount > 0 {
      var p := db.requests[i].supersedes.value;
      assert RowLater(db.requests[p], after.requests[p]);
    }
  }

  // ---------------------------------------------------------------- the shape of a whole chain

  /** The request a chain of retries started from. */
  ghost function ChainRoot(db: Db, i: nat): (root: nat)
    requires ForeignKeys(db) && RetryChains(db) && i < |db.requests|
    ensures root <= i
  {
    assert Linked(db, i);
    if db.requests[i].autoRetryCount == 0 then i else ChainRoot(db, db.requests[i].supersedes.value)
  }

  /** The n-th retry carries the key of the first request of its chain, marked once with n,
      its target, policy and exact time to live, and n never exceeds the policy's limit. */
  lemma {:induction false} ChainShape(db: Db, i: nat)
    requires ForeignKeys(db) && RetryChains(db) && i < |db.requests|
    ensures var r, root := db.requests[i], ChainRoot(db, i);
            var first := db.requests[root];
            && first.autoRetryCount == 0
            && r.target == first.target && r.policyId == first.policyId
            && (r.autoRetryCount > 0 ==>
                  && r.triggerKey == Some((if first.triggerKey.Some? then first.triggerKey.value
                                           else RecreatePrefix() + Decimal(root))
                                          + RetryMark() + Decimal(r.autoRetryCount))
                  && r.expiresAt.Some? && first.expiresAt.Some?
                  && r.expiresAt.value - r.createdAt == first.expiresAt.value - first.createdAt > 0
                  && DefinitionOf(db, i).expiration.maxAutoRetries.Some?
                  && r.autoRetryCount <= DefinitionOf(db, i).expiration.maxAutoRetries.value)
  {
    hide UniqueKeys, WellBase, BaseOf, RecreatePrefix, RetryMark, StartsWith;
    assert KeyShape(db.requests[i], i) && Linked(db, i);
    if db.requests[i].autoRetryCount > 0 {
      var p := db.requests[i].supersedes.value;
      ChainShape(db, p);
      RootBase(db, p);
    }
  }

  lemma {:induction false} RootBase(db: Db, i: nat)
    requires ForeignKeys(db) && RetryChains(db) && i < |db.requests|
    ensures KeyBase(db.requests[i], i) == KeyBase(db.requests[ChainRoot(db, i)], ChainRoot(db, i))
    ensures var root := ChainRoot(db, i);
            KeyBase(db.requests[root], root) ==
            if db.requests[root].triggerKey.Some? then db.requests[root].triggerKey.value
            else RecreatePrefix() + Decimal(root)
    decreases i
  {
    hide UniqueKeys, WellBase, BaseOf, RecreatePrefix, RetryMark, StartsWith;
    assert KeyShape(db.requests[i], i) && Linked(db, i);
    if db.requests[i].autoRetryCount > 0 {
      RootBase(db, db.requests[i].supersedes.value);
    }
  }

  // ---------------------------------------------------------------- what a key names

  /** Two heads of one pull request at one commit. */
  predicate SameHead(a: Head, b: Head) {
    TriggerTarget(a) == TriggerTarget(b) && a.sha == b.sha
  }

  lemma FirstBarCut(a: string, x: string, b: string, y: string)
    requires BarFree(a) && BarFree(b) && x != "" && y != "" && x[0] == y[0] == '|' && a + x == b + y
    ensures a == b && x == y
  {
    assert (a + x)[|a|] == '|' && (b + y)[|b|] == '|';
    assert |a| == |b|;
    assert a == (a + x)[..|a|] && x == (a + x)[|a|..];
  }

  function Mark(): string { "mission:" }
  function Place(head: Head): string { head.owner + "/" + head.repo }

  function PlaceText(head: Head): string {
    Mark() + Place(head) + ['#'] + IntText(head.number)
  }

  function CommitText(head: Head): string {
    "|action:" + TriggerActionKey() + "|head:" + head.sha
  }

  lemma KeyParts(head: Head)
    ensures MissionKey(head) == PlaceText(head) + CommitText(head) && BarFree(PlaceText(head))
    ensures CommitText(head) != "" && CommitText(head)[0] == '|'
  {
    hide TriggerActionKey;
    assert Mark() + head.owner + "/" + head.repo == Mark() + Place(head);
  }

  lemma PlaceNames(a: Head, b: Head)
    requires PlaceText(a) == PlaceText(b)
    ensures Place(a) == Place(b) && a.number == b.number
  {
    hide Mark, Place, IntText;
    IntTextHashFree(a.number);
    IntTextHashFree(b.number);
    LastHashCut(Mark() + Place(a), IntText(a.number), Mark() + Place(b), IntText(b.number));
    assert Place(a) == (Mark() + Place(a))[|Mark()|..] && Place(b) == (Mark() + Place(b))[|Mark()|..];
    IntTextInjective(a.number, b.number);
  }

  lemma CommitNames(a: Head, b: Head)
    requires CommitText(a) == CommitText(b)
    ensures a.sha == b.sha
  {
    var before := "|action:" + TriggerActionKey() + "|head:";
    assert a.sha == CommitText(a)[|before|..] && b.sha == CommitText(b)[|before|..];
  }

  /** Equal keys mean the same repository, number and commit. */
  lemma KeyNamesHead(a: Head, b: Head)
    ensures MissionKey(a) == MissionKey(b) <==> SameHead(a, b)
  {
    hide MissionKey, PlaceText, CommitText, TriggerActionKey;
    KeyParts(a);
    KeyParts(b);
    if MissionKey(a) == MissionKey(b) {
      FirstBarCut(PlaceText(a), CommitText(a), PlaceText(b), CommitText(b));
      PlaceNames(a, b);
      CommitNames(a, b);
    }
    if SameHead(a, b) {
      SameTexts(a, b);
    }
  }

  lemma SameTexts(a: Head, b: Head)
    requires SameHead(a, b)
    ensures PlaceText(a) == PlaceText(b) && CommitText(a) == CommitText(b)
  {
    hide TriggerActionKey, Mark;
  }

  /** The text of every trigger key. */
  lemma KeyWrittenOut(head: Head)
    ensures MissionKey(head) == "mission:" + head.owner + "/" + head.repo + "#" + IntText(head.number)
                                + "|action:implementation_review|head:" + head.sha
  {
    hide IntText;
    var start, middle := "mission:" + head.owner + "/" + head.repo + "#" + IntText(head.number),
                         "|action:implementation_review|head:";
    ActionWrittenOut();
    assert start + "|action:" + TriggerActionKey() + "|head:" == start + ("|action:" + TriggerActionKey() + "|head:");
    assert MissionKey(head) == start + "|action:" + TriggerActionKey() + "|head:" + head.sha;
  }

  lemma ActionWrittenOut()
    ensures "|action:" + TriggerActionKey() + "|head:" == "|action:implementation_review|head:"
  {
  }

  /** The text of every retry key: one mark with the new count, after the key without its mark
      or after the identifier of a request that has no key. */
  lemma RetryKeyWrittenOut(r: Request, id: nat, base: string, n: nat)
    requires WellBase(base)
    ensures r.triggerKey in {Some(base), Some(base + "|retry:" + Decimal(n))} ==>
              NextRecreateTriggerKey(r, id) == base + "|retry:" + Decimal(r.autoRetryCount + 1)
    ensures r.triggerKey.None? ==>
              NextRecreateTriggerKey(r, id) == "recreate:" + Decimal(id) + "|retry:" + Decimal(r.autoRetryCount + 1)
  {
    hide WellBase, BaseOf, Decimal;
    BaseOfKey(base, Decimal(n));
  }

  /** A request that starts a chain under a key is the request for the head in the key. */
  ghost predicate KeysNameTargets(requests: seq<Request>) {
    forall i | 0 <= i < |requests| && requests[i].autoRetryCount == 0 && requests[i].triggerKey.Some? ::
      NamesItsTarget(requests[i])
  }

  ghost predicate NamesItsTarget(r: Request) {
    exists head :: IsRequestFor(r, head)
  }

  lemma KeysNameTargetsPreserved(db: Db, effect: Effect, after: Db)
    requires ForeignKeys(db) && KeysNameTargets(db.requests) && Legal(db, effect) && Results(db, effect, after)
    ensures KeysNameTargets(after.requests)
  {
    hide MissionKey, TriggerTarget, LogOf, LogGain, EvaluationAfter, HasVoted, BaseOf, KeyTaken, DefinitionOf;
    forall i | 0 <= i < |after.requests| && after.requests[i].autoRetryCount == 0 && after.requests[i].triggerKey.Some?
      ensures NamesItsTarget(after.requests[i])
    {
      if i < |db.requests| {
        SameNames(db.requests[i], after.requests[i]);
      }
    }
  }

  lemma SameNames(r: Request, s: Request)
    requires s.triggerKey == r.triggerKey && s.target == r.target
    ensures NamesItsTarget(r) <==> NamesItsTarget(s)
  {
    hide MissionKey, TriggerTarget;
    if NamesItsTarget(r) {
      var head :| IsRequestFor(r, head);
      assert IsRequestFor(s, head);
    }
    if NamesItsTarget(s) {
      var head :| IsRequestFor(s, head);
      assert IsRequestFor(r, head);
    }
  }

  /** A request was made for this very head: repository, number and commit. */
  ghost predicate RequestedBefore(requests: seq<Request>, head: Head) {
    exists i, made: Head | 0 <= i < |requests| :: IsRequestFor(requests[i], made) && SameHead(made, head)
  }

  /** The key of a head is in use if and only if that very head was requested before: no
      other pull request, and no retry, ever holds it. */
  lemma KeyTakenIff(db: Db, head: Head)
    requires ForeignKeys(db) && RetryChains(db) && KeysNameTargets(db.requests)
    ensures KeyTaken(db.requests, MissionKey(head)) <==> RequestedBefore(db.requests, head)
  {
    hide MissionKey, TriggerTarget, Linked, UniqueKeys, RecreatePrefix, RetryMark, BaseOf, StartsWith, Markless;
    if KeyTaken(db.requests, MissionKey(head)) {
      var i :| 0 <= i < |db.requests| && db.requests[i].triggerKey == Some(MissionKey(head));
      assert KeyShape(db.requests[i], i);
      MarklessMission(head);
      MarkedBefore(KeyBase(db.requests[i], i), Decimal(db.requests[i].autoRetryCount));
      var made :| IsRequestFor(db.requests[i], made);
      KeyNamesHead(made, head);
    }
    if RequestedBefore(db.requests, head) {
      var i, made :| 0 <= i < |db.requests| && IsRequestFor(db.requests[i], made) && SameHead(made, head);
      KeyNamesHead(made, head);
    }
  }
}
