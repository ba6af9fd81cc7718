/** Bipartite matching between quorum slots and approving principals.

    A graph lists, for every slot, the indices of the principals eligible for it.
    The first half of the module says what a matching is, which sets of slots can
    be filled together, and which slots a first-come-first-served pass fills.
    The second half is the augmenting-path search of the evaluator, over the
    dictionary and the visited set that its recursion shares. */
module Matching {

  type Graph = seq<seq<nat>>

  // ---------------------------------------------------------------- definitions

  /** Principal `p` is eligible for slot `s`. */
  predicate Edge(g: Graph, s: nat, p: nat) {
    s < |g| && p in g[s]
  }

  /** `m` gives some slots a principal each: eligible, and never the same one twice. */
  ghost predicate IsMatching(g: Graph, m: map<nat, nat>) {
    && (forall s | s in m :: Edge(g, s, m[s]))
    && (forall s, t | s in m && t in m && m[s] == m[t] :: s == t)
  }

  /** All of `slots` can be filled at the same time. */
  ghost predicate Matchable(g: Graph, slots: set<nat>) {
    exists m :: IsMatching(g, m) && m.Keys == slots
  }

  /** The slots filled by considering slots 0, 1, .. in turn and keeping each one
      that can still be filled together with those already kept. */
  ghost function Greedy(g: Graph, n: nat): (filled: set<nat>)
    requires n <= |g|
    ensures forall s | s in filled :: s < n
  {
    if n == 0 then {}
    else
      var before := Greedy(g, n - 1);
      if Matchable(g, before + {n - 1}) then before + {n - 1} else before
  }

  ghost function Principals(g: Graph): set<nat> {
    set s, k | 0 <= s < |g| && 0 <= k < |g[s]| :: g[s][k]
  }

  /** The slots 0 .. n-1. */
  ghost function Below(n: nat): (slots: set<nat>)
    ensures forall s: nat :: s in slots <==> s < n
    ensures |slots| == n
  {
    if n == 0 then {} else Below(n - 1) + {n - 1}
  }

  ghost function Owner(m: map<nat, nat>, p: nat): (s: nat)
    requires p in m.Values
    ensures s in m && m[s] == p
  {
    var s :| s in m && m[s] == p; s
  }

  /** A set of principals that no augmenting path can leave: all are taken, and the
      slots holding them look at nobody else. */
  ghost predicate Closed(g: Graph, m: map<nat, nat>, b: set<nat>)
    requires IsMatching(g, m)
  {
    && (forall p | p in b :: p in m.Values)
    && (forall s, q | s in m && m[s] in b && Edge(g, s, q) :: q in b)
  }

  // ---------------------------------------------------------------- counting

  lemma {:induction false} InjectionCardinality(f: map<nat, nat>, target: set<nat>)
    requires forall k, l | k in f && l in f && f[k] == f[l] :: k == l
    requires forall k | k in f :: f[k] in target
    ensures |f.Keys| <= |target|
    decreases |f|
  {
    if f.Keys == {} {
    } else {
      var k :| k in f;
      InjectionCardinality(f - {k}, target - {f[k]});
      assert (f - {k}).Keys == f.Keys - {k};
    }
  }

  lemma Witness(g: Graph, slots: set<nat>) returns (m: map<nat, nat>)
    requires Matchable(g, slots)
    ensures IsMatching(g, m) && m.Keys == slots
  {
    m :| IsMatching(g, m) && m.Keys == slots;
  }

  lemma SubMatching(g: Graph, m: map<nat, nat>, slots: set<nat>)
    requires IsMatching(g, m) && slots <= m.Keys
    ensures Matchable(g, slots)
  {
    var sub := map s | s in slots :: m[s];
    assert IsMatching(g, sub) && sub.Keys == slots;
  }

  lemma MatchableSubset(g: Graph, slots: set<nat>, larger: set<nat>)
    requires Matchable(g, larger) && slots <= larger
    ensures Matchable(g, slots)
  {
    var m :| IsMatching(g, m) && m.Keys == larger;
    SubMatching(g, m, slots);
  }

  /** Slots filled together need as many principals as there are slots. */
  lemma Pigeonhole(g: Graph, m: map<nat, nat>, slots: set<nat>, b: set<nat>)
    requires IsMatching(g, m) && slots <= m.Keys
    requires forall s, q | s in slots && Edge(g, s, q) :: q in b
    ensures |slots| <= |b|
  {
    var f := map s | s in slots :: m[s];
    InjectionCardinality(f, b);
    assert f.Keys == slots;
  }

  ghost function Holders(m: map<nat, nat>, b: set<nat>): set<nat> {
    set s | s in m && m[s] in b
  }

  lemma HoldersCount(m: map<nat, nat>, b: set<nat>)
    requires forall p | p in b :: p in m.Values
    ensures |b| <= |Holders(m, b)|
  {
    var held := map p | p in b :: Owner(m, p);
    InjectionCardinality(held, Holders(m, b));
    assert held.Keys == b;
  }

  /** Hall's obstruction: one more slot than principals to share. */
  lemma ClosedSetBlocks(g: Graph, m: map<nat, nat>, b: set<nat>, s: nat)
    requires IsMatching(g, m) && Closed(g, m, b)
    requires s < |g| && s !in m && forall q | Edge(g, s, q) :: q in b
    ensures !Matchable(g, m.Keys + {s})
  {
    HoldersCount(m, b);
    var crowd := Holders(m, b) + {s};
    forall m' | IsMatching(g, m') ensures m'.Keys != m.Keys + {s} {
      if crowd <= m'.Keys { Pigeonhole(g, m', crowd, b); }
    }
  }

  // ---------------------------------------------------------------- augmenting paths

  /** Principals p1, p2, .. with p1 eligible for `s` and each next one eligible for
      the slot that holds the one before. */
  ghost predicate Hop(g: Graph, m: map<nat, nat>, p: nat, q: nat)
    requires IsMatching(g, m)
  {
    p in m.Values && Edge(g, Owner(m, p), q)
  }

  ghost predicate IsPath(g: Graph, m: map<nat, nat>, s: nat, path: seq<nat>)
    requires IsMatching(g, m) && s < |g|
  {
    && |path| > 0 && Edge(g, s, path[0])
    && forall i, j | 0 <= i < j < |path| && j == i + 1 :: Hop(g, m, path[i], path[j])
  }

  /** Moving every principal of a path one slot up fills one more slot. A path that
      revisits its first principal is shortened instead. */
  lemma {:induction false} FlipPath(g: Graph, m: map<nat, nat>, s: nat, path: seq<nat>)
    requires IsMatching(g, m) && s < |g| && s !in m
    requires IsPath(g, m, s, path) && path[|path| - 1] !in m.Values
    ensures Matchable(g, m.Keys + {s})
    decreases |path|
  {
    var p := path[0];
    if |path| == 1 {
      var bigger := m[s := p];
      assert IsMatching(g, bigger) && bigger.Keys == m.Keys + {s};
    } else if i :| 1 <= i < |path| && path[i] == p {
      FlipPath(g, m, s, path[i..]);
    } else {
      assert Hop(g, m, path[0], path[1]);
      var t := Owner(m, p);
      var moved := (m - {t})[s := p];
      assert IsMatching(g, moved);
      var rest := path[1..];
      forall i, j | 0 <= i < j < |rest| && j == i + 1
        ensures Hop(g, moved, rest[i], rest[j])
      {
        assert Hop(g, m, path[i + 1], path[j + 1]);
        var u := Owner(m, rest[i]);
        assert u in moved && moved[u] == rest[i];
      }
      assert rest[|rest| - 1] !in moved.Values;
      FlipPath(g, moved, t, rest);
      assert moved.Keys + {t} == m.Keys + {s};
    }
  }

  ghost function Reach(g: Graph, m: map<nat, nat>, s: nat): set<nat>
    requires IsMatching(g, m) && s < |g|
  {
    set p | p in Principals(g) && exists path :: IsPath(g, m, s, path) && path[|path| - 1] == p
  }

  /** When a slot cannot be added, what its paths reach is a closed set around it. */
  lemma ReachIsClosed(g: Graph, m: map<nat, nat>, s: nat)
    requires IsMatching(g, m) && s < |g| && s !in m
    requires !Matchable(g, m.Keys + {s})
    ensures Closed(g, m, Reach(g, m, s))
    ensures forall q | Edge(g, s, q) :: q in Reach(g, m, s)
  {
    var b := Reach(g, m, s);
    forall p | p in b ensures p in m.Values {
      var path :| IsPath(g, m, s, path) && path[|path| - 1] == p;
      if p !in m.Values { FlipPath(g, m, s, path); }
    }
    forall t: nat, q: nat | t in m && m[t] in b && Edge(g, t, q) ensures q in b {
      var path :| IsPath(g, m, s, path) && path[|path| - 1] == m[t];
      var longer := path + [q];
      assert Hop(g, m, m[t], q);
      assert IsPath(g, m, s, longer) && longer[|longer| - 1] == q;
    }
    forall q | Edge(g, s, q) ensures q in b {
      assert IsPath(g, m, s, [q]) && [q][|[q]| - 1] == q;
    }
  }

  // ---------------------------------------------------------------- the greedy set

  lemma {:induction false} GreedyGrows(g: Graph, i: nat, n: nat)
    requires i <= n <= |g|
    ensures Greedy(g, i) <= Greedy(g, n)
    ensures forall s | s in Greedy(g, n) && s < i :: s in Greedy(g, i)
  {
    hide Matchable;
    if i < n { GreedyGrows(g, i, n - 1); }
  }

  lemma {:induction false} GreedyIsMatchable(g: Graph, n: nat)
    requires n <= |g|
    ensures Matchable(g, Greedy(g, n))
  {
    if n == 0 {
      var none: map<nat, nat> := map[];
      assert IsMatching(g, none) && none.Keys == {};
    } else {
      GreedyIsMatchable(g, n - 1);
    }
  }

  /** A slot left out could not even be added at the end. */
  lemma GreedyRejects(g: Graph, n: nat, s: nat)
    requires s < n <= |g| && s !in Greedy(g, n)
    ensures !Matchable(g, Greedy(g, n) + {s})
    ensures !Matchable(g, Greedy(g, s) + {s})
  {
    hide Matchable;
    GreedyGrows(g, s, n);
    GreedyGrows(g, s + 1, n);
    if Matchable(g, Greedy(g, n) + {s}) {
      MatchableSubset(g, Greedy(g, s) + {s}, Greedy(g, n) + {s});
    }
  }

  /** The closed sets around all slots that stay empty form one closed set. */
  lemma {:induction false} CoverOfEmptySlots(g: Graph, n: nat, m: map<nat, nat>, k: nat) returns (b: set<nat>)
    requires k <= n <= |g| && IsMatching(g, m) && m.Keys == Greedy(g, n)
    ensures Closed(g, m, b)
    ensures forall s, q | 0 <= s < k && s !in m && Edge(g, s, q) :: q in b
  {
    hide Matchable;
    if k == 0 {
      b := {};
    } else {
      b := CoverOfEmptySlots(g, n, m, k - 1);
      if k - 1 !in m {
        GreedyRejects(g, n, k - 1);
        ReachIsClosed(g, m, k - 1);
        b := b + Reach(g, m, k - 1);
      }
    }
  }

  /** Koenig's bound: every matching is covered by `b` and the slots not held by `b`. */
  lemma CoverBounds(g: Graph, m: map<nat, nat>, b: set<nat>, other: map<nat, nat>)
    requires IsMatching(g, m) && IsMatching(g, other) && Closed(g, m, b)
    requires forall s, q | s in other && s !in m && Edge(g, s, q) :: q in b
    ensures |other.Keys| <= |m.Keys|
  {
    HoldersCount(m, b);
    HeldInside(g, other, b);
    forall s | s in other.Keys - Holders(other, b) ensures s in m.Keys - Holders(m, b) {
      assert Edge(g, s, other[s]);
    }
    SplitCardinality(m.Keys, Holders(m, b), other.Keys, Holders(other, b));
  }

  lemma HeldInside(g: Graph, m: map<nat, nat>, b: set<nat>)
    requires IsMatching(g, m)
    ensures |Holders(m, b)| <= |b|
  {
    var inside := map s | s in Holders(m, b) :: m[s];
    InjectionCardinality(inside, b);
    assert inside.Keys == Holders(m, b);
  }

  lemma SplitCardinality(all: set<nat>, part: set<nat>, all': set<nat>, part': set<nat>)
    requires part <= all && part' <= all' && |part'| <= |part| && all' - part' <= all - part
    ensures |all'| <= |all|
  {
    assert all == part + (all' - part') + ((all - part) - (all' - part'));
    assert all' == part' + (all' - part');
  }

  /** No matching among the first `n` slots beats the greedy one. */
  lemma GreedyIsMaximum(g: Graph, n: nat, other: map<nat, nat>)
    requires n <= |g| && IsMatching(g, other) && forall s | s in other :: s < n
    ensures |other.Keys| <= |Greedy(g, n)|
  {
    GreedyIsMatchable(g, n);
    var m :| IsMatching(g, m) && m.Keys == Greedy(g, n);
    var b := CoverOfEmptySlots(g, n, m, n);
    CoverBounds(g, m, b, other);
  }

  /** All slots are filled exactly when all of them can be filled at once. */
  lemma {:induction false} GreedyFillsAllIff(g: Graph, n: nat)
    requires n <= |g|
    ensures Matchable(g, Below(n)) <==> Greedy(g, n) == Below(n)
  {
    hide Matchable;
    GreedyIsMatchable(g, n);
    if Matchable(g, Below(n)) && Greedy(g, n) != Below(n) {
      var s :| s in Below(n) && s !in Greedy(g, n);
      GreedyRejects(g, n, s);
      MatchableSubset(g, Greedy(g, n) + {s}, Below(n));
    }
  }

  // ---------------------------------------------------------------- one more principal

  /** `h` is `g` with one new principal, made eligible for some of the slots. */
  ghost predicate AddsPrincipal(g: Graph, h: Graph, p: nat) {
    && |h| == |g|
    && p !in Principals(g)
    && (forall s, q | Edge(g, s, q) :: Edge(h, s, q))
    && (forall s, q | Edge(h, s, q) :: Edge(g, s, q) || q == p)
  }

  lemma AddedPrincipalKeepsMatching(g: Graph, h: Graph, p: nat, m: map<nat, nat>)
    requires AddsPrincipal(g, h, p) && IsMatching(g, m)
    ensures IsMatching(h, m) && p !in m.Values
  {
    forall s | s in m ensures m[s] != p {
      assert Edge(g, s, m[s]);
      var k :| 0 <= k < |g[s]| && g[s][k] == m[s];
      assert g[s][k] in Principals(g);
    }
  }

  lemma AddedPrincipalKeepsMatchable(g: Graph, h: Graph, p: nat, slots: set<nat>)
    requires AddsPrincipal(g, h, p) && Matchable(g, slots)
    ensures Matchable(h, slots)
  {
    var m := Witness(g, slots);
    AddedPrincipalKeepsMatching(g, h, p, m);
  }

  /** Without the new principal, a matching of the larger graph loses at most one slot. */
  lemma DropPrincipal(g: Graph, h: Graph, p: nat, m: map<nat, nat>)
    requires AddsPrincipal(g, h, p) && IsMatching(h, m)
    ensures p !in m.Values ==> IsMatching(g, m)
    ensures p in m.Values ==> IsMatching(g, m - {Owner(m, p)})
  {
  }

  lemma AddedPrincipalFillsAtMostOneMore(g: Graph, h: Graph, p: nat, n: nat)
    requires AddsPrincipal(g, h, p) && n <= |g|
    ensures |Greedy(h, n)| <= |Greedy(g, n)| + 1
  {
    GreedyIsMatchable(h, n);
    var m :| IsMatching(h, m) && m.Keys == Greedy(h, n);
    DropPrincipal(g, h, p, m);
    if p in m.Values {
      GreedyIsMaximum(g, n, m - {Owner(m, p)});
      assert (m - {Owner(m, p)}).Keys == m.Keys - {Owner(m, p)};
    } else {
      GreedyIsMaximum(g, n, m);
    }
  }

  /** A slot `x` that only became fillable thanks to the new principal does not compete
      with a slot `i` that there was room for before. */
  lemma NewcomerDoesNotCompete(g: Graph, h: Graph, p: nat, m: map<nat, nat>, m': map<nat, nat>, x: nat, i: nat)
    requires AddsPrincipal(g, h, p) && IsMatching(g, m) && IsMatching(h, m')
    requires i in m && x !in m && x < |g| && m'.Keys == (m - {i}).Keys + {x}
    requires !Matchable(g, m'.Keys)
    ensures Matchable(h, m.Keys + {x})
  {
    hide Matchable;
    AddedPrincipalKeepsMatching(g, h, p, m);
    if !Matchable(h, m.Keys + {x}) {
      ReachIsClosed(h, m, x);
      CannotBlockBoth(g, h, p, m, m', Reach(h, m, x), x, i);
    }
  }

  lemma CannotBlockBoth(g: Graph, h: Graph, p: nat, m: map<nat, nat>, m': map<nat, nat>, b: set<nat>, x: nat, i: nat)
    requires AddsPrincipal(g, h, p) && IsMatching(g, m) && IsMatching(h, m) && IsMatching(h, m') && p !in m.Values
    requires i in m && x !in m && x < |g| && m'.Keys == (m - {i}).Keys + {x}
    requires Closed(h, m, b) && forall q | Edge(h, x, q) :: q in b
    ensures Matchable(g, m'.Keys)
  {
    if m[i] in b {
      var mixed := SwapInside(g, h, p, m, m', b, x, i);
    } else {
      ClosedWithout(h, m, b, i);
      ClosedSetBlocks(h, m - {i}, b, x);
    }
  }

  lemma ClosedWithout(g: Graph, m: map<nat, nat>, b: set<nat>, i: nat)
    requires IsMatching(g, m) && Closed(g, m, b) && i in m && m[i] !in b
    ensures IsMatching(g, m - {i}) && Closed(g, m - {i}, b)
  {
    forall q | q in b ensures q in (m - {i}).Values {
      assert Owner(m, q) in m - {i};
    }
  }

  /** A closed set avoids the new principal, so inside it the matching `m'` of the
      larger graph also works in `g`; outside it `m` does. */
  lemma SwapInside(g: Graph, h: Graph, p: nat, m: map<nat, nat>, m': map<nat, nat>, b: set<nat>, x: nat, i: nat)
    returns (mixed: map<nat, nat>)
    requires AddsPrincipal(g, h, p) && IsMatching(g, m) && IsMatching(h, m) && p !in m.Values
    requires x !in m && i in m && IsMatching(h, m') && m'.Keys == (m - {i}).Keys + {x}
    requires Closed(h, m, b) && m[i] in b && forall q | Edge(h, x, q) :: q in b
    ensures IsMatching(g, mixed) && mixed.Keys == m'.Keys
  {
    var inner := map s | s in m' && (s == x || m[s] in b) :: m'[s];
    var outer := map s | s in m && m[s] !in b :: m[s];
    forall s | s in inner ensures inner[s] in b && Edge(g, s, inner[s]) {
      assert Edge(h, s, m'[s]);
    }
    mixed := inner + outer;
    MergedMatching(g, inner, outer, b);
  }

  lemma MergedMatching(g: Graph, inner: map<nat, nat>, outer: map<nat, nat>, b: set<nat>)
    requires IsMatching(g, inner) && IsMatching(g, outer) && inner.Keys !! outer.Keys
    requires (forall s | s in inner :: inner[s] in b) && (forall s | s in outer :: outer[s] !in b)
    ensures IsMatching(g, inner + outer)
  {
  }

  lemma NewcomerLeavesRoom(g: Graph, h: Graph, p: nat, kept: set<nat>, x: nat, i: nat)
    requires AddsPrincipal(g, h, p) && x !in kept && i !in kept && x != i && x < |g|
    requires Matchable(g, kept + {i}) && !Matchable(g, kept + {x}) && Matchable(h, kept + {x})
    ensures Matchable(h, kept + {x} + {i})
  {
    hide Matchable;
    var m := Witness(g, kept + {i});
    var m' := Witness(h, kept + {x});
    assert (m - {i}).Keys == kept;
    NewcomerDoesNotCompete(g, h, p, m, m', x, i);
    assert m.Keys + {x} == kept + {x} + {i};
  }

  /** One more approving principal keeps every filled slot filled. */
  lemma {:induction false} AddedPrincipalKeepsFilled(g: Graph, h: Graph, p: nat, n: nat)
    requires AddsPrincipal(g, h, p) && n <= |g|
    ensures Greedy(g, n) <= Greedy(h, n)
  {
    hide Matchable;
    if n > 0 {
      AddedPrincipalKeepsFilled(g, h, p, n - 1);
      if Matchable(g, Greedy(g, n - 1) + {n - 1}) {
        AddedPrincipalKeepsSlot(g, h, p, n - 1);
      }
    }
  }

  lemma AddedPrincipalKeepsSlot(g: Graph, h: Graph, p: nat, i: nat)
    requires AddsPrincipal(g, h, p) && i < |g| == |h| && Greedy(g, i) <= Greedy(h, i)
    requires Matchable(g, Greedy(g, i) + {i})
    ensures Matchable(h, Greedy(h, i) + {i})
  {
    hide *;
    var kept, larger := Greedy(g, i), Greedy(h, i);
    if kept == larger {
      AddedPrincipalKeepsMatchable(g, h, p, kept + {i});
    } else {
      AddedPrincipalFillsAtMostOneMore(g, h, p, i);
      var x :| x in larger && x !in kept;
      SubsetByOne(kept, larger, x);
      GreedyRejects(g, i, x);
      GreedyIsMatchable(h, i);
      NewcomerLeavesRoom(g, h, p, kept, x, i);
    }
  }

  lemma SubsetByOne(small: set<nat>, large: set<nat>, x: nat)
    requires small <= large && x in large && x !in small && |large| <= |small| + 1
    ensures large == small + {x}
  {
    var rest := large - small - {x};
    assert large == small + {x} + rest;
    assert |small + {x}| == |small| + 1;
    assert |large| == |small + {x}| + |rest|;
  }

  // ---------------------------------------------------------------- renaming principals

  /** `h` is `g` with principal `p` renamed to `f[p]`. */
  ghost predicate Renamed(g: Graph, h: Graph, f: map<nat, nat>) {
    && |h| == |g|
    && (forall p, q | p in f && q in f && f[p] == f[q] :: p == q)
    && forall s, p | Edge(g, s, p) :: p in f && Edge(h, s, f[p])
  }

  lemma RenamedMatchable(g: Graph, h: Graph, f: map<nat, nat>, slots: set<nat>)
    requires Renamed(g, h, f) && Matchable(g, slots)
    ensures Matchable(h, slots)
  {
    var m :| IsMatching(g, m) && m.Keys == slots;
    var renamed := RenamedMatching(g, h, f, m);
  }

  lemma RenamedMatching(g: Graph, h: Graph, f: map<nat, nat>, m: map<nat, nat>) returns (renamed: map<nat, nat>)
    requires Renamed(g, h, f) && IsMatching(g, m)
    ensures IsMatching(h, renamed) && renamed.Keys == m.Keys
  {
    renamed := map s | s in m :: f[m[s]];
  }

  lemma {:induction false} RenamedGreedy(g: Graph, h: Graph, f: map<nat, nat>, back: map<nat, nat>, n: nat)
    requires Renamed(g, h, f) && Renamed(h, g, back) && n <= |g|
    ensures Greedy(g, n) == Greedy(h, n)
  {
    hide Matchable;
    if n > 0 {
      RenamedGreedy(g, h, f, back, n - 1);
      var slots := Greedy(g, n - 1) + {n - 1};
      if Matchable(g, slots) { RenamedMatchable(g, h, f, slots); }
      if Matchable(h, slots) { RenamedMatchable(h, g, back, slots); }
    }
  }

  // ---------------------------------------------------------------- the search itself

  ghost predicate Edges(g: Graph, slotOf: map<nat, nat>) {
    forall p | p in slotOf :: Edge(g, slotOf[p], p)
  }

  ghost predicate OneSlotEach(slotOf: map<nat, nat>) {
    forall p, q | p in slotOf && q in slotOf && slotOf[p] == slotOf[q] :: p == q
  }

  /** The matching read the other way round, from slots to principals. */
  function SlotView(slotOf: map<nat, nat>): map<nat, nat>
    requires OneSlotEach(slotOf)
  {
    map p | p in slotOf :: slotOf[p] := p
  }

  lemma SlotViewIsMatching(g: Graph, slotOf: map<nat, nat>)
    requires Edges(g, slotOf) && OneSlotEach(slotOf)
    ensures IsMatching(g, SlotView(slotOf)) && SlotView(slotOf).Keys == slotOf.Values
    ensures forall p | p in slotOf :: slotOf[p] in SlotView(slotOf) && SlotView(slotOf)[slotOf[p]] == p
  {
  }

  class Matcher {
    const adjacency: Graph
    var matchForPrincipal: map<nat, nat>
    var visited: set<nat>

    constructor (adjacency: Graph)
      ensures this.adjacency == adjacency && matchForPrincipal == map[] && visited == {}
    {
      this.adjacency := adjacency;
      matchForPrincipal := map[];
      visited := {};
    }

    /** Look for a principal for `slot`, moving others to another slot where that frees
        one. A success gives `slot` the fresh principal `taken` and, leaving `taken`
        out, changes only who holds the slots held before: inside the recursion `slot`
        is therefore held twice for a moment. A failure changes nothing, and all it
        visited is taken by slots that look nowhere else. */
    method TryAssign(slot: nat) returns (found: bool, ghost taken: nat)
      requires slot < |adjacency|
      requires Edges(adjacency, matchForPrincipal) && OneSlotEach(matchForPrincipal)
      requires forall p | p in matchForPrincipal && matchForPrincipal[p] == slot :: p in visited
      requires visited <= Principals(adjacency)
      modifies this
      ensures old(visited) <= visited <= Principals(adjacency)
      ensures Edges(adjacency, matchForPrincipal)
      ensures forall p | p in old(visited) ::
                && (p in matchForPrincipal <==> p in old(matchForPrincipal))
                && (p in matchForPrincipal ==> matchForPrincipal[p] == old(matchForPrincipal)[p])
      ensures found ==>
                && taken !in old(visited)
                && taken in matchForPrincipal && matchForPrincipal[taken] == slot
                && OneSlotEach(matchForPrincipal - {taken})
                && (matchForPrincipal - {taken}).Values == old(matchForPrincipal).Values
      ensures !found ==>
                && matchForPrincipal == old(matchForPrincipal)
                && (forall q | Edge(adjacency, slot, q) :: q in visited)
                && (forall p | p in visited && p !in old(visited) ::
                      p in matchForPrincipal && forall q | Edge(adjacency, matchForPrincipal[p], q) :: q in visited)
      decreases Principals(adjacency) - visited
    {
      var start := matchForPrincipal;
      ghost var before := visited;
      taken := 0;
      for i := 0 to |adjacency[slot]|
        invariant matchForPrincipal == start && before <= visited <= Principals(adjacency)
        invariant forall j | 0 <= j < i :: adjacency[slot][j] in visited
        invariant forall p | p in visited && p !in before ::
            p in start && forall q | Edge(adjacency, start[p], q) :: q in visited
      {
        var p := adjacency[slot][i];
        if p in visited {
          continue;
        }
        visited := visited + {p};
        if p !in matchForPrincipal {
          matchForPrincipal := matchForPrincipal[p := slot];
          assert matchForPrincipal - {p} == start;
          return true, p;
        }
        var holder := matchForPrincipal[p];
        ghost var inner;
        found, inner := TryAssign(holder);
        if found {
          ghost var reached := matchForPrincipal;
          matchForPrincipal := matchForPrincipal[p := slot];
          Reassign(start, reached, p, inner, slot);
          return true, p;
        }
      }
      found := false;
    }

    /** The whole search: one attempt per slot, each with a fresh visited set. */
    method MaxBipartiteMatching() returns (matching: map<nat, nat>)
      requires matchForPrincipal == map[]
      modifies this
      ensures IsMatching(adjacency, matching)
      ensures matching.Keys == Greedy(adjacency, |adjacency|)
      ensures forall other | IsMatching(adjacency, other) :: |other| <= |matching|
    {
      hide Matchable, IsMatching, Edge, Principals, SlotView, Greedy;
      EmptyStart(adjacency, matchForPrincipal);
      for slot := 0 to |adjacency|
        invariant Edges(adjacency, matchForPrincipal) && OneSlotEach(matchForPrincipal)
        invariant matchForPrincipal.Values == Greedy(adjacency, slot)
      {
        ghost var start := matchForPrincipal;
        visited := {};
        NobodyHolds(adjacency, start, slot);
        var found, taken := TryAssign(slot);
        if found {
          Extended(adjacency, start, matchForPrincipal, taken, slot);
        } else {
          Obstructed(adjacency, start, visited, slot);
        }
      }
      matching := SlotView(matchForPrincipal);
      SlotViewIsMatching(adjacency, matchForPrincipal);
      NoneLarger(adjacency, matching);
    }
  }

  /** After the holder of `p` found another principal, `p` can change hands. */
  lemma Reassign(start: map<nat, nat>, reached: map<nat, nat>, p: nat, inner: nat, slot: nat)
    requires OneSlotEach(start) && p in start
    requires p in reached && reached[p] == start[p]
    requires inner != p && inner in reached && reached[inner] == start[p]
    requires OneSlotEach(reached - {inner}) && (reached - {inner}).Values == start.Values
    ensures var m := reached[p := slot];
            OneSlotEach(m - {p}) && (m - {p}).Values == start.Values
  {
    var without := reached[p := slot] - {p};
    assert without == reached - {p};
    var settled := reached - {inner};
    forall q, r | q in without && r in without && without[q] == without[r] ensures q == r {
      var q', r' := if q == inner then p else q, if r == inner then p else r;
      assert settled[q'] == without[q] && settled[r'] == without[r];
    }
    forall v ensures v in without.Values <==> v in start.Values {
      if v in without.Values {
        var q :| q in without && without[q] == v;
        if q == inner { assert (reached - {inner})[p] == v; } else { assert (reached - {inner})[q] == v; }
      }
      if v in start.Values {
        var q :| q in reached - {inner} && (reached - {inner})[q] == v;
        if q == p { assert without[inner] == v; } else { assert without[q] == v; }
      }
    }
  }

  lemma EmptyStart(g: Graph, slotOf: map<nat, nat>)
    requires slotOf == map[]
    ensures slotOf.Values == Greedy(g, 0)
  {
  }

  lemma NobodyHolds(g: Graph, slotOf: map<nat, nat>, slot: nat)
    requires slot <= |g| && slotOf.Values == Greedy(g, slot)
    ensures forall p | p in slotOf :: slotOf[p] != slot
  {
    forall p | p in slotOf ensures slotOf[p] != slot {
      assert slotOf[p] in slotOf.Values;
    }
  }

  lemma NoneLarger(g: Graph, m: map<nat, nat>)
    requires IsMatching(g, m) && m.Keys == Greedy(g, |g|)
    ensures forall other | IsMatching(g, other) :: |other| <= |m|
  {
    forall other | IsMatching(g, other) ensures |other| <= |m| {
      GreedyIsMaximum(g, |g|, other);
    }
  }

  /** A success at the top level adds `slot` to the filled ones. */
  lemma Extended(g: Graph, start: map<nat, nat>, slotOf: map<nat, nat>, taken: nat, slot: nat)
    requires slot < |g| && start.Values == Greedy(g, slot)
    requires Edges(g, slotOf) && taken in slotOf && slotOf[taken] == slot
    requires OneSlotEach(slotOf - {taken}) && (slotOf - {taken}).Values == start.Values
    ensures OneSlotEach(slotOf) && slotOf.Values == Greedy(g, slot + 1)
  {
    var rest := slotOf - {taken};
    forall p | p in rest ensures rest[p] in Greedy(g, slot) {
      assert rest[p] in rest.Values;
    }
    forall p, q | p in slotOf && q in slotOf && slotOf[p] == slotOf[q] ensures p == q {
      assert p == taken || rest[p] == slotOf[p];
      assert q == taken || rest[q] == slotOf[q];
    }
    ValuesWith(slotOf, taken);
    SlotViewIsMatching(g, slotOf);
  }

  lemma ValuesWith(f: map<nat, nat>, k: nat)
    requires k in f
    ensures f.Values == (f - {k}).Values + {f[k]}
  {
    forall v ensures v in f.Values <==> v in (f - {k}).Values + {f[k]} {
      if v in f.Values && v != f[k] {
        var j :| j in f && f[j] == v;
        assert (f - {k})[j] == v;
      }
    }
  }

  /** A failure at the top level shows that `slot` cannot be added. */
  lemma Obstructed(g: Graph, slotOf: map<nat, nat>, visited: set<nat>, slot: nat)
    requires slot < |g| && Edges(g, slotOf) && OneSlotEach(slotOf) && slotOf.Values == Greedy(g, slot)
    requires forall q | Edge(g, slot, q) :: q in visited
    requires forall p | p in visited :: p in slotOf && forall q | Edge(g, slotOf[p], q) :: q in visited
    ensures Greedy(g, slot + 1) == Greedy(g, slot)
  {
    SlotViewIsMatching(g, slotOf);
    var m := SlotView(slotOf);
    forall p | p in visited ensures p in m.Values { assert m[slotOf[p]] == p; }
    assert Closed(g, m, visited);
    ClosedSetBlocks(g, m, visited, slot);
  }
}
