/** Sliding-window rate limiting. The reference keeps every attempt for ever and allows a
    request when fewer than `max` attempts of its key, blocked ones included, lie in the
    window before it. The in-memory limiter and the Redis script keep at most `max`
    attempts a key and still give the same answers. */
module RateLimit {
  import opened Policy

  datatype Attempt = Attempt(key: string, time: real)

  predicate Monotonic(attempts: seq<Attempt>) {
    forall i, j | 0 <= i <= j < |attempts| :: attempts[i].time <= attempts[j].time
  }

  function Recent(attempts: seq<Attempt>, key: string, cutoff: real): set<nat> {
    set i: nat | i < |attempts| && attempts[i].key == key && attempts[i].time > cutoff
  }

  /** The reference: the answer an unbounded log of attempts gives. */
  predicate Allowed(attempts: seq<Attempt>, max: int, window: real, key: string, now: real) {
    |Recent(attempts, key, now - window)| < max
  }

  /** A call is refused exactly when `max` attempts of its key, answered either way, came after
      the start of the window that ends with it; one at the very start no longer counts. */
  lemma WindowDecides(attempts: seq<Attempt>, max: int, window: real, key: string, now: real)
    requires forall i | 0 <= i < |attempts| :: attempts[i].time <= now
    ensures var within := set i: nat | i < |attempts| && attempts[i].key == key
                                       && now - attempts[i].time < window;
            Allowed(attempts, max, window, key, now) <==> |within| < max
  {
    var within := set i: nat | i < |attempts| && attempts[i].key == key && now - attempts[i].time < window;
    assert within == Recent(attempts, key, now - window);
  }

  // ---------------------------------------------------------------- sets of numbers

  lemma {:induction false} SubsetSize<T>(a: set<T>, b: set<T>)
    requires a <= b
    ensures |a| <= |b| && (|a| == |b| ==> a == b)
    decreases b
  {
    if a != {} {
      var x :| x in a;
      SubsetSize(a - {x}, b - {x});
      assert a == a - {x} + {x} && b == b - {x} + {x};
    } else {
      assert b != {} ==> |b| > 0;
    }
  }

  // ---------------------------------------------------------------- what the reference guarantees

  /** The calls of a key that were allowed between `end - window` and `end`. */
  function Granted(calls: seq<Attempt>, max: int, window: real, key: string, end: real): set<nat> {
    set i: nat | i < |calls| && calls[i].key == key && end - window < calls[i].time <= end
                 && Allowed(calls[..i], max, window, key, calls[i].time)
  }

  lemma {:induction false} Latest(s: set<nat>) returns (top: nat)
    requires s != {}
    ensures top in s && forall i | i in s :: i <= top
    decreases s
  {
    var x :| x in s;
    if s == {x} {
      top := x;
    } else {
      var rest := Latest(s - {x});
      top := if x > rest then x else rest;
      forall i | i in s ensures i <= top {
        assert i == x || i in s - {x};
      }
    }
  }

  /** No window, wherever it ends, holds more than `max` allowed calls of a key. */
  lemma WindowHoldsAtMost(calls: seq<Attempt>, max: nat, window: real, key: string, end: real)
    ensures |Granted(calls, max, window, key, end)| <= max
  {
    var granted := Granted(calls, max, window, key, end);
    if granted != {} {
      var top := Latest(granted);
      var before := Recent(calls[..top], key, calls[top].time - window);
      forall i | i in granted - {top} ensures i in before {
        assert calls[..top][i] == calls[i];
      }
      SubsetSize(granted - {top}, before);
    }
  }

  // ---------------------------------------------------------------- a bounded memory of attempts

  /** The attempts in `kept` stand for all attempts of the key: what was dropped is too old
      for any later window, or there is no room and everything kept is at least as new. */
  ghost predicate Keeps(kept: set<nat>, attempts: seq<Attempt>, key: string, room: nat, horizon: real) {
    && |kept| <= room
    && (forall i | i in kept :: i < |attempts| && attempts[i].key == key)
    && forall i: nat | i < |attempts| && attempts[i].key == key && i !in kept ::
         attempts[i].time <= horizon || (|kept| == room && NoneOlder(kept, attempts, attempts[i].time))
  }

  ghost predicate NoneOlder(kept: set<nat>, attempts: seq<Attempt>, time: real) {
    forall j | j in kept && j < |attempts| :: time <= attempts[j].time
  }

  function Live(kept: set<nat>, attempts: seq<Attempt>, cutoff: real): set<nat> {
    set i | i in kept && i < |attempts| && attempts[i].time > cutoff
  }

  /** Counting the kept attempts of the window decides as counting all of them does. */
  lemma BoundedMemoryDecides(kept: set<nat>, attempts: seq<Attempt>, key: string, room: nat, horizon: real,
                             cutoff: real)
    requires Keeps(kept, attempts, key, room, horizon) && horizon <= cutoff
    ensures |Live(kept, attempts, cutoff)| < room <==> |Recent(attempts, key, cutoff)| < room
  {
    var live, recent := Live(kept, attempts, cutoff), Recent(attempts, key, cutoff);
    SubsetSize(live, kept);
    SubsetSize(live, recent);
    if |live| < room {
      if live != kept {
        var j :| j in kept && j !in live;
        assert attempts[j].time <= cutoff;
      }
      forall i | i in recent ensures i in live {
      }
      assert live == recent;
    }
  }

  lemma LiveKeeps(kept: set<nat>, attempts: seq<Attempt>, key: string, room: nat, horizon: real, cutoff: real)
    requires Keeps(kept, attempts, key, room, horizon) && horizon <= cutoff
    ensures Keeps(Live(kept, attempts, cutoff), attempts, key, room, cutoff)
  {
    var live := Live(kept, attempts, cutoff);
    SubsetSize(live, kept);
    if live != kept {
      var j :| j in kept && j !in live;
      assert attempts[j].time <= cutoff;
    }
  }

  lemma AdmittedKeeps(live: set<nat>, attempts: seq<Attempt>, key: string, room: nat, cutoff: real, now: real)
    requires Keeps(live, attempts, key, room, cutoff) && |live| < room
    ensures Keeps(live + {|attempts|}, attempts + [Attempt(key, now)], key, room, cutoff)
  {
    assert |attempts| !in live;
  }

  lemma DisplacedKeeps(live: set<nat>, attempts: seq<Attempt>, key: string, room: nat, cutoff: real, now: real,
                       oldest: nat)
    requires Keeps(live, attempts, key, room, cutoff) && |live| == room
    requires oldest in live && NoneOlder(live, attempts, attempts[oldest].time)
    requires forall i | 0 <= i < |attempts| :: attempts[i].time <= now
    ensures Keeps(live - {oldest} + {|attempts|}, attempts + [Attempt(key, now)], key, room, cutoff)
  {
    assert |attempts| !in live;
    assert |live - {oldest}| == room - 1;
  }

  lemma OthersKeep(kept: set<nat>, attempts: seq<Attempt>, key: string, room: nat, horizon: real, cutoff: real,
                   next: Attempt)
    requires Keeps(kept, attempts, key, room, horizon) && horizon <= cutoff && next.key != key
    ensures Keeps(kept, attempts + [next], key, room, cutoff)
  {
    var longer := attempts + [next];
    forall i: nat | i < |longer| && longer[i].key == key && i !in kept
      ensures longer[i].time <= cutoff || (|kept| == room && NoneOlder(kept, longer, longer[i].time))
    {
      assert longer[i] == attempts[i];
    }
  }

  // ---------------------------------------------------------------- buckets of timestamps

  function Elems(s: seq<nat>): set<nat> {
    set x | x in s
  }

  predicate Increasing(s: seq<nat>) {
    forall p, q | 0 <= p < q < |s| :: s[p] < s[q]
  }

  lemma {:induction false} ElemsCount(s: seq<nat>)
    requires Increasing(s)
    ensures |Elems(s)| == |s|
    decreases |s|
  {
    if s != [] {
      var n := |s| - 1;
      ElemsCount(s[..n]);
      assert s == s[..n] + [s[n]];
      assert Elems(s) == Elems(s[..n]) + {s[n]};
    }
  }

  /** `bucket` lists the times of the attempts numbered by `origin`, oldest first. */
  ghost predicate Lists(bucket: seq<real>, origin: seq<nat>, attempts: seq<Attempt>) {
    && |bucket| == |origin| && Increasing(origin)
    && forall p | 0 <= p < |origin| :: origin[p] < |attempts| && bucket[p] == attempts[origin[p]].time
  }

  function At<T>(rows: map<string, seq<T>>, key: string): seq<T> {
    if key in rows then rows[key] else []
  }

  ghost predicate Holds(buckets: map<string, seq<real>>, origins: map<string, seq<nat>>, attempts: seq<Attempt>,
                        room: nat, horizon: real) {
    forall key: string ::
      Lists(At(buckets, key), At(origins, key), attempts)
          && Keeps(Elems(At(origins, key)), attempts, key, room, horizon)
  }

  lemma ListsPrefix(bucket: seq<real>, origin: seq<nat>, attempts: seq<Attempt>, next: Attempt)
    requires Lists(bucket, origin, attempts)
    ensures Lists(bucket, origin, attempts + [next])
  {
  }

  /** The bucket from its first attempt after the cutoff on holds the live attempts. */
  lemma PrunedIsLive(bucket: seq<real>, origin: seq<nat>, attempts: seq<Attempt>, p: nat, cutoff: real)
    requires Monotonic(attempts) && Lists(bucket, origin, attempts) && p <= |bucket|
    requires forall q | 0 <= q < p :: bucket[q] <= cutoff
    requires p < |bucket| ==> bucket[p] > cutoff
    ensures Elems(origin[p..]) == Live(Elems(origin), attempts, cutoff)
    ensures Lists(bucket[p..], origin[p..], attempts) && |Elems(origin[p..])| == |bucket[p..]|
  {
    hide Monotonic, Lists, Increasing;
    ListsSuffix(bucket, origin, attempts, p);
    forall i ensures i in origin[p..] <==> i in Live(Elems(origin), attempts, cutoff) {
      if i in origin {
        var q :| 0 <= q < |origin| && origin[q] == i;
        TimeOf(bucket, origin, attempts, p, q);
        if q >= p { assert origin[p..][q - p] == i; }
        if i in origin[p..] {
          var r :| 0 <= r < |origin[p..]| && origin[p..][r] == i;
          TimeOf(bucket, origin, attempts, p, p + r);
        }
      }
    }
    ElemsCount(origin[p..]);
  }

  lemma ListsSuffix(bucket: seq<real>, origin: seq<nat>, attempts: seq<Attempt>, p: nat)
    requires Lists(bucket, origin, attempts) && p <= |bucket|
    ensures |bucket| == |origin|
    ensures Increasing(origin[p..]) && Lists(bucket[p..], origin[p..], attempts)
  {
  }

  /** A bucket gives the time of each of its attempts, and the times never go down. */
  lemma TimeOf(bucket: seq<real>, origin: seq<nat>, attempts: seq<Attempt>, p: nat, q: nat)
    requires Monotonic(attempts) && Lists(bucket, origin, attempts) && q < |bucket|
    ensures |bucket| == |origin| && origin[q] < |attempts| && bucket[q] == attempts[origin[q]].time
    ensures p <= q ==> bucket[p] <= bucket[q]
  {
    if p < q {
      assert attempts[origin[p]].time <= attempts[origin[q]].time;
    }
  }

  /** The first attempt of a bucket is the oldest. */
  lemma FrontIsOldest(bucket: seq<real>, origin: seq<nat>, attempts: seq<Attempt>)
    requires Monotonic(attempts) && Lists(bucket, origin, attempts) && bucket != []
    ensures NoneOlder(Elems(origin), attempts, attempts[origin[0]].time)
    ensures Lists(bucket[1..], origin[1..], attempts)
    ensures origin[0] in Elems(origin) && Elems(origin) - {origin[0]} == Elems(origin[1..])
  {
    forall j | j in Elems(origin) && j < |attempts| ensures attempts[origin[0]].time <= attempts[j].time {
      var q :| 0 <= q < |origin| && origin[q] == j;
      assert origin[0] <= origin[q];
    }
    assert origin == [origin[0]] + origin[1..];
  }

  lemma ListsAppend(bucket: seq<real>, origin: seq<nat>, attempts: seq<Attempt>, key: string, now: real)
    requires Lists(bucket, origin, attempts)
    ensures Lists(bucket + [now], origin + [|attempts|], attempts + [Attempt(key, now)])
    ensures Elems(origin + [|attempts|]) == Elems(origin) + {|attempts|}
  {
  }

  const CLEANUP_INTERVAL := 128

  predicate SweepIsDue(callCount: nat) {
    callCount % CLEANUP_INTERVAL == 0
  }

  class InMemoryRateLimiter {
    const maxRequests: int
    const windowSeconds: real
    var buckets: map<string, seq<real>>
    var callCount: nat
    ghost var attempts: seq<Attempt>
    ghost var origins: map<string, seq<nat>>

    constructor (maxRequests: int, windowSeconds: real)
      ensures this.maxRequests == maxRequests && this.windowSeconds == windowSeconds
      ensures Valid() && attempts == [] && callCount == 0
    {
      this.maxRequests, this.windowSeconds := maxRequests, windowSeconds;
      buckets, callCount := map[], 0;
      attempts, origins := [], map[];
    }

    function Room(): nat {
      if maxRequests < 0 then 0 else maxRequests
    }

    ghost predicate Valid()
      reads this
    {
      && Monotonic(attempts)
      && Holds(buckets, origins, attempts, Room(), LastCutoff())
    }

    ghost function LastCutoff(): real
      reads this
    {
      if attempts == [] then 0.0 else attempts[|attempts| - 1].time - windowSeconds
    }

    predicate Stale(key: string, cutoff: real)
      reads this
      requires key in buckets
    {
      buckets[key] == [] || buckets[key][|buckets[key]| - 1] <= cutoff
    }

    /** Forget the keys whose attempts have all left the window. */
    method SweepExpired(cutoff: real)
      requires Monotonic(attempts) && Holds(buckets, origins, attempts, Room(), cutoff)
      modifies this`buckets, this`origins
      ensures Holds(buckets, origins, attempts, Room(), cutoff)
      ensures forall k | k in buckets :: !Stale(k, cutoff)
    {
      var remaining := set k | k in buckets && Stale(k, cutoff);
      while remaining != {}
        invariant Holds(buckets, origins, attempts, Room(), cutoff)
        invariant remaining <= buckets.Keys && forall k | k in buckets :: k in remaining <==> Stale(k, cutoff)
        decreases remaining
      {
        var k :| k in remaining;
        DeletedHolds(buckets, origins, attempts, Room(), cutoff, k);
        buckets := buckets - {k};
        origins := origins - {k};
        remaining := remaining - {k};
      }
    }

    /** Take the attempts that have left the window off the front of a bucket. */
    static method PopExpired(bucket: seq<real>, cutoff: real) returns (timestamps: seq<real>, ghost p: nat)
      ensures p <= |bucket| && timestamps == bucket[p..] && (p < |bucket| ==> bucket[p] > cutoff)
      ensures forall q | 0 <= q < p :: bucket[q] <= cutoff
    {
      timestamps, p := bucket, 0;
      while timestamps != [] && timestamps[0] <= cutoff
        invariant p <= |bucket| && timestamps == bucket[p..]
        invariant forall q | 0 <= q < p :: bucket[q] <= cutoff
        decreases |timestamps|
      {
        timestamps := timestamps[1..];
        p := p + 1;
      }
    }

    /** Decide on an attempt and remember it in its key's bucket. */
    method RecordAttempt(key: string, now: real, cutoff: real) returns (answer: Option<bool>)
      requires Monotonic(attempts) && forall i | 0 <= i < |attempts| :: attempts[i].time <= now
      requires Holds(buckets, origins, attempts, Room(), cutoff)
      modifies this`buckets, this`origins, this`attempts
      ensures attempts == old(attempts) + [Attempt(key, now)] && Holds(buckets, origins, attempts, Room(), cutoff)
      ensures answer == if maxRequests >= 1 then Some(|Recent(old(attempts), key, cutoff)| < maxRequests) else None
      ensures buckets - {key} == old(buckets) - {key}
    {
      hide Holds, Keeps, Live, Elems, Recent, NoneOlder, Lists, Monotonic;
      HoldsAt(buckets, origins, attempts, Room(), cutoff, key);
      ghost var origin := At(origins, key);
      var bucket := At(buckets, key);
      var timestamps, p := PopExpired(bucket, cutoff);
      PrunedDecides(bucket, origin, attempts, key, Room(), cutoff, p);
      NextKeeps(timestamps, origin[p..], attempts, key, Room(), cutoff, now);
      origin := Next(origin[p..], Room(), |attempts|);
      if |timestamps| < maxRequests {
        timestamps := timestamps + [now];
        answer := Some(true);
      } else if timestamps == [] {
        answer := None;
      } else {
        timestamps := timestamps[1..];
        timestamps := timestamps + [now];
        answer := Some(false);
      }
      RecordedHolds(buckets, origins, attempts, Room(), cutoff, Attempt(key, now), timestamps, origin);
      buckets := buckets[key := timestamps];
      origins := origins[key := origin];
      attempts := attempts + [Attempt(key, now)];
    }

    /** Answers as the unbounded log does; with no room for any request it fails on the
        empty bucket instead. */
    method IsAllowed(key: string, now: real) returns (answer: Option<bool>)
      requires Valid() && (attempts != [] ==> attempts[|attempts| - 1].time <= now)
      modifies this
      ensures Valid() && attempts == old(attempts) + [Attempt(key, now)] && callCount == old(callCount) + 1
      ensures answer == if maxRequests >= 1 then Some(Allowed(old(attempts), maxRequests, windowSeconds, key, now))
          else None
      ensures forall k | k in buckets :: |buckets[k]| <= Room()
      ensures SweepIsDue(callCount) ==> forall k | k in buckets - {key} :: !Stale(k, now - windowSeconds)
    {
      hide Holds, Keeps, Recent, Monotonic, SweepIsDue;
      var cutoff := now - windowSeconds;
      MonotonicAppend(attempts, key, now);
      callCount := callCount + 1;
      LaterCutoffHolds(buckets, origins, attempts, Room(), LastCutoff(), cutoff);
      if SweepIsDue(callCount) {
        SweepExpired(cutoff);
      }
      answer := RecordAttempt(key, now, cutoff);
      forall k | k in buckets ensures |buckets[k]| <= Room() {
        HoldsAt(buckets, origins, attempts, Room(), cutoff, k);
      }
      forall k | k in buckets - {key} && SweepIsDue(callCount) ensures !Stale(k, cutoff) {
        assert (buckets - {key})[k] == buckets[k];
      }
    }
  }

  /** A bucket after one more attempt: appended while there is room, else in place of the
      oldest. */
  function Next<T>(bucket: seq<T>, room: nat, item: T): seq<T> {
    if |bucket| < room then bucket + [item] else if bucket == [] then [] else bucket[1..] + [item]
  }

  lemma PrunedDecides(bucket: seq<real>, origin: seq<nat>, attempts: seq<Attempt>, key: string, room: nat,
                      cutoff: real, p: nat)
    requires Monotonic(attempts) && Lists(bucket, origin, attempts) && Keeps(Elems(origin), attempts, key, room, cutoff)
    requires p <= |bucket| && (p < |bucket| ==> bucket[p] > cutoff) && forall q | 0 <= q < p :: bucket[q] <= cutoff
    ensures Lists(bucket[p..], origin[p..], attempts) && Keeps(Elems(origin[p..]), attempts, key, room, cutoff)
    ensures |bucket[p..]| <= room && (|bucket[p..]| < room <==> |Recent(attempts, key, cutoff)| < room)
  {
    PrunedIsLive(bucket, origin, attempts, p, cutoff);
    BoundedMemoryDecides(Elems(origin), attempts, key, room, cutoff, cutoff);
    LiveKeeps(Elems(origin), attempts, key, room, cutoff, cutoff);
  }

  lemma NextKeeps(bucket: seq<real>, origin: seq<nat>, attempts: seq<Attempt>, key: string, room: nat, cutoff: real,
                  now: real)
    requires Monotonic(attempts) && forall i | 0 <= i < |attempts| :: attempts[i].time <= now
    requires Lists(bucket, origin, attempts) && Keeps(Elems(origin), attempts, key, room, cutoff) && |bucket| <= room
    ensures Lists(Next(bucket, room, now), Next(origin, room, |attempts|), attempts + [Attempt(key, now)])
    ensures Keeps(Elems(Next(origin, room, |attempts|)), attempts + [Attempt(key, now)], key, room, cutoff)
  {
    hide Lists, Keeps, Elems, NoneOlder;
    ListsCount(bucket, origin, attempts);
    if |bucket| < room {
      AdmittedKeeps(Elems(origin), attempts, key, room, cutoff, now);
      ListsAppend(bucket, origin, attempts, key, now);
    } else if bucket != [] {
      FrontIsOldest(bucket, origin, attempts);
      DisplacedKeeps(Elems(origin), attempts, key, room, cutoff, now, origin[0]);
      ListsAppend(bucket[1..], origin[1..], attempts, key, now);
    } else {
      NoRoomKeeps(attempts, key, cutoff, now);
    }
  }

  lemma ListsCount(bucket: seq<real>, origin: seq<nat>, attempts: seq<Attempt>)
    requires Lists(bucket, origin, attempts)
    ensures |bucket| == |origin| == |Elems(origin)|
    ensures bucket != [] ==> origin[0] < |attempts|
  {
    ElemsCount(origin);
  }

  lemma NoRoomKeeps(attempts: seq<Attempt>, key: string, cutoff: real, now: real)
    ensures Lists([], [], attempts + [Attempt(key, now)])
    ensures Keeps(Elems([]), attempts + [Attempt(key, now)], key, 0, cutoff)
  {
    assert |Elems([])| == 0;
  }

  lemma MonotonicAppend(attempts: seq<Attempt>, key: string, now: real)
    requires Monotonic(attempts) && (attempts != [] ==> attempts[|attempts| - 1].time <= now)
    ensures Monotonic(attempts + [Attempt(key, now)])
    ensures forall i | 0 <= i < |attempts| :: attempts[i].time <= now
  {
  }

  lemma HoldsAt(buckets: map<string, seq<real>>, origins: map<string, seq<nat>>, attempts: seq<Attempt>,
                room: nat, cutoff: real, key: string)
    requires Holds(buckets, origins, attempts, room, cutoff)
    ensures Lists(At(buckets, key), At(origins, key), attempts)
    ensures Keeps(Elems(At(origins, key)), attempts, key, room, cutoff) && |At(buckets, key)| <= room
  {
    ElemsCount(At(origins, key));
  }

  lemma DeletedHolds(buckets: map<string, seq<real>>, origins: map<string, seq<nat>>, attempts: seq<Attempt>,
                     room: nat, cutoff: real, gone: string)
    requires Monotonic(attempts) && Holds(buckets, origins, attempts, room, cutoff) && gone in buckets
    requires buckets[gone] == [] || buckets[gone][|buckets[gone]| - 1] <= cutoff
    ensures Holds(buckets - {gone}, origins - {gone}, attempts, room, cutoff)
  {
    hide Holds, Lists, Keeps, Live, Elems, Monotonic;
    var bucket, origin := At(buckets, gone), At(origins, gone);
    HoldsAt(buckets, origins, attempts, room, cutoff, gone);
    AllBelow(bucket, origin, attempts, cutoff);
    PrunedIsLive(bucket, origin, attempts, |bucket|, cutoff);
    LiveKeeps(Elems(origin), attempts, gone, room, cutoff, cutoff);
    assert bucket[|bucket|..] == [] && origin[|bucket|..] == [] by { ListsSuffix(bucket, origin, attempts, |bucket|); }
    HoldsIfAll(buckets - {gone}, origins - {gone}, attempts, room, cutoff, gone, buckets, origins);
  }

  lemma AllBelow(bucket: seq<real>, origin: seq<nat>, attempts: seq<Attempt>, cutoff: real)
    requires Monotonic(attempts) && Lists(bucket, origin, attempts)
    requires bucket == [] || bucket[|bucket| - 1] <= cutoff
    ensures forall q | 0 <= q < |bucket| :: bucket[q] <= cutoff
  {
    hide Monotonic, Lists;
    forall q | 0 <= q < |bucket| ensures bucket[q] <= cutoff {
      TimeOf(bucket, origin, attempts, q, |bucket| - 1);
    }
  }

  /** Tables that differ from ones that hold in one key only hold if they do for that key. */
  lemma HoldsIfAll(buckets: map<string, seq<real>>, origins: map<string, seq<nat>>, attempts: seq<Attempt>,
                   room: nat, cutoff: real, changed: string, before: map<string, seq<real>>,
                   originsBefore: map<string, seq<nat>>)
    requires Holds(before, originsBefore, attempts, room, cutoff)
    requires forall key: string | key != changed ::
               At(buckets, key) == At(before, key) && At(origins, key) == At(originsBefore, key)
    requires Lists(At(buckets, changed), At(origins, changed), attempts)
    requires Keeps(Elems(At(origins, changed)), attempts, changed, room, cutoff)
    ensures Holds(buckets, origins, attempts, room, cutoff)
  {
    hide Lists, Keeps, Elems, At;
  }

  lemma LaterCutoffHolds(buckets: map<string, seq<real>>, origins: map<string, seq<nat>>, attempts: seq<Attempt>,
                         room: nat, horizon: real, cutoff: real)
    requires Holds(buckets, origins, attempts, room, horizon)
    requires attempts == [] || horizon <= cutoff
    ensures Holds(buckets, origins, attempts, room, cutoff)
  {
  }

  lemma RecordedHolds(buckets: map<string, seq<real>>, origins: map<string, seq<nat>>, attempts: seq<Attempt>,
                      room: nat, cutoff: real, next: Attempt, bucket: seq<real>, origin: seq<nat>)
    requires Holds(buckets, origins, attempts, room, cutoff)
    requires Lists(bucket, origin, attempts + [next]) && Keeps(Elems(origin), attempts + [next], next.key, room, cutoff)
    ensures Holds(buckets[next.key := bucket], origins[next.key := origin], attempts + [next], room, cutoff)
  {
    var buckets', origins' := buckets[next.key := bucket], origins[next.key := origin];
    forall key: string
      ensures Lists(At(buckets', key), At(origins', key), attempts + [next])
      ensures Keeps(Elems(At(origins', key)), attempts + [next], key, room, cutoff)
    {
      if key != next.key {
        assert At(buckets', key) == At(buckets, key) && At(origins', key) == At(origins, key);
        ListsPrefix(At(buckets, key), At(origins, key), attempts, next);
        OthersKeep(Elems(At(origins, key)), attempts, key, room, cutoff, cutoff, next);
      }
    }
  }
}
