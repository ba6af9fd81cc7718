/** The Redis-backed limiter: one sorted set of scored members a key, trimmed and extended
    by a script that runs atomically, and removed by Redis when its expiry time passes. */
module RedisLimit {
  import opened RateLimit

  /** Redis is given whole seconds, longer than the window and by at most one second. */
  function TimeToLive(window: real): (seconds: int)
    ensures seconds as real > window
    ensures window >= 0.0 ==> seconds as real <= window + 1.0
  {
    if window >= 0.0 then window.Floor + 1 else 1 - (-window).Floor
  }

  /** Sorted-set members are numbered by the call that added them. */
  type Scores = map<nat, real>

  datatype SortedSet = SortedSet(scores: Scores, expires: real)

  function Stored(sets: map<string, SortedSet>, key: string): SortedSet {
    if key in sets then sets[key] else SortedSet(map[], 0.0)
  }

  // ---------------------------------------------------------------- the script on one set

  function Trimmed(scores: Scores, cutoff: real): Scores {
    map i | i in scores && scores[i] > cutoff :: scores[i]
  }

  predicate IsLowest(scores: Scores, m: nat) {
    m in scores && forall i | i in scores :: scores[m] <= scores[i]
  }

  lemma {:induction false} LowestScore(scores: Scores) returns (m: nat)
    requires scores != map[]
    ensures IsLowest(scores, m)
    decreases |scores|
  {
    var x :| x in scores;
    var rest := scores - {x};
    assert scores.Keys == rest.Keys + {x};
    if rest == map[] {
      m := x;
    } else {
      var y := LowestScore(rest);
      m := if scores[y] <= scores[x] then y else x;
      forall i | i in scores ensures scores[m] <= scores[i] {
        assert i == x || i in rest;
      }
    }
  }

  /** What the script leaves of a trimmed set. */
  predicate IsScripted(trimmed: Scores, scores: Scores, member: nat, now: real, oldest: nat, max: int) {
    if |trimmed| < max || trimmed == map[] then scores == trimmed[member := now]
    else IsLowest(trimmed, oldest) && scores == (trimmed - {oldest})[member := now]
  }

  lemma ScriptSize(stored: Scores, cutoff: real, scores: Scores, member: nat, now: real, oldest: nat, max: int,
                   room: nat)
    requires IsScripted(Trimmed(stored, cutoff), scores, member, now, oldest, max)
    requires |stored| <= room && room >= 1 && room >= max
    ensures |scores| <= room
  {
    var trimmed := Trimmed(stored, cutoff);
    SubsetSize(trimmed.Keys, stored.Keys);
    if |trimmed| < max || trimmed == map[] {
      assert scores.Keys == trimmed.Keys + {member};
    } else {
      assert scores.Keys == trimmed.Keys - {oldest} + {member};
      assert |trimmed.Keys - {oldest}| == |trimmed| - 1;
    }
  }

  // ---------------------------------------------------------------- what a set stands for

  ghost predicate Timed(scores: Scores, attempts: seq<Attempt>, latest: real) {
    forall i | i in scores :: i < |attempts| && scores[i] == attempts[i].time && scores[i] <= latest
  }

  /** A set stands for the key's attempts, and outlives the window of each of its members. */
  ghost predicate Mirrors(entry: SortedSet, attempts: seq<Attempt>, key: string, room: nat, horizon: real, ttl: real) {
    && Keeps(entry.scores.Keys, attempts, key, room, horizon)
    && Timed(entry.scores, attempts, entry.expires - ttl)
  }

  lemma TrimmedIsLive(entry: SortedSet, attempts: seq<Attempt>, key: string, room: nat, cutoff: real, ttl: real)
    requires Mirrors(entry, attempts, key, room, cutoff, ttl)
    ensures Mirrors(SortedSet(Trimmed(entry.scores, cutoff), entry.expires), attempts, key, room, cutoff, ttl)
    ensures |Trimmed(entry.scores, cutoff)| < room <==> |Recent(attempts, key, cutoff)| < room
  {
    assert Trimmed(entry.scores, cutoff).Keys == Live(entry.scores.Keys, attempts, cutoff);
    LiveKeeps(entry.scores.Keys, attempts, key, room, cutoff, cutoff);
    BoundedMemoryDecides(entry.scores.Keys, attempts, key, room, cutoff, cutoff);
  }

  /** Expiry takes only what trimming would take. */
  lemma ExpiredIsStale(entry: SortedSet, attempts: seq<Attempt>, key: string, room: nat, ttl: real, window: real,
                       now: real)
    requires Mirrors(entry, attempts, key, room, now - window, ttl) && ttl > window && entry.expires <= now
    ensures Mirrors(SortedSet(map[], 0.0), attempts, key, room, now - window, ttl)
  {
    var scores := Trimmed(entry.scores, now - window);
    TrimmedIsLive(entry, attempts, key, room, now - window, ttl);
    assert scores == map[];
  }

  lemma AddedMirrors(entry: SortedSet, attempts: seq<Attempt>, key: string, room: nat, cutoff: real, ttl: real,
                     now: real)
    requires Mirrors(entry, attempts, key, room, cutoff, ttl) && |entry.scores| < room
    requires forall i | 0 <= i < |attempts| :: attempts[i].time <= now
    ensures Mirrors(SortedSet(entry.scores[|attempts| := now], now + ttl), attempts + [Attempt(key, now)], key, room,
                    cutoff, ttl)
  {
    AdmittedKeeps(entry.scores.Keys, attempts, key, room, cutoff, now);
    assert entry.scores[|attempts| := now].Keys == entry.scores.Keys + {|attempts|};
  }

  lemma ReplacedMirrors(entry: SortedSet, attempts: seq<Attempt>, key: string, room: nat, cutoff: real, ttl: real,
                        now: real, oldest: nat)
    requires Mirrors(entry, attempts, key, room, cutoff, ttl) && |entry.scores| >= room
    requires IsLowest(entry.scores, oldest)
    requires forall i | 0 <= i < |attempts| :: attempts[i].time <= now
    ensures Mirrors(SortedSet((entry.scores - {oldest})[|attempts| := now], now + ttl), attempts + [Attempt(key, now)],
                    key, room, cutoff, ttl)
  {
    DisplacedKeeps(entry.scores.Keys, attempts, key, room, cutoff, now, oldest);
    assert (entry.scores - {oldest})[|attempts| := now].Keys == entry.scores.Keys - {oldest} + {|attempts|};
  }

  lemma ScriptMirrors(entry: SortedSet, attempts: seq<Attempt>, key: string, room: nat, cutoff: real, ttl: real,
                      now: real, scores: Scores, oldest: nat)
    requires Mirrors(entry, attempts, key, room, cutoff, ttl) && room >= 1
    requires forall i | 0 <= i < |attempts| :: attempts[i].time <= now
    requires IsScripted(Trimmed(entry.scores, cutoff), scores, |attempts|, now, oldest, room)
    ensures Mirrors(SortedSet(scores, now + ttl), attempts + [Attempt(key, now)], key, room, cutoff, ttl)
    ensures |Trimmed(entry.scores, cutoff)| < room <==> |Recent(attempts, key, cutoff)| < room
  {
    hide Mirrors, IsLowest, Recent, Trimmed;
    var trimmed := SortedSet(Trimmed(entry.scores, cutoff), entry.expires);
    TrimmedIsLive(entry, attempts, key, room, cutoff, ttl);
    if |trimmed.scores| < room {
      AddedMirrors(trimmed, attempts, key, room, cutoff, ttl, now);
    } else {
      ReplacedMirrors(trimmed, attempts, key, room, cutoff, ttl, now, oldest);
    }
  }

  // ---------------------------------------------------------------- all keys

  ghost predicate AllMirror(sets: map<string, SortedSet>, attempts: seq<Attempt>, room: nat, horizon: real, ttl: real) {
    forall key: string :: Mirrors(Stored(sets, key), attempts, key, room, horizon, ttl)
  }

  lemma LaterMirror(sets: map<string, SortedSet>, attempts: seq<Attempt>, room: nat, horizon: real, cutoff: real,
                    ttl: real)
    requires AllMirror(sets, attempts, room, horizon, ttl) && (attempts == [] || horizon <= cutoff)
    ensures AllMirror(sets, attempts, room, cutoff, ttl)
  {
  }

  lemma DroppedMirror(sets: map<string, SortedSet>, attempts: seq<Attempt>, room: nat, ttl: real, window: real,
                      now: real, gone: string)
    requires AllMirror(sets, attempts, room, now - window, ttl) && ttl > window && Stored(sets, gone).expires <= now
    ensures AllMirror(sets - {gone}, attempts, room, now - window, ttl)
  {
    hide Mirrors;
    ExpiredIsStale(Stored(sets, gone), attempts, gone, room, ttl, window, now);
    forall key: string ensures Mirrors(Stored(sets - {gone}, key), attempts, key, room, now - window, ttl) {
      if key != gone {
        assert Stored(sets - {gone}, key) == Stored(sets, key);
      }
    }
  }

  lemma RecordedMirror(sets: map<string, SortedSet>, attempts: seq<Attempt>, room: nat, cutoff: real, ttl: real,
                       next: Attempt, entry: SortedSet)
    requires AllMirror(sets, attempts, room, cutoff, ttl)
    requires Mirrors(entry, attempts + [next], next.key, room, cutoff, ttl)
    ensures AllMirror(sets[next.key := entry], attempts + [next], room, cutoff, ttl)
  {
    var sets' := sets[next.key := entry];
    forall key: string ensures Mirrors(Stored(sets', key), attempts + [next], key, room, cutoff, ttl) {
      if key != next.key {
        var other := Stored(sets, key);
        assert Stored(sets', key) == other;
        OthersKeep(other.scores.Keys, attempts, key, room, cutoff, cutoff, next);
      }
    }
  }

  class RedisRateLimiter {
    const maxRequests: int
    const windowSeconds: real
    var sets: map<string, SortedSet>
    var served: nat
    ghost var attempts: seq<Attempt>

    constructor (maxRequests: int, windowSeconds: real)
      ensures this.maxRequests == maxRequests && this.windowSeconds == windowSeconds
      ensures Valid() && attempts == []
    {
      this.maxRequests, this.windowSeconds := maxRequests, windowSeconds;
      sets, served := map[], 0;
      attempts := [];
    }

    function Room(): nat {
      if maxRequests < 1 then 1 else maxRequests
    }

    ghost predicate Valid()
      reads this
    {
      && Monotonic(attempts) && served == |attempts|
      && (forall k | k in sets :: |sets[k].scores| <= Room())
      && (maxRequests >= 1 ==> AllMirror(sets, attempts, maxRequests, LastCutoff(), TimeToLive(windowSeconds) as real))
    }

    ghost function LastCutoff(): real
      reads this
    {
      if attempts == [] then 0.0 else attempts[|attempts| - 1].time - windowSeconds
    }

    /** The script on one set: trim, count, make room if there is none, and add. */
    static method RunScript(stored: Scores, cutoff: real, now: real, member: nat, max: int)
      returns (allowed: bool, scores: Scores, ghost oldest: nat)
      ensures allowed <==> |Trimmed(stored, cutoff)| < max
      ensures IsScripted(Trimmed(stored, cutoff), scores, member, now, oldest, max)
    {
      scores := Trimmed(stored, cutoff);
      allowed := |scores| < max;
      oldest := 0;
      if !allowed && scores != map[] {
        ghost var witnessed := LowestScore(scores);
        var first :| first in scores && IsLowest(scores, first);
        scores := scores - {first};
        oldest := first;
      }
      scores := scores[member := now];
    }

    /** Run the script on a key's set and renew its expiry. */
    method UpdateSet(key: string, cutoff: real, now: real, ttl: real) returns (allowed: bool)
      requires served == |attempts| && forall i | 0 <= i < |attempts| :: attempts[i].time <= now
      requires forall k | k in sets :: |sets[k].scores| <= Room()
      requires maxRequests >= 1 ==> AllMirror(sets, attempts, maxRequests, cutoff, ttl)
      modifies this`sets
      ensures forall k | k in sets :: |sets[k].scores| <= Room()
      ensures maxRequests >= 1 ==> AllMirror(sets, attempts + [Attempt(key, now)], maxRequests, cutoff, ttl)
      ensures allowed == (|Recent(attempts, key, cutoff)| < maxRequests)
    {
      hide Mirrors, Recent, IsScripted, Trimmed;
      var entry := Stored(sets, key);
      ghost var oldest: nat;
      var scores: Scores;
      allowed, scores, oldest := RunScript(entry.scores, cutoff, now, served, maxRequests);
      ScriptSize(entry.scores, cutoff, scores, served, now, oldest, maxRequests, Room());
      if maxRequests >= 1 {
        ScriptMirrors(entry, attempts, key, maxRequests, cutoff, ttl, now, scores, oldest);
        RecordedMirror(sets, attempts, maxRequests, cutoff, ttl, Attempt(key, now), SortedSet(scores, now + ttl));
      }
      sets := sets[key := SortedSet(scores, now + ttl)];
    }

    /** Answers as the unbounded log does, whether or not Redis has already dropped a key
        whose expiry time has passed. */
    method IsAllowed(key: string, now: real, dropped: bool) returns (allowed: bool)
      requires Valid() && (attempts != [] ==> attempts[|attempts| - 1].time <= now)
      modifies this
      ensures Valid() && attempts == old(attempts) + [Attempt(key, now)]
      ensures allowed == Allowed(old(attempts), maxRequests, windowSeconds, key, now)
    {
      hide Mirrors, Recent, AllMirror, Monotonic, IsScripted, Trimmed;
      var cutoff, ttl := now - windowSeconds, TimeToLive(windowSeconds) as real;
      MonotonicAppend(attempts, key, now);
      if maxRequests >= 1 {
        LaterMirror(sets, attempts, maxRequests, LastCutoff(), cutoff, ttl);
      }
      if dropped && Stored(sets, key).expires <= now {
        if maxRequests >= 1 {
          DroppedMirror(sets, attempts, maxRequests, ttl, windowSeconds, now, key);
        }
        sets := sets - {key};
      }
      allowed := UpdateSet(key, cutoff, now, ttl);
      served := served + 1;
      attempts := attempts + [Attempt(key, now)];
    }
  }
}
