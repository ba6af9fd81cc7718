/** Calendar buckets of the dashboard metrics. Instants are microseconds since the start of
    year 1 of the proleptic Gregorian calendar, whose first day is a Monday. */
module Metrics {

  const HOUR := 3_600_000_000
  const DAY := 86_400_000_000

  type Instant = nat

  datatype Bucket = Hourly | Daily | Weekly | Monthly

  // ---------------------------------------------------------------- the calendar

  datatype YearMonth = YearMonth(year: nat, month: nat) {
    predicate Valid() {
      year >= 1 && 1 <= month <= 12
    }

    function Next(): YearMonth {
      if month + 1 > 12 then YearMonth(year + 1, 1) else YearMonth(year, month + 1)
    }
  }

  predicate IsLeap(year: nat) {
    year % 4 == 0 && (year % 100 != 0 || year % 400 == 0)
  }

  function DaysIn(m: YearMonth): (days: nat)
    ensures 28 <= days <= 31
  {
    if m.month == 2 then (if IsLeap(m.year) then 29 else 28)
    else if m.month in {4, 6, 9, 11} then 30
    else 31
  }

  /** The day number of the first of a month, adding up the months before it. */
  function FirstDay(m: YearMonth): nat
    requires m.Valid()
    decreases m.year, m.month
  {
    if m == YearMonth(1, 1) then 0
    else
      var before := if m.month == 1 then YearMonth(m.year - 1, 12) else YearMonth(m.year, m.month - 1);
      FirstDay(before) + DaysIn(before)
  }

  lemma NextFirstDay(m: YearMonth)
    requires m.Valid()
    ensures m.Next().Valid() && FirstDay(m.Next()) == FirstDay(m) + DaysIn(m)
  {
    hide DaysIn;
  }

  /** The month a day falls in, looking from month `m` on. */
  function MonthFrom(day: nat, m: YearMonth): (r: YearMonth)
    requires m.Valid() && FirstDay(m) <= day
    ensures r.Valid() && FirstDay(r) <= day < FirstDay(r) + DaysIn(r)
    decreases day - FirstDay(m)
  {
    NextFirstDay(m);
    if day < FirstDay(m) + DaysIn(m) then m else MonthFrom(day, m.Next())
  }

  function MonthOf(day: nat): (r: YearMonth)
    ensures r.Valid() && FirstDay(r) <= day < FirstDay(r) + DaysIn(r)
  {
    MonthFrom(day, YearMonth(1, 1))
  }

  predicate Before(a: YearMonth, b: YearMonth) {
    a.year < b.year || (a.year == b.year && a.month < b.month)
  }

  lemma {:induction false} EarlierMonthEnds(a: YearMonth, b: YearMonth)
    requires a.Valid() && b.Valid() && Before(a, b)
    ensures FirstDay(a) + DaysIn(a) <= FirstDay(b)
    decreases b.year, b.month
  {
    var previous := if b.month == 1 then YearMonth(b.year - 1, 12) else YearMonth(b.year, b.month - 1);
    if a != previous {
      EarlierMonthEnds(a, previous);
    }
  }

  /** The day number of the first of January, in closed form. */
  lemma {:induction false} YearStart(year: nat)
    requires year >= 1
    ensures FirstDay(YearMonth(year, 1)) == 365 * (year - 1) + (year - 1) / 4 - (year - 1) / 100 + (year - 1) / 400
    decreases year
  {
    hide IsLeap;
    if year > 1 {
      YearStart(year - 1);
      MonthStart(YearMonth(year - 1, 12));
      LeapDays(year - 1);
    }
  }

  lemma LeapDays(y: nat)
    requires y >= 1
    ensures var before := y - 1;
            y / 4 - y / 100 + y / 400 == before / 4 - before / 100 + before / 400 + if IsLeap(y) then 1 else 0
  {
    FourthYears(y);
    HundredthYears(y);
    FourHundredthYears(y);
  }

  lemma FourthYears(y: nat)
    requires y >= 1
    ensures y / 4 == (y - 1) / 4 + (if y % 4 == 0 then 1 else 0) && (y % 100 == 0 ==> y % 4 == 0)
  {
  }

  lemma HundredthYears(y: nat)
    requires y >= 1
    ensures y / 100 == (y - 1) / 100 + (if y % 100 == 0 then 1 else 0) && (y % 400 == 0 ==> y % 100 == 0)
  {
  }

  lemma FourHundredthYears(y: nat)
    requires y >= 1
    ensures y / 400 == (y - 1) / 400 + (if y % 400 == 0 then 1 else 0)
  {
  }

  /** How many days of a year lie before a month, in closed form. */
  function DaysBefore(m: YearMonth): int {
    (367 * m.month - 362) / 12 - if m.month <= 2 then 0 else if IsLeap(m.year) then 1 else 2
  }

  lemma NextDaysBefore(m: YearMonth)
    requires m.Valid() && m.month < 12
    ensures DaysBefore(YearMonth(m.year, m.month + 1)) == DaysBefore(m) + DaysIn(m)
  {
    if m.month <= 6 {
      if m.month <= 3 { assert m.month in {1, 2, 3}; } else { assert m.month in {4, 5, 6}; }
    } else {
      if m.month <= 9 { assert m.month in {7, 8, 9}; } else { assert m.month in {10, 11}; }
    }
  }

  lemma {:induction false} MonthStart(m: YearMonth)
    requires m.Valid()
    ensures FirstDay(m) == FirstDay(YearMonth(m.year, 1)) + DaysBefore(m)
    decreases m.month
  {
    if m.month > 1 {
      MonthStart(YearMonth(m.year, m.month - 1));
      NextDaysBefore(YearMonth(m.year, m.month - 1));
    }
  }

  /** A day lies in one month only. */
  lemma MonthIsUnique(day: nat, m: YearMonth)
    requires m.Valid() && FirstDay(m) <= day < FirstDay(m) + DaysIn(m)
    ensures MonthOf(day) == m
  {
    var r := MonthOf(day);
    if Before(r, m) {
      EarlierMonthEnds(r, m);
    } else if Before(m, r) {
      EarlierMonthEnds(m, r);
    }
  }

  // ---------------------------------------------------------------- buckets

  function BucketStart(value: Instant, bucket: Bucket): Instant {
    var day := value / DAY;
    match bucket
    case Monthly => FirstDay(MonthOf(day)) * DAY
    case Weekly => (day - day % 7) * DAY
    case Daily => day * DAY
    case Hourly => value - value % HOUR
  }

  /** A month on from the cursor is the first of the next month at the cursor's time of day. */
  function NextBucket(cursor: Instant, bucket: Bucket): Instant {
    match bucket
    case Hourly => cursor + HOUR
    case Daily => cursor + DAY
    case Weekly => cursor + 7 * DAY
    case Monthly => FirstDay(MonthOf(cursor / DAY).Next()) * DAY + cursor % DAY
  }

  lemma MonthStartIsFirst(m: YearMonth)
    requires m.Valid()
    ensures BucketStart(FirstDay(m) * DAY, Monthly) == FirstDay(m) * DAY
    ensures NextBucket(FirstDay(m) * DAY, Monthly) == FirstDay(m.Next()) * DAY
  {
    MonthIsUnique(FirstDay(m), m);
    assert FirstDay(m) * DAY / DAY == FirstDay(m);
  }

  /** The instant of a date and a time of day. */
  function At(m: YearMonth, day: nat, hour: nat, minute: nat, second: nat, micro: nat): Instant
    requires m.Valid() && day >= 1
  {
    (((FirstDay(m) + day - 1) * 24 + hour) * 60 + minute) * 60_000_000 + second * 1_000_000 + micro
  }

  predicate IsTime(m: YearMonth, day: nat, hour: nat, minute: nat, second: nat, micro: nat) {
    m.Valid() && 1 <= day <= DaysIn(m) && hour < 24 && minute < 60 && second < 60 && micro < 1_000_000
  }

  /** The bucket of a date and time: its parts below the hour, the day or the month set to their
      first values, or the midnight of the Monday on or before it. */
  lemma BucketsTruncate(m: YearMonth, day: nat, hour: nat, minute: nat, second: nat, micro: nat)
    requires IsTime(m, day, hour, minute, second, micro)
    ensures var t, midnight := At(m, day, hour, minute, second, micro), At(m, day, 0, 0, 0, 0);
            && BucketStart(t, Hourly) == At(m, day, hour, 0, 0, 0)
            && BucketStart(t, Daily) == midnight
            && BucketStart(t, Monthly) == At(m, 1, 0, 0, 0, 0)
            && BucketStart(t, Weekly) == midnight - (FirstDay(m) + day - 1) % 7 * DAY
    ensures NextBucket(At(m, 1, 0, 0, 0, 0), Monthly) == At(m.Next(), 1, 0, 0, 0, 0)
  {
    hide FirstDay, DaysIn, MonthOf, IsLeap;
    var d := FirstDay(m) + day - 1;
    TimeOfDay(d, hour, minute, second, micro);
    MonthIsUnique(d, m);
    MonthStartIsFirst(m);
    StartOfDay(d);
  }

  lemma TimeOfDay(d: nat, hour: nat, minute: nat, second: nat, micro: nat)
    requires hour < 24 && minute < 60 && second < 60 && micro < 1_000_000
    ensures var t := ((d * 24 + hour) * 60 + minute) * 60_000_000 + second * 1_000_000 + micro;
            t / DAY == d && t - t % HOUR == (d * 24 + hour) * 60 * 60_000_000
  {
    var rest := minute * 60_000_000 + second * 1_000_000 + micro;
    WholePart(d * 24 + hour, rest);
    WholeDays(d, hour * HOUR + rest);
  }

  lemma WholePart(hours: nat, rest: nat)
    requires rest < HOUR
    ensures hours * HOUR + rest - (hours * HOUR + rest) % HOUR == hours * HOUR
  {
  }

  lemma WholeDays(days: nat, rest: nat)
    requires rest < DAY
    ensures (days * DAY + rest) / DAY == days
  {
  }

  /** The first day of the calendar is a Monday, as is 1 January 2024. */
  lemma MondaysAreMultiples()
    ensures FirstDay(YearMonth(1, 1)) == 0 && FirstDay(YearMonth(2024, 1)) % 7 == 0
  {
    hide FirstDay;
    YearStart(1);
    YearStart(2024);
  }

  lemma DayBounds(value: Instant, first: nat, days: nat)
    ensures first * DAY <= value < (first + days) * DAY <==> first <= value / DAY < first + days
  {
  }

  /** Buckets are half-open intervals from one start to the next. */
  lemma BucketSpans(value: Instant, bucket: Bucket)
    ensures var start := BucketStart(value, bucket);
            start <= value < NextBucket(start, bucket) && BucketStart(start, bucket) == start
  {
    hide MonthOf, FirstDay, DaysIn, IsLeap;
    match bucket
    case Monthly => MonthSpans(value);
    case Weekly =>
      StartOfDay(value / DAY - value / DAY % 7);
      DayBounds(value, value / DAY - value / DAY % 7, 7);
    case Daily => StartOfDay(value / DAY);
    case Hourly => HourSpans(value);
  }

  lemma HourSpans(value: Instant)
    ensures var start := value - value % HOUR; start <= value < start + HOUR && start % HOUR == 0
  {
  }

  lemma MonthSpans(value: Instant)
    ensures var start := BucketStart(value, Monthly);
            start <= value < NextBucket(start, Monthly) && BucketStart(start, Monthly) == start
  {
    hide FirstDay, DaysIn;
    var m := MonthOf(value / DAY);
    DayBounds(value, FirstDay(m), DaysIn(m));
    MonthStartIsFirst(m);
    NextFirstDay(m);
  }

  lemma BucketIsUnique(value: Instant, start: Instant, bucket: Bucket)
    requires BucketStart(start, bucket) == start && start <= value < NextBucket(start, bucket)
    ensures BucketStart(value, bucket) == start
  {
    hide BucketStart, FirstDay, MonthOf;
    match bucket
    case Monthly => MonthIsOnlyBucket(value, start);
    case Weekly => WeekIsOnlyBucket(value, start);
    case Daily => DayIsOnlyBucket(value, start);
    case Hourly => HourIsOnlyBucket(value, start);
  }

  lemma MonthIsOnlyBucket(value: Instant, start: Instant)
    requires BucketStart(start, Monthly) == start && start <= value < NextBucket(start, Monthly)
    ensures BucketStart(value, Monthly) == start
  {
    hide FirstDay, DaysIn;
    var m := MonthOf(start / DAY);
    MonthStartIsFirst(m);
    NextFirstDay(m);
    DayBounds(value, FirstDay(m), DaysIn(m));
    MonthIsUnique(value / DAY, m);
  }

  lemma StartOfDay(first: nat)
    ensures first * DAY / DAY == first && first * DAY % DAY == 0
  {
  }

  lemma WeekIsOnlyBucket(value: Instant, start: Instant)
    requires BucketStart(start, Weekly) == start && start <= value < start + 7 * DAY
    ensures BucketStart(value, Weekly) == start
  {
    var first := start / DAY - start / DAY % 7;
    StartOfDay(first);
    assert start == first * DAY;
    DayBounds(value, first, 7);
  }

  lemma NextWeekIsAStart(start: Instant)
    requires BucketStart(start, Weekly) == start
    ensures BucketStart(start + 7 * DAY, Weekly) == start + 7 * DAY
  {
    var first := start / DAY - start / DAY % 7;
    StartOfDay(first);
    StartOfDay(first + 7);
    assert start + 7 * DAY == (first + 7) * DAY;
  }

  lemma DayIsOnlyBucket(value: Instant, start: Instant)
    requires BucketStart(start, Daily) == start && start <= value < start + DAY
    ensures BucketStart(value, Daily) == start
  {
    DayBounds(value, start / DAY, 1);
  }

  lemma NextDayIsAStart(start: Instant)
    requires BucketStart(start, Daily) == start
    ensures BucketStart(start + DAY, Daily) == start + DAY
  {
    StartOfDay(start / DAY + 1);
  }

  lemma NextHourIsAStart(start: Instant)
    requires BucketStart(start, Hourly) == start
    ensures BucketStart(start + HOUR, Hourly) == start + HOUR
  {
  }

  lemma HourIsOnlyBucket(value: Instant, start: Instant)
    requires BucketStart(start, Hourly) == start && start <= value < start + HOUR
    ensures BucketStart(value, Hourly) == start
  {
  }

  lemma NextIsAStart(start: Instant, bucket: Bucket)
    requires BucketStart(start, bucket) == start
    ensures start < NextBucket(start, bucket)
    ensures BucketStart(NextBucket(start, bucket), bucket) == NextBucket(start, bucket)
  {
    hide BucketStart, FirstDay, MonthOf;
    match bucket
    case Monthly => NextMonthIsAStart(start);
    case Weekly => NextWeekIsAStart(start);
    case Daily => NextDayIsAStart(start);
    case Hourly => NextHourIsAStart(start);
  }

  lemma NextMonthIsAStart(start: Instant)
    requires BucketStart(start, Monthly) == start
    ensures start < NextBucket(start, Monthly)
    ensures BucketStart(NextBucket(start, Monthly), Monthly) == NextBucket(start, Monthly)
  {
    hide FirstDay, DaysIn;
    var m := MonthOf(start / DAY);
    MonthStartIsFirst(m);
    NextFirstDay(m);
    MonthStartIsFirst(m.Next());
  }

  // ---------------------------------------------------------------- the list of buckets

  predicate Ascending(buckets: seq<Instant>) {
    forall i, j | 0 <= i < j < |buckets| :: buckets[i] < buckets[j]
  }

  /** The starts from the bucket of `start` to `end`, in order and without a gap. */
  ghost predicate Covers(buckets: seq<Instant>, start: Instant, end: Instant, bucket: Bucket) {
    && Ascending(buckets)
    && forall x: Instant :: x in buckets <==> BucketStart(x, bucket) == x && BucketStart(start, bucket) <= x <= end
  }

  lemma AscendingAppend(buckets: seq<Instant>, x: Instant)
    requires Ascending(buckets) && forall y | y in buckets :: y < x
    ensures Ascending(buckets + [x])
  {
    var longer := buckets + [x];
    forall i, j | 0 <= i < j < |longer| ensures longer[i] < longer[j] {
      if j == |buckets| { assert buckets[i] in buckets; }
    }
  }

  method BuildBuckets(start: Instant, end: Instant, bucket: Bucket) returns (buckets: seq<Instant>)
    ensures Covers(buckets, start, end, bucket)
  {
    hide BucketStart, NextBucket;
    var first := BucketStart(start, bucket);
    var cursor := first;
    buckets := [];
    BucketSpans(start, bucket);
    while cursor <= end
      invariant BucketStart(cursor, bucket) == cursor && first <= cursor
      invariant Ascending(buckets) && forall x | x in buckets :: x < cursor
      invariant forall x: Instant :: x in buckets <==> BucketStart(x, bucket) == x && first <= x < cursor && x <= end
      decreases end + 1 - cursor
    {
      NextIsAStart(cursor, bucket);
      forall x: Instant | BucketStart(x, bucket) == x && cursor <= x < NextBucket(cursor, bucket) ensures x == cursor {
        BucketIsUnique(x, cursor, bucket);
      }
      AscendingAppend(buckets, cursor);
      buckets := buckets + [cursor];
      cursor := NextBucket(cursor, bucket);
    }
  }

  /** Every instant of the range has its bucket in the list, once; every listed bucket is
      the bucket of some instant of the range. */
  lemma BucketsAreThoseOfTheRange(buckets: seq<Instant>, start: Instant, end: Instant, bucket: Bucket, x: Instant)
    requires Covers(buckets, start, end, bucket) && start <= end
    ensures x in buckets <==> exists t: Instant :: start <= t <= end && BucketStart(t, bucket) == x
  {
    hide BucketStart, NextBucket;
    BucketSpans(start, bucket);
    if x in buckets {
      var t := if x < start then start else x;
      if x < start {
        if BucketStart(start, bucket) < x {
          BucketSpans(x, bucket);
          BucketIsUnique(x, BucketStart(start, bucket), bucket);
        }
      }
      assert start <= t <= end && BucketStart(t, bucket) == x;
    }
    if t: Instant :| start <= t <= end && BucketStart(t, bucket) == x {
      BucketSpans(t, bucket);
      LaterBucket(start, t, bucket);
    }
  }

  lemma LaterBucket(s: Instant, t: Instant, bucket: Bucket)
    requires s <= t
    ensures BucketStart(s, bucket) <= BucketStart(t, bucket)
  {
    hide BucketStart, NextBucket;
    BucketSpans(s, bucket);
    BucketSpans(t, bucket);
    if BucketStart(t, bucket) < BucketStart(s, bucket) {
      BucketIsUnique(BucketStart(s, bucket), BucketStart(t, bucket), bucket);
    }
  }

  // ---------------------------------------------------------------- series

  /** The number of events in each bucket, as the grouped query returns them. */
  function Grouped(events: seq<Instant>, bucket: Bucket): map<Instant, nat> {
    map t | t in events :: BucketStart(t, bucket) := CountIn(events, bucket, BucketStart(t, bucket))
  }

  function CountIn(events: seq<Instant>, bucket: Bucket, start: Instant): nat {
    if events == [] then 0
    else (if BucketStart(events[0], bucket) == start then 1 else 0) + CountIn(events[1..], bucket, start)
  }

  function SeriesFromMapping(buckets: seq<Instant>, mapping: map<Instant, nat>): seq<nat> {
    seq(|buckets|, i requires 0 <= i < |buckets| => if buckets[i] in mapping then mapping[buckets[i]] else 0)
  }

  function Sum(values: seq<nat>): nat {
    if values == [] then 0 else values[0] + Sum(values[1..])
  }

  function Counts(buckets: seq<Instant>, events: seq<Instant>, bucket: Bucket): seq<nat> {
    seq(|buckets|, i requires 0 <= i < |buckets| => CountIn(events, bucket, buckets[i]))
  }

  lemma {:induction false} CountInOther(events: seq<Instant>, bucket: Bucket, start: Instant)
    requires forall t | t in events :: BucketStart(t, bucket) != start
    ensures CountIn(events, bucket, start) == 0
  {
    hide BucketStart;
    if events != [] {
      CountInOther(events[1..], bucket, start);
    }
  }

  lemma SeriesIsCounts(buckets: seq<Instant>, events: seq<Instant>, bucket: Bucket)
    ensures SeriesFromMapping(buckets, Grouped(events, bucket)) == Counts(buckets, events, bucket)
  {
    hide BucketStart;
    var mapping := Grouped(events, bucket);
    forall i | 0 <= i < |buckets|
      ensures (if buckets[i] in mapping then mapping[buckets[i]] else 0) == CountIn(events, bucket, buckets[i])
    {
      if buckets[i] !in mapping {
        forall t | t in events ensures BucketStart(t, bucket) != buckets[i] {
          assert BucketStart(t, bucket) in mapping;
        }
        CountInOther(events, bucket, buckets[i]);
      }
    }
  }

  lemma {:induction false} SumOfZeros(values: seq<nat>)
    requires forall i | 0 <= i < |values| :: values[i] == 0
    ensures Sum(values) == 0
  {
    if values != [] {
      SumOfZeros(values[1..]);
    }
  }

  lemma {:induction false} SumBump(values: seq<nat>, k: nat)
    requires k < |values|
    ensures Sum(values[k := values[k] + 1]) == Sum(values) + 1
  {
    var bumped := values[k := values[k] + 1];
    if k > 0 {
      SumBump(values[1..], k - 1);
      assert bumped[1..] == values[1..][k - 1 := values[1..][k - 1] + 1];
    } else {
      assert bumped[1..] == values[1..];
    }
  }

  lemma {:induction false} CountsSumToAll(buckets: seq<Instant>, events: seq<Instant>, bucket: Bucket)
    requires Ascending(buckets) && forall t | t in events :: BucketStart(t, bucket) in buckets
    ensures Sum(Counts(buckets, events, bucket)) == |events|
    decreases |events|
  {
    hide BucketStart;
    if events == [] {
      SumOfZeros(Counts(buckets, events, bucket));
    } else {
      var rest := Counts(buckets, events[1..], bucket);
      CountsSumToAll(buckets, events[1..], bucket);
      assert events[0] in events;
      var k :| 0 <= k < |buckets| && buckets[k] == BucketStart(events[0], bucket);
      SumBump(rest, k);
      assert Counts(buckets, events, bucket) == rest[k := rest[k] + 1];
    }
  }

  /** No event of the range is lost or counted twice: the points add up to all of them. */
  lemma SeriesLosesNothing(buckets: seq<Instant>, start: Instant, end: Instant, bucket: Bucket, events: seq<Instant>)
    requires Covers(buckets, start, end, bucket)
    requires forall t | t in events :: start <= t <= end
    ensures Sum(SeriesFromMapping(buckets, Grouped(events, bucket))) == |events|
  {
    hide BucketStart, NextBucket;
    forall t | t in events ensures BucketStart(t, bucket) in buckets {
      BucketSpans(t, bucket);
      LaterBucket(start, t, bucket);
    }
    SeriesIsCounts(buckets, events, bucket);
    CountsSumToAll(buckets, events, bucket);
  }
}
