/** Aggregates kept incrementally, against the same aggregates computed from the
    list of metrics. Times are nanoseconds of UTC since Go's zero time. */
module Metrics {
  import opened Values

  datatype MetricType = Request | DatabaseOp | Hook | Failure

  /** A recorded metric; `event` is the metadata entry `event_full` if a string. */
  datatype Metric = Metric(kind: MetricType, collection: string, stamp: int, duration: real,
                           status: int, error: string, event: Option<string>)

  datatype Aggregate = Aggregate(start: int, count: int, avg: real, min: real, max: real,
                                 errors: int, rate: real, requests: int, databaseOps: int, hookCalls: int)

  const HOUR: int := 3_600_000_000_000
  const DAY: int := 24 * HOUR

  // ---- Batch computation

  predicate IsError(m: Metric) {
    match m.kind
    case Request => m.status >= 400
    case DatabaseOp => m.error != ""
    case Hook => m.error != ""
    case Failure => true
  }

  function Total(ms: seq<Metric>): real {
    if ms == [] then 0.0 else Total(ms[..|ms| - 1]) + ms[|ms| - 1].duration
  }

  function Errors(ms: seq<Metric>): int {
    if ms == [] then 0 else Errors(ms[..|ms| - 1]) + if IsError(ms[|ms| - 1]) then 1 else 0
  }

  function OfKind(ms: seq<Metric>, kind: MetricType): int {
    if ms == [] then 0 else OfKind(ms[..|ms| - 1], kind) + if ms[|ms| - 1].kind == kind then 1 else 0
  }

  predicate Least(x: real, ms: seq<Metric>) {
    && (exists i | 0 <= i < |ms| :: ms[i].duration == x)
    && (forall i | 0 <= i < |ms| :: x <= ms[i].duration)
  }

  predicate Greatest(x: real, ms: seq<Metric>) {
    && (exists i | 0 <= i < |ms| :: ms[i].duration == x)
    && (forall i | 0 <= i < |ms| :: ms[i].duration <= x)
  }

  /** The aggregate of these metrics, computed from all of them at once. */
  predicate Summarizes(a: Aggregate, ms: seq<Metric>) {
    && ms != [] && a.count == |ms|
    && a.avg == Total(ms) / |ms| as real
    && Least(a.min, ms) && Greatest(a.max, ms)
    && a.errors == Errors(ms)
    && a.rate == Errors(ms) as real / |ms| as real * 100.0
    && a.requests == OfKind(ms, Request) && a.databaseOps == OfKind(ms, DatabaseOp) && a.hookCalls == OfKind(ms, Hook)
  }

  lemma {:induction false} TotalAdds(ms: seq<Metric>, more: seq<Metric>)
    ensures Total(ms + more) == Total(ms) + Total(more)
    ensures forall m :: Total([m]) == m.duration
    decreases more
  {
    assert forall m: Metric :: [m][..0] == [] && [m][0] == m;
    if more == [] {
      assert ms + more == ms;
    } else {
      assert (ms + more)[..|ms + more| - 1] == ms + more[..|more| - 1];
      TotalAdds(ms, more[..|more| - 1]);
    }
  }

  lemma {:induction false} OneMore(before: set<nat>, after: set<nat>, n: nat, yes: bool)
    requires n !in before && forall i :: i in after <==> i in before || (yes && i == n)
    ensures |after| == |before| + if yes then 1 else 0
  {
    assert after == if yes then before + {n} else before;
  }

  /** The metrics that count as errors: requests answered with 400 or more, database
      operations and hooks with a message, and failures. */
  lemma {:induction false} ErrorsCounted(ms: seq<Metric>)
    ensures Errors(ms) ==
            |set i: nat | i < |ms| &&
               ((ms[i].kind.Request? && ms[i].status >= 400) || ms[i].kind.Failure? ||
                ((ms[i].kind.DatabaseOp? || ms[i].kind.Hook?) && ms[i].error != ""))|
    decreases ms
  {
    if ms != [] {
      var n := |ms| - 1;
      var init := ms[..n];
      ErrorsCounted(init);
      var before := set i: nat | i < n &&
        ((init[i].kind.Request? && init[i].status >= 400) || init[i].kind.Failure? ||
         ((init[i].kind.DatabaseOp? || init[i].kind.Hook?) && init[i].error != ""));
      var after := set i: nat | i < |ms| &&
        ((ms[i].kind.Request? && ms[i].status >= 400) || ms[i].kind.Failure? ||
         ((ms[i].kind.DatabaseOp? || ms[i].kind.Hook?) && ms[i].error != ""));
      OneMore(before, after, n, IsError(ms[n]));
    }
  }

  lemma {:induction false} KindsCounted(ms: seq<Metric>, kind: MetricType)
    ensures OfKind(ms, kind) == |set i: nat | i < |ms| && ms[i].kind == kind|
    decreases ms
  {
    if ms != [] {
      var n := |ms| - 1;
      var init := ms[..n];
      KindsCounted(init, kind);
      var before, after := set i: nat | i < n && init[i].kind == kind, set i: nat | i < |ms| && ms[i].kind == kind;
      OneMore(before, after, n, ms[n].kind == kind);
    }
  }

  // ---- One metric more

  function Fresh(start: int, m: Metric): Aggregate {
    Aggregate(start, 0, 0.0, m.duration, m.duration, 0, 0.0, 0, 0, 0)
  }

  /** updateAggregatedMetric on the bucket's aggregate, statement by statement. */
  method Accumulate(previous: Aggregate, m: Metric) returns (a: Aggregate)
    requires previous.count >= 0
    ensures a == Accumulated(previous, m)
  {
    a := previous.(count := previous.count + 1);
    if a.count == 1 {
      a := a.(avg := m.duration);
    } else {
      a := a.(avg := (a.avg * (a.count - 1) as real + m.duration) / a.count as real);
    }
    if m.duration < a.min {
      a := a.(min := m.duration);
    }
    if m.duration > a.max {
      a := a.(max := m.duration);
    }
    match m.kind {
      case Request =>
        a := a.(requests := a.requests + 1);
        if m.status >= 400 {
          a := a.(errors := a.errors + 1);
        }
      case DatabaseOp =>
        a := a.(databaseOps := a.databaseOps + 1);
        if m.error != "" {
          a := a.(errors := a.errors + 1);
        }
      case Hook =>
        a := a.(hookCalls := a.hookCalls + 1);
        if m.error != "" {
          a := a.(errors := a.errors + 1);
        }
      case Failure =>
        a := a.(errors := a.errors + 1);
    }
    a := a.(rate := a.errors as real / a.count as real * 100.0);
  }

  function Accumulated(a: Aggregate, m: Metric): Aggregate
    requires a.count >= 0
  {
    var n := a.count + 1;
    var errors := a.errors + if IsError(m) then 1 else 0;
    Aggregate(
      a.start, n,
      if n == 1 then m.duration else (a.avg * (n - 1) as real + m.duration) / n as real,
      if m.duration < a.min then m.duration else a.min,
      if m.duration > a.max then m.duration else a.max,
      errors,
      errors as real / n as real * 100.0,
      a.requests + if m.kind.Request? then 1 else 0,
      a.databaseOps + if m.kind.DatabaseOp? then 1 else 0,
      a.hookCalls + if m.kind.Hook? then 1 else 0)
  }

  lemma {:induction false} AverageStep(sum: real, n: int, x: real)
    requires n > 0
    ensures (sum / n as real * n as real + x) / (n + 1) as real == (sum + x) / (n + 1) as real
  {
    assert sum / n as real * n as real == sum;
  }

  lemma {:induction false} SumsStep(ms: seq<Metric>, m: Metric)
    ensures Total(ms + [m]) == Total(ms) + m.duration
    ensures Errors(ms + [m]) == Errors(ms) + if IsError(m) then 1 else 0
    ensures forall kind :: OfKind(ms + [m], kind) == OfKind(ms, kind) + if m.kind == kind then 1 else 0
  {
    assert (ms + [m])[..|ms|] == ms;
  }

  lemma {:induction false} LeastStep(x: real, ms: seq<Metric>, m: Metric)
    requires Least(x, ms)
    ensures Least(if m.duration < x then m.duration else x, ms + [m])
  {
    var i :| 0 <= i < |ms| && ms[i].duration == x;
    assert (ms + [m])[i] == ms[i] && (ms + [m])[|ms|] == m;
  }

  lemma {:induction false} GreatestStep(x: real, ms: seq<Metric>, m: Metric)
    requires Greatest(x, ms)
    ensures Greatest(if m.duration > x then m.duration else x, ms + [m])
  {
    var i :| 0 <= i < |ms| && ms[i].duration == x;
    assert (ms + [m])[i] == ms[i] && (ms + [m])[|ms|] == m;
  }

  /** The incremental step is right: one more metric in the list, one more in the summary. */
  lemma {:induction false} StepSummarizes(a: Aggregate, ms: seq<Metric>, m: Metric)
    requires Summarizes(a, ms)
    ensures Summarizes(Accumulated(a, m), ms + [m])
  {
    hide Total, Errors, OfKind, Least, Greatest, IsError;
    SumsStep(ms, m);
    AverageStep(Total(ms), |ms|, m.duration);
    LeastStep(a.min, ms, m);
    GreatestStep(a.max, ms, m);
  }

  lemma {:induction false} FirstSummarizes(start: int, m: Metric)
    ensures Summarizes(Accumulated(Fresh(start, m), m), [m])
  {
    assert [m][..0] == [] && [m][0] == m;
  }

  // ---- Buckets

  /** A granularity: the start of a time's bucket, and the starts that are too old. */
  datatype Level = Level(start: int -> int, cutoff: int -> int)

  type Key = (string, int)

  ghost predicate IsLevel(level: Level) {
    && (forall t :: level.start(t) <= t && level.cutoff(t) < level.start(t))
    && (forall s, t | s <= t :: level.start(s) <= level.start(t))
  }

  function Truncate(t: int, unit: int): int
    requires unit > 0
  {
    t - t % unit
  }

  function Hourly(): Level {
    Level(t => Truncate(t, HOUR), t => t - 7 * DAY)
  }

  function Daily(cutoff: int -> int): Level {
    Level(t => Truncate(t, DAY), cutoff)
  }

  /** An hour has 3,600 seconds, and hours are kept for seven days. */
  lemma {:induction false} HourTimes(t: int)
    ensures var start := Hourly().start(t);
      start % 3_600_000_000_000 == 0 && start <= t < start + 3_600_000_000_000
    ensures Hourly().cutoff(t) == t - 7 * 86_400_000_000_000
  {
  }

  lemma {:induction false} DayTimes(cutoff: int -> int, t: int)
    ensures var start := Daily(cutoff).start(t);
      start % 86_400_000_000_000 == 0 && start <= t < start + 86_400_000_000_000
    ensures Daily(cutoff).cutoff(t) == cutoff(t)
  {
  }

  lemma {:induction false} TruncateMonotone(s: int, t: int)
    requires s <= t
    ensures Truncate(s, HOUR) <= Truncate(t, HOUR) && Truncate(s, DAY) <= Truncate(t, DAY)
  {
  }

  lemma {:induction false} HourlyIsLevel()
    ensures IsLevel(Hourly())
  {
    forall s, t | s <= t
      ensures Truncate(s, HOUR) <= Truncate(t, HOUR)
    {
      TruncateMonotone(s, t);
    }
  }

  function KeyOf(level: Level, m: Metric): Key {
    (m.collection, level.start(m.stamp))
  }

  function InBucket(level: Level, log: seq<Metric>, k: Key): seq<Metric> {
    if log == [] then []
    else
      var m := log[|log| - 1];
      InBucket(level, log[..|log| - 1], k) + if KeyOf(level, m) == k then [m] else []
  }

  lemma {:induction false} InBucketStep(level: Level, log: seq<Metric>, m: Metric, k: Key)
    ensures InBucket(level, log + [m], k) ==
            if KeyOf(level, m) == k then InBucket(level, log, k) + [m] else InBucket(level, log, k)
  {
    assert (log + [m])[..|log|] == log;
  }

  /** Every retained bucket summarizes all of its metrics, and a bucket that has
      metrics but was dropped starts too early to be filled again. */
  ghost predicate Summarized(level: Level, aggs: map<Key, Aggregate>, log: seq<Metric>, seen: int) {
    && (forall k | k in aggs :: Summarizes(aggs[k], InBucket(level, log, k)) && aggs[k].start == k.1)
    && (forall k | k !in aggs && InBucket(level, log, k) != [] :: k.1 < level.start(seen))
  }

  function Add(level: Level, aggs: map<Key, Aggregate>, m: Metric): map<Key, Aggregate>
    requires forall k | k in aggs :: aggs[k].count >= 0
  {
    var k := KeyOf(level, m);
    aggs[k := Accumulated(if k in aggs then aggs[k] else Fresh(k.1, m), m)]
  }

  lemma {:induction false} AddSummarized(level: Level, aggs: map<Key, Aggregate>, log: seq<Metric>, seen: int,
                                         m: Metric)
    requires IsLevel(level) && Summarized(level, aggs, log, seen) && seen <= m.stamp
    ensures Summarized(level, Add(level, aggs, m), log + [m], m.stamp)
  {
    hide Summarizes;
    var key := KeyOf(level, m);
    assert forall k | k in aggs :: aggs[k].count >= 0 by {
      CountsPositive(level, aggs, log, seen);
    }
    var after := Add(level, aggs, m);
    forall k
      ensures k in after ==> Summarizes(after[k], InBucket(level, log + [m], k)) && after[k].start == k.1
      ensures k !in after && InBucket(level, log + [m], k) != [] ==> k.1 < level.start(m.stamp)
    {
      InBucketStep(level, log, m, k);
      if k == key {
        if k in aggs {
          StepSummarizes(aggs[k], InBucket(level, log, k), m);
        } else {
          assert InBucket(level, log, k) == [];
          FirstSummarizes(k.1, m);
          assert InBucket(level, log + [m], k) == [m];
        }
      }
    }
  }

  lemma {:induction false} CountsPositive(level: Level, aggs: map<Key, Aggregate>, log: seq<Metric>, seen: int)
    requires Summarized(level, aggs, log, seen)
    ensures forall k | k in aggs :: aggs[k].count >= 0
  {
  }

  /** Dropping buckets that start before a cutoff, at a later time. */
  lemma {:induction false} DropSummarized(level: Level, aggs: map<Key, Aggregate>, kept: map<Key, Aggregate>,
                                          log: seq<Metric>, seen: int, now: int)
    requires IsLevel(level) && Summarized(level, aggs, log, seen) && seen <= now
    requires kept.Keys <= aggs.Keys && forall k | k in kept :: kept[k] == aggs[k]
    requires forall k | k in aggs && k !in kept :: aggs[k].start <= level.cutoff(now)
    ensures Summarized(level, kept, log, now)
  {
    hide Summarizes;
  }

  // ---- Hours and days

  function HourCount(aggs: map<Key, Aggregate>, k: Key): int {
    if k in aggs then aggs[k].count else 0
  }

  /** The sum of the counts of a day's first `n` hours that are retained. */
  function HoursOf(aggs: map<Key, Aggregate>, collection: string, day: int, n: nat): int {
    if n == 0 then 0 else HoursOf(aggs, collection, day, n - 1) + HourCount(aggs, (collection, day + (n - 1) * HOUR))
  }

  function LoggedHours(log: seq<Metric>, collection: string, day: int, n: nat): int {
    if n == 0 then 0
    else LoggedHours(log, collection, day, n - 1) + |InBucket(Hourly(), log, (collection, day + (n - 1) * HOUR))|
  }

  lemma {:induction false} HourOfDay(t: int, day: int)
    ensures Truncate(t, DAY) == day <==>
            day % DAY == 0 && exists i | 0 <= i < 24 :: Truncate(t, HOUR) == day + i * HOUR
  {
    var i := (t - day) / HOUR;
    if Truncate(t, DAY) == day {
      assert Truncate(t, HOUR) == day + i * HOUR;
    }
  }

  lemma {:induction false} LoggedHoursStep(log: seq<Metric>, m: Metric, collection: string, day: int, n: nat)
    requires day % DAY == 0 && n <= 24
    ensures LoggedHours(log + [m], collection, day, n) ==
            LoggedHours(log, collection, day, n) +
            if m.collection == collection && exists i | 0 <= i < n :: Truncate(m.stamp, HOUR) == day + i * HOUR
            then 1 else 0
    decreases n
  {
    if n > 0 {
      LoggedHoursStep(log, m, collection, day, n - 1);
      InBucketStep(Hourly(), log, m, (collection, day + (n - 1) * HOUR));
      assert KeyOf(Hourly(), m) == (m.collection, Truncate(m.stamp, HOUR));
    }
  }

  /** Each metric of a day is in exactly one of its hours. */
  lemma {:induction false} DayIsItsHours(log: seq<Metric>, cutoff: int -> int, collection: string, day: int)
    requires day % DAY == 0
    ensures |InBucket(Daily(cutoff), log, (collection, day))| == LoggedHours(log, collection, day, 24)
    decreases log
  {
    if log == [] {
      NoHours(collection, day, 24);
    } else {
      var init, m := log[..|log| - 1], log[|log| - 1];
      DayIsItsHours(init, cutoff, collection, day);
      assert log == init + [m];
      LoggedHoursStep(init, m, collection, day, 24);
      HourOfDay(m.stamp, day);
    }
  }

  lemma {:induction false} NoHours(collection: string, day: int, n: nat)
    ensures LoggedHours([], collection, day, n) == 0
    decreases n
  {
    if n > 0 {
      NoHours(collection, day, n - 1);
    }
  }

  /** No hour of the day that has metrics was dropped. */
  ghost predicate AllHoursKept(hourly: map<Key, Aggregate>, log: seq<Metric>, collection: string, day: int, n: nat) {
    forall i | 0 <= i < n ::
      var k := (collection, day + i * HOUR);
      InBucket(Hourly(), log, k) != [] ==> k in hourly
  }

  lemma {:induction false} RetainedHours(hourly: map<Key, Aggregate>, log: seq<Metric>, seen: int, collection: string,
                                         day: int, n: nat)
    requires Summarized(Hourly(), hourly, log, seen)
    ensures HoursOf(hourly, collection, day, n) <= LoggedHours(log, collection, day, n)
    ensures HoursOf(hourly, collection, day, n) == LoggedHours(log, collection, day, n)
            <==> AllHoursKept(hourly, log, collection, day, n)
    decreases n
  {
    hide Least, Greatest, Total, Errors, OfKind, InBucket;
    if n > 0 {
      RetainedHours(hourly, log, seen, collection, day, n - 1);
      var k := (collection, day + (n - 1) * HOUR);
      assert HourCount(hourly, k) == if k in hourly then |InBucket(Hourly(), log, k)| else 0;
      assert AllHoursKept(hourly, log, collection, day, n) <==>
        AllHoursKept(hourly, log, collection, day, n - 1) && (InBucket(Hourly(), log, k) != [] ==> k in hourly);
    }
  }

  /** A retained day counts exactly what its hours count, until one of them is dropped. */
  lemma {:induction false} DayCountsItsHours(hourly: map<Key, Aggregate>, daily: map<Key, Aggregate>,
                                             cutoff: int -> int, log: seq<Metric>, seen: int, collection: string,
                                             day: int)
    requires Summarized(Hourly(), hourly, log, seen) && Summarized(Daily(cutoff), daily, log, seen)
    requires (collection, day) in daily && day % DAY == 0
    ensures daily[(collection, day)].count == HoursOf(hourly, collection, day, 24)
            <==> AllHoursKept(hourly, log, collection, day, 24)
  {
    DayIsItsHours(log, cutoff, collection, day);
    RetainedHours(hourly, log, seen, collection, day, 24);
  }
}
