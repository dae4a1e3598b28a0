/** The metrics collector: recording, the cleanup after each record, saving and
    loading, over a clock that does not go back. */
module Collector {
  import opened Values
  import opened Metrics

  /** Calendar arithmetic: the first of a time's month, six and twelve months back. */
  datatype Calendar = Calendar(month: int -> int, sixMonthsBack: int -> int, yearBack: int -> int) {
    function Monthly(): Level {
      Level(month, yearBack)
    }
  }

  type Buckets = map<Key, Aggregate>

  /** All that the collector holds, and all that it writes to disk. */
  datatype Data = Data(detailed: seq<Metric>, hourly: Buckets, daily: Buckets, monthly: Buckets,
                       events: map<string, seq<Metric>>)

  const EMPTY: Data := Data([], map[], map[], map[], map[])

  // ---- The detailed metrics and their index by event

  function Newer(ms: seq<Metric>, cutoff: int): seq<Metric> {
    if ms == [] then []
    else
      var m := ms[|ms| - 1];
      if m.stamp > cutoff then Newer(ms[..|ms| - 1], cutoff) + [m] else Newer(ms[..|ms| - 1], cutoff)
  }

  predicate IsEvent(m: Metric, e: string) {
    m.kind.Hook? && m.event == Some(e)
  }

  function OfEvent(ms: seq<Metric>, e: string): seq<Metric> {
    if ms == [] then []
    else
      var m := ms[|ms| - 1];
      if IsEvent(m, e) then OfEvent(ms[..|ms| - 1], e) + [m] else OfEvent(ms[..|ms| - 1], e)
  }

  lemma {:induction false} NewerStep(ms: seq<Metric>, m: Metric, cutoff: int)
    ensures Newer(ms + [m], cutoff) == if m.stamp > cutoff then Newer(ms, cutoff) + [m] else Newer(ms, cutoff)
  {
    assert (ms + [m])[..|ms|] == ms;
  }

  /** Each metric as often as it was there, if it is newer than the cutoff. */
  lemma {:induction false} NewerCounts(ms: seq<Metric>, cutoff: int, m: Metric)
    ensures multiset(Newer(ms, cutoff))[m] == if m.stamp > cutoff then multiset(ms)[m] else 0
    ensures m in Newer(ms, cutoff) <==> m in ms && m.stamp > cutoff
    decreases ms
  {
    if ms != [] {
      var init, last := ms[..|ms| - 1], ms[|ms| - 1];
      NewerCounts(init, cutoff, m);
      assert ms == init + [last];
    }
  }

  lemma {:induction false} OfEventHas(ms: seq<Metric>, e: string, m: Metric)
    ensures m in OfEvent(ms, e) <==> m in ms && m.kind.Hook? && m.event == Some(e)
    decreases ms
  {
    if ms != [] {
      var init, last := ms[..|ms| - 1], ms[|ms| - 1];
      OfEventHas(init, e, m);
      assert ms == init + [last];
    }
  }

  /** A metric is indexed under an event exactly when it is a hook's of that event. */
  lemma {:induction false} IndexedExactly(events: map<string, seq<Metric>>, detailed: seq<Metric>, e: string, m: Metric)
    requires Indexes(events, detailed)
    ensures e in events && m in events[e] <==> m in detailed && m.kind.Hook? && m.event == Some(e)
  {
    OfEventHas(detailed, e, m);
  }

  lemma {:induction false} OfEventStep(ms: seq<Metric>, m: Metric, e: string)
    ensures OfEvent(ms + [m], e) == if IsEvent(m, e) then OfEvent(ms, e) + [m] else OfEvent(ms, e)
  {
    assert (ms + [m])[..|ms|] == ms;
  }

  lemma {:induction false} NewerTwice(ms: seq<Metric>, a: int, b: int)
    requires a <= b
    ensures Newer(Newer(ms, a), b) == Newer(ms, b)
    decreases ms
  {
    if ms != [] {
      var init, m := ms[..|ms| - 1], ms[|ms| - 1];
      NewerTwice(init, a, b);
      NewerStep(Newer(init, a), m, b);
    }
  }

  lemma {:induction false} NewerOfEvent(ms: seq<Metric>, e: string, cutoff: int)
    ensures OfEvent(Newer(ms, cutoff), e) == Newer(OfEvent(ms, e), cutoff)
    decreases ms
  {
    if ms != [] {
      var init, m := ms[..|ms| - 1], ms[|ms| - 1];
      NewerOfEvent(init, e, cutoff);
      OfEventStep(Newer(init, cutoff), m, e);
      NewerStep(OfEvent(init, e), m, cutoff);
    }
  }

  lemma {:induction false} NewerSince(log: seq<Metric>, m: Metric, a: int, b: int)
    requires a <= b
    ensures Newer(Newer(log, a) + [m], b) == Newer(log + [m], b)
  {
    NewerStep(Newer(log, a), m, b);
    NewerStep(log, m, b);
    NewerTwice(log, a, b);
  }

  /** The index holds, under every event with metrics, exactly its metrics in order. */
  ghost predicate Indexes(events: map<string, seq<Metric>>, detailed: seq<Metric>) {
    forall e ::
      (e in events <==> OfEvent(detailed, e) != []) && (e in events ==> events[e] == OfEvent(detailed, e))
  }

  function AddEvent(events: map<string, seq<Metric>>, m: Metric): map<string, seq<Metric>> {
    if m.kind.Hook? && m.event.Some? then
      events[m.event.value := (if m.event.value in events then events[m.event.value] else []) + [m]]
    else events
  }

  lemma {:induction false} AddIndexes(events: map<string, seq<Metric>>, detailed: seq<Metric>, m: Metric)
    requires Indexes(events, detailed)
    ensures Indexes(AddEvent(events, m), detailed + [m])
  {
    forall e
      ensures OfEvent(detailed + [m], e) == if IsEvent(m, e) then OfEvent(detailed, e) + [m] else OfEvent(detailed, e)
    {
      OfEventStep(detailed, m, e);
    }
  }

  /** What cleanup and loading keep of an index. */
  ghost predicate KeepsNewer(events: map<string, seq<Metric>>, kept: map<string, seq<Metric>>, cutoff: int) {
    forall e ::
      (e in kept <==> e in events && Newer(events[e], cutoff) != []) &&
      (e in kept && e in events ==> kept[e] == Newer(events[e], cutoff))
  }

  lemma {:induction false} NewerIndexes(events: map<string, seq<Metric>>, kept: map<string, seq<Metric>>,
                                        detailed: seq<Metric>, cutoff: int)
    requires Indexes(events, detailed) && KeepsNewer(events, kept, cutoff)
    ensures Indexes(kept, Newer(detailed, cutoff))
  {
    forall e
      ensures OfEvent(Newer(detailed, cutoff), e) == Newer(OfEvent(detailed, e), cutoff)
    {
      NewerOfEvent(detailed, e, cutoff);
    }
  }

  // ---- The collector's invariant

  /** The data agree with the log of everything recorded: the detailed metrics are
      those of the last day, indexed by event, and every bucket retained at any
      granularity summarizes all of its metrics. */
  ghost predicate Agrees(cal: Calendar, data: Data, log: seq<Metric>, seen: int) {
    && Retains(data.hourly, log, seen)
    && data.detailed == Newer(log, seen - DAY)
    && Indexes(data.events, data.detailed)
    && Summarized(Hourly(), data.hourly, log, seen)
    && Summarized(Daily(cal.sixMonthsBack), data.daily, log, seen)
    && Summarized(cal.Monthly(), data.monthly, log, seen)
  }

  /** Of the last seven days every hour with metrics has its bucket. */
  ghost predicate Retains(hourly: Buckets, log: seq<Metric>, seen: int) {
    forall k | InBucket(Hourly(), log, k) != [] && k.1 > seen - 7 * 86_400_000_000_000 :: k in hourly
  }

  lemma {:induction false} AddRetains(hourly: Buckets, log: seq<Metric>, seen: int, m: Metric)
    requires Retains(hourly, log, seen) && seen <= m.stamp && forall k | k in hourly :: hourly[k].count >= 0
    ensures Retains(Add(Hourly(), hourly, m), log + [m], m.stamp)
  {
    forall k | InBucket(Hourly(), log + [m], k) != [] && k.1 > m.stamp - 7 * 86_400_000_000_000
      ensures k in Add(Hourly(), hourly, m)
    {
      InBucketStep(Hourly(), log, m, k);
    }
  }

  lemma {:induction false} DropRetains(hourly: Buckets, kept: Buckets, log: seq<Metric>, seen: int, now: int)
    requires Retains(hourly, log, seen) && Summarized(Hourly(), hourly, log, seen) && seen <= now
    requires Drops(Hourly(), hourly, kept, now)
    ensures Retains(kept, log, now)
  {
    hide Summarizes;
    forall k | InBucket(Hourly(), log, k) != [] && k.1 > now - 7 * 86_400_000_000_000
      ensures k in kept
    {
      assert k in hourly && hourly[k].start == k.1;
    }
  }

  ghost predicate IsCalendar(cal: Calendar) {
    IsLevel(Daily(cal.sixMonthsBack)) && IsLevel(cal.Monthly())
  }

  lemma {:induction false} NothingAgrees(cal: Calendar, seen: int)
    ensures Agrees(cal, EMPTY, [], seen)
  {
  }

  function Added(cal: Calendar, d: Data, m: Metric): Data
    requires forall k | k in d.hourly :: d.hourly[k].count >= 0
    requires forall k | k in d.daily :: d.daily[k].count >= 0
    requires forall k | k in d.monthly :: d.monthly[k].count >= 0
  {
    Data(d.detailed + [m], Add(Hourly(), d.hourly, m), Add(Daily(cal.sixMonthsBack), d.daily, m),
         Add(cal.Monthly(), d.monthly, m), AddEvent(d.events, m))
  }

  lemma {:induction false} AgreesCounts(cal: Calendar, data: Data, log: seq<Metric>, seen: int)
    requires Agrees(cal, data, log, seen)
    ensures forall k | k in data.hourly :: data.hourly[k].count >= 0
    ensures forall k | k in data.daily :: data.daily[k].count >= 0
    ensures forall k | k in data.monthly :: data.monthly[k].count >= 0
  {
    CountsPositive(Hourly(), data.hourly, log, seen);
    CountsPositive(Daily(cal.sixMonthsBack), data.daily, log, seen);
    CountsPositive(cal.Monthly(), data.monthly, log, seen);
  }

  /** Before the cleanup: the detailed metrics may still hold older ones. */
  ghost predicate AgreesSince(cal: Calendar, data: Data, log: seq<Metric>, seen: int) {
    && Retains(data.hourly, log, seen)
    && (forall cutoff | cutoff >= seen - DAY :: Newer(data.detailed, cutoff) == Newer(log, cutoff))
    && Indexes(data.events, data.detailed)
    && Summarized(Hourly(), data.hourly, log, seen)
    && Summarized(Daily(cal.sixMonthsBack), data.daily, log, seen)
    && Summarized(cal.Monthly(), data.monthly, log, seen)
  }

  lemma {:induction false} SinceAgrees(cal: Calendar, data: Data, log: seq<Metric>, seen: int)
    requires Agrees(cal, data, log, seen)
    ensures AgreesSince(cal, data, log, seen)
  {
    forall cutoff | cutoff >= seen - DAY
      ensures Newer(data.detailed, cutoff) == Newer(log, cutoff)
    {
      NewerTwice(log, seen - DAY, cutoff);
    }
  }

  lemma {:induction false} AddAgrees(cal: Calendar, data: Data, log: seq<Metric>, seen: int, m: Metric)
    requires IsCalendar(cal) && Agrees(cal, data, log, seen) && seen <= m.stamp
    requires forall k | k in data.hourly :: data.hourly[k].count >= 0
    requires forall k | k in data.daily :: data.daily[k].count >= 0
    requires forall k | k in data.monthly :: data.monthly[k].count >= 0
    ensures AgreesSince(cal, Added(cal, data, m), log + [m], m.stamp)
  {
    AddRetains(data.hourly, log, seen, m);
    hide Summarized, Add, Indexes, AddEvent, IsLevel, Retains;
    HourlyIsLevel();
    AddSummarized(Hourly(), data.hourly, log, seen, m);
    AddSummarized(Daily(cal.sixMonthsBack), data.daily, log, seen, m);
    AddSummarized(cal.Monthly(), data.monthly, log, seen, m);
    AddIndexes(data.events, data.detailed, m);
    forall cutoff | cutoff >= m.stamp - DAY
      ensures Newer(data.detailed + [m], cutoff) == Newer(log + [m], cutoff)
    {
      NewerSince(log, m, seen - DAY, cutoff);
    }
  }

  /** `kept` lacks only buckets that start no later than the cutoff, and all that start before it. */
  predicate Drops(level: Level, aggs: Buckets, kept: Buckets, now: int) {
    && kept.Keys <= aggs.Keys
    && (forall k | k in kept :: kept[k] == aggs[k] && kept[k].start >= level.cutoff(now))
    && forall k | k in aggs && k !in kept :: aggs[k].start <= level.cutoff(now)
  }

  ghost predicate Cleans(cal: Calendar, data: Data, kept: Data, now: int) {
    && kept.detailed == Newer(data.detailed, now - DAY)
    && KeepsNewer(data.events, kept.events, now - DAY)
    && Drops(Hourly(), data.hourly, kept.hourly, now)
    && Drops(Daily(cal.sixMonthsBack), data.daily, kept.daily, now)
    && Drops(cal.Monthly(), data.monthly, kept.monthly, now)
  }

  lemma {:induction false} CleanAgrees(cal: Calendar, data: Data, kept: Data, log: seq<Metric>, seen: int, now: int)
    requires IsCalendar(cal) && AgreesSince(cal, data, log, seen) && seen <= now && Cleans(cal, data, kept, now)
    ensures Agrees(cal, kept, log, now)
  {
    DropRetains(data.hourly, kept.hourly, log, seen, now);
    hide Summarized, Indexes, KeepsNewer, IsLevel, Retains;
    HourlyIsLevel();
    DropSummarized(Hourly(), data.hourly, kept.hourly, log, seen, now);
    DropSummarized(Daily(cal.sixMonthsBack), data.daily, kept.daily, log, seen, now);
    DropSummarized(cal.Monthly(), data.monthly, kept.monthly, log, seen, now);
    NewerIndexes(data.events, kept.events, data.detailed, now - DAY);
  }

  lemma {:induction false} AgreesSays(cal: Calendar, data: Data, log: seq<Metric>, seen: int)
    requires Agrees(cal, data, log, seen)
    ensures forall m :: m in data.detailed <==> m in log && m.stamp > seen - 86_400_000_000_000
    ensures forall e, m ::
      e in data.events && m in data.events[e] <==> m in data.detailed && m.kind.Hook? && m.event == Some(e)
    ensures Retains(data.hourly, log, seen)
  {
    hide Summarized, Indexes, Newer;
    forall m {
      NewerCounts(log, seen - DAY, m);
    }
    forall e, m {
      IndexedExactly(data.events, data.detailed, e, m);
    }
  }

  class Collector {
    const calendar: Calendar
    var data: Data
    var disk: Option<Data>

    /** Everything recorded since the data now held began, and the last clock reading. */
    ghost var log: seq<Metric>
    ghost var seen: int
    ghost var savedLog: seq<Metric>
    ghost var savedSeen: int

    ghost predicate Valid()
      reads this
    {
      && IsCalendar(calendar)
      && Agrees(calendar, data, log, seen)
      && (disk.Some? ==> Agrees(calendar, disk.value, savedLog, savedSeen) && savedSeen <= seen)
    }

    constructor (calendar: Calendar, now: int)
      requires IsCalendar(calendar)
      ensures Valid() && data == EMPTY && disk.None? && log == [] && seen == now
    {
      this.calendar := calendar;
      data, disk := EMPTY, None;
      log, seen, savedLog, savedSeen := [], now, [], now;
      NothingAgrees(calendar, now);
    }

    /** RecordMetric: `stamp` and `now` are its two readings of the clock. */
    method RecordMetric(metric: Metric, stamp: int, now: int)
      requires Valid() && seen <= stamp <= now
      modifies this
      ensures Valid() && log == old(log) + [metric.(stamp := stamp)] && seen == now && disk == old(disk)
      ensures forall m :: m in data.detailed <==> m in log && m.stamp > now - 86_400_000_000_000
      ensures forall e, m ::
        e in data.events && m in data.events[e] <==> m in data.detailed && m.kind.Hook? && m.event == Some(e)
      ensures Retains(data.hourly, log, now)
    {
      hide Agrees, AgreesSince, Cleans, IsCalendar, Add;
      var m := metric.(stamp := stamp);
      AgreesCounts(calendar, data, log, seen);
      AddAgrees(calendar, data, log, seen, m);
      ghost var before := data;
      data := data.(detailed := data.detailed + [m]);
      if m.kind.Hook? && m.event.Some? {
        var e := m.event.value;
        data := data.(events := data.events[e := (if e in data.events then data.events[e] else []) + [m]]);
      }
      UpdateAggregated(m);
      assert data == Added(calendar, before, m);
      ghost var unclean := data;
      Cleanup(now);
      CleanAgrees(calendar, unclean, data, log + [m], stamp, now);
      log, seen := log + [m], now;
      AgreesSays(calendar, data, log, now);
    }

    method UpdateAggregated(m: Metric)
      requires forall k | k in data.hourly :: data.hourly[k].count >= 0
      requires forall k | k in data.daily :: data.daily[k].count >= 0
      requires forall k | k in data.monthly :: data.monthly[k].count >= 0
      modifies this`data
      ensures data == old(data).(hourly := Add(Hourly(), old(data).hourly, m),
                                 daily := Add(Daily(calendar.sixMonthsBack), old(data).daily, m),
                                 monthly := Add(calendar.Monthly(), old(data).monthly, m))
    {
      var hourly := UpdateAggregatedMetric(Hourly(), data.hourly, m);
      var daily := UpdateAggregatedMetric(Daily(calendar.sixMonthsBack), data.daily, m);
      var monthly := UpdateAggregatedMetric(calendar.Monthly(), data.monthly, m);
      data := data.(hourly := hourly, daily := daily, monthly := monthly);
    }

    /** cleanup: every loop keeps what is recent enough. */
    method Cleanup(now: int)
      modifies this`data
      ensures Cleans(calendar, old(data), data, now)
      ensures forall k | k in old(data).hourly ::
        k in data.hourly <==> old(data).hourly[k].start >= now - 7 * 86_400_000_000_000
      ensures forall k | k in old(data).daily ::
        k in data.daily <==> old(data).daily[k].start >= calendar.sixMonthsBack(now)
      ensures forall k | k in old(data).monthly ::
        k in data.monthly <==> old(data).monthly[k].start >= calendar.yearBack(now)
    {
      var detailed := FilterNewer(data.detailed, now - DAY);
      var hourly := DropOld(data.hourly, Hourly().cutoff(now), false);
      var daily := DropOld(data.daily, calendar.sixMonthsBack(now), false);
      var monthly := DropOld(data.monthly, calendar.yearBack(now), false);
      var events := FilterEvents(data.events, now - DAY);
      data := Data(detailed, hourly, daily, monthly, events);
    }

    method Flush()
      requires Valid()
      modifies this
      ensures Valid() && disk == Some(data) && data == old(data) && log == old(log) && seen == old(seen)
      ensures savedLog == log
    {
      disk := Some(data);
      savedLog, savedSeen := log, seen;
    }

    /** A new process: what was not saved is lost, what is too old is not restored. */
    method Restart(now: int, readable: bool)
      requires Valid() && seen <= now
      modifies this
      ensures Valid() && seen == now && disk == old(disk) && savedLog == old(savedLog)
      ensures log == if readable && disk.Some? then old(savedLog) else []
    {
      hide Agrees, AgreesSince, IsCalendar, KeepsNewer, Newer;
      if !readable || disk.None? {
        data := EMPTY;
        NothingAgrees(calendar, now);
        log, seen := [], now;
        return;
      }
      var saved := disk.value;
      var detailed := FilterNewer(saved.detailed, now - DAY);
      var hourly := DropOld(saved.hourly, Hourly().cutoff(now), true);
      var daily := DropOld(saved.daily, calendar.sixMonthsBack(now), true);
      var monthly := DropOld(saved.monthly, calendar.yearBack(now), true);
      var events := FilterEvents(saved.events, now - DAY);
      data := Data(detailed, hourly, daily, monthly, events);
      SinceAgrees(calendar, saved, savedLog, savedSeen);
      CleanAgrees(calendar, saved, data, savedLog, savedSeen, now);
      log, seen := savedLog, now;
    }
  }

  method UpdateAggregatedMetric(level: Level, aggs: Buckets, m: Metric) returns (updated: Buckets)
    requires forall k | k in aggs :: aggs[k].count >= 0
    ensures updated == Add(level, aggs, m)
  {
    var key := KeyOf(level, m);
    var agg := Fresh(key.1, m);
    if key in aggs {
      agg := aggs[key];
    }
    agg := Accumulate(agg, m);
    updated := aggs[key := agg];
  }

  method FilterNewer(ms: seq<Metric>, cutoff: int) returns (filtered: seq<Metric>)
    ensures filtered == Newer(ms, cutoff)
  {
    filtered := [];
    for i := 0 to |ms|
      invariant filtered == Newer(ms[..i], cutoff)
    {
      assert ms[..i + 1][..i] == ms[..i];
      if ms[i].stamp > cutoff {
        filtered := filtered + [ms[i]];
      }
    }
    assert ms[..|ms|] == ms;
  }

  /** Cleaning up deletes what starts before the cutoff, loading what does not start after it. */
  method DropOld(aggs: Buckets, cutoff: int, loading: bool) returns (kept: Buckets)
    ensures kept.Keys <= aggs.Keys && forall k | k in kept :: kept[k] == aggs[k]
    ensures forall k | k in aggs :: k in kept <==> aggs[k].start > cutoff || (aggs[k].start == cutoff && !loading)
  {
    kept := map[];
    var todo := aggs.Keys;
    while todo != {}
      invariant todo <= aggs.Keys && kept.Keys <= aggs.Keys - todo
      invariant forall k | k in kept :: kept[k] == aggs[k]
      invariant forall k | k in aggs.Keys - todo :: k in kept <==>
        aggs[k].start > cutoff || (aggs[k].start == cutoff && !loading)
      decreases |todo|
    {
      var key :| key in todo;
      if aggs[key].start > cutoff || (aggs[key].start == cutoff && !loading) {
        kept := kept[key := aggs[key]];
      }
      todo := todo - {key};
    }
  }

  method FilterEvents(events: map<string, seq<Metric>>, cutoff: int) returns (kept: map<string, seq<Metric>>)
    ensures KeepsNewer(events, kept, cutoff)
  {
    kept := map[];
    var todo := events.Keys;
    while todo != {}
      invariant todo <= events.Keys
      invariant forall e ::
        (e in kept <==> e in events && e !in todo && Newer(events[e], cutoff) != []) &&
        (e in kept && e in events ==> kept[e] == Newer(events[e], cutoff))
      decreases |todo|
    {
      var e :| e in todo;
      var filtered := FilterNewer(events[e], cutoff);
      if filtered != [] {
        kept := kept[e := filtered];
      }
      todo := todo - {e};
    }
  }

  /** In UTC, a retained day's count is the sum of its retained hours' counts
      exactly until an hour with metrics was dropped. */
  lemma {:induction false} DaysAddUp(cal: Calendar, data: Data, log: seq<Metric>, seen: int, collection: string,
                                     day: int)
    requires Agrees(cal, data, log, seen) && (collection, day) in data.daily && day % DAY == 0
    ensures data.daily[(collection, day)].count == HoursOf(data.hourly, collection, day, 24)
            <==> AllHoursKept(data.hourly, log, collection, day, 24)
  {
    DayCountsItsHours(data.hourly, data.daily, cal.sixMonthsBack, log, seen, collection, day);
  }
}
