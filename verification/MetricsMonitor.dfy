/** The metrics monitor: a receiver and a timer share a bounded ring buffer under a mutex, so
    that every run is an interleaving of whole receive and timer steps. */
module MetricsMonitor {

  datatype Report = Report(key: string, value: int)

  const MAX_METRICS_PER_INTERVAL: nat := 1000

  /** The metrics published as zero when nobody reports them; one of them is listed twice. */
  const DEFAULT_ZERO_METRICS: seq<string> :=
    ["barn_files_to_ship", "barn_failed_to_get_sync_list", "barn_shipping_entire_log_directory",
     "barn_rotated_during_ship", "barn_files_shipped", "barn_lost_during_ship",
     "barn_shipping_entire_log_directory", "failed_over_agents"]

  function DefaultReports(): seq<Report> {
    seq(|DEFAULT_ZERO_METRICS|, i requires 0 <= i < |DEFAULT_ZERO_METRICS| => Report(DEFAULT_ZERO_METRICS[i], 0))
  }

  // ----- sums

  function Sum(reports: seq<Report>, key: string): int {
    if reports == [] then 0 else
    Sum(reports[..|reports| - 1], key) + if reports[|reports| - 1].key == key then reports[|reports| - 1].value else 0
  }

  function Keys(reports: seq<Report>): set<string> {
    set r | r in reports :: r.key
  }

  /** What aggregating these reports publishes. */
  ghost predicate IsAggregate(m: map<string, int>, reports: seq<Report>) {
    m.Keys == Keys(reports) && forall key <- m :: m[key] == Sum(reports, key)
  }

  lemma {:induction false} SumOfAppend(a: seq<Report>, b: seq<Report>, key: string)
    ensures Sum(a + b, key) == Sum(a, key) + Sum(b, key)
    decreases |b|
  {
    if b == [] {
      assert a + b == a;
    } else {
      assert (a + b)[..|a + b| - 1] == a + b[..|b| - 1];
      SumOfAppend(a, b[..|b| - 1], key);
    }
  }

  lemma {:induction false} AbsentKeySumsToZero(reports: seq<Report>, key: string)
    requires key !in Keys(reports)
    ensures Sum(reports, key) == 0
  {
    if reports != [] {
      AbsentKeySumsToZero(reports[..|reports| - 1], key);
    }
  }

  lemma {:induction false} ZeroReportsSumToZero(reports: seq<Report>, key: string)
    requires forall r <- reports :: r.key == key ==> r.value == 0
    ensures Sum(reports, key) == 0
  {
    if reports != [] {
      ZeroReportsSumToZero(reports[..|reports| - 1], key);
    }
  }

  method Aggregate(buffer: seq<Report>) returns (aggregated: map<string, int>)
    ensures IsAggregate(aggregated, buffer)
  {
    aggregated := map[];
    for i := 0 to |buffer|
      invariant IsAggregate(aggregated, buffer[..i])
    {
      var element := buffer[i];
      assert buffer[..i + 1] == buffer[..i] + [element];
      assert Keys(buffer[..i + 1]) == Keys(buffer[..i]) + {element.key};
      if element.key !in aggregated {
        AbsentKeySumsToZero(buffer[..i], element.key);
        aggregated := aggregated[element.key := 0];
      }
      forall key
        ensures Sum(buffer[..i + 1], key) == Sum(buffer[..i], key) + if element.key == key then element.value else 0
      {
        assert buffer[..i + 1][..i] == buffer[..i];
      }
      aggregated := aggregated[element.key := aggregated[element.key] + element.value];
    }
    assert buffer[..|buffer|] == buffer;
  }

  // ----- the ring buffer

  /** The newest n reports. */
  function Newest(reports: seq<Report>, n: nat): seq<Report> {
    if |reports| <= n then reports else reports[|reports| - n..]
  }

  /** boost::circular_buffer: pushing onto a full buffer overwrites the oldest entry. */
  class CircularBuffer {
    const capacity: nat
    var entries: seq<Report>

    constructor (capacity: nat)
      ensures this.capacity == capacity && entries == []
    {
      this.capacity := capacity;
      entries := [];
    }

    method PushBack(r: Report)
      requires capacity > 0
      modifies this
      ensures entries == Newest(old(entries) + [r], capacity)
    {
      if |entries| >= capacity {
        entries := entries[|entries| + 1 - capacity..] + [r];
      } else {
        entries := entries + [r];
      }
    }

    method Clear()
      modifies this
      ensures entries == []
    {
      entries := [];
    }
  }

  lemma NewestOfNewest(reports: seq<Report>, r: Report, n: nat)
    requires n > 0
    ensures Newest(Newest(reports, n) + [r], n) == Newest(reports + [r], n)
  {
  }

  // ----- interleavings

  /** One step under the mutex: the receiver pushes a report, or the timer publishes. */
  datatype Event = Receive(report: Report) | Timer

  /** Everything pushed since the last timer step, with the defaults that step left. */
  ghost function Pushed(events: seq<Event>): seq<Report> {
    if events == [] then [] else
    match events[|events| - 1]
    case Receive(r) => Pushed(events[..|events| - 1]) + [r]
    case Timer => DefaultReports()
  }

  ghost function Received(events: seq<Event>, key: string): int {
    if events == [] then 0 else
    Received(events[..|events| - 1], key) + match events[|events| - 1]
      case Receive(r) => if r.key == key then r.value else 0
      case Timer => 0
  }

  /** What has fallen off the buffer, of these reports pushed since it was cleared. */
  ghost function Overwritten(pushed: seq<Report>): seq<Report> {
    if |pushed| <= MAX_METRICS_PER_INTERVAL then [] else pushed[..|pushed| - MAX_METRICS_PER_INTERVAL]
  }

  /** The sum of what was overwritten in earlier intervals, and in the current one. */
  ghost function LostEarlier(events: seq<Event>, key: string): int {
    if events == [] then 0 else
    var before := events[..|events| - 1];
    LostEarlier(before, key) + if events[|events| - 1].Timer? then Sum(Overwritten(Pushed(before)), key) else 0
  }

  ghost function Lost(events: seq<Event>, key: string): int {
    LostEarlier(events, key) + Sum(Overwritten(Pushed(events)), key)
  }

  function Published(publications: seq<map<string, int>>, key: string): int {
    if publications == [] then 0 else
    var last := publications[|publications| - 1];
    Published(publications[..|publications| - 1], key) + if key in last then last[key] else 0
  }

  /** Publication k is the aggregate of the newest entries pushed before the k-th timer step. */
  ghost predicate ArePublications(publications: seq<map<string, int>>, events: seq<Event>)
    decreases |events|
  {
    if events == [] then publications == [] else
    var before := events[..|events| - 1];
    if events[|events| - 1].Receive? then ArePublications(publications, before) else
    && publications != []
    && IsAggregate(publications[|publications| - 1], Newest(Pushed(before), MAX_METRICS_PER_INTERVAL))
    && ArePublications(publications[..|publications| - 1], before)
  }

  lemma PushedIsOverwrittenOrKept(pushed: seq<Report>, key: string)
    ensures Sum(pushed, key) == Sum(Overwritten(pushed), key) + Sum(Newest(pushed, MAX_METRICS_PER_INTERVAL), key)
  {
    SumOfAppend(Overwritten(pushed), Newest(pushed, MAX_METRICS_PER_INTERVAL), key);
    assert Overwritten(pushed) + Newest(pushed, MAX_METRICS_PER_INTERVAL) == pushed;
  }

  lemma AggregateHoldsSum(m: map<string, int>, reports: seq<Report>, key: string)
    requires IsAggregate(m, reports)
    ensures (if key in m then m[key] else 0) == Sum(reports, key)
  {
    if key !in m {
      AbsentKeySumsToZero(reports, key);
    }
  }

  /** The ledger of any interleaving: what was published, is pending or was overwritten is
      exactly what was received. */
  lemma {:induction false} Conservation(publications: seq<map<string, int>>, events: seq<Event>, key: string)
    requires ArePublications(publications, events)
    ensures Published(publications, key) + Sum(Newest(Pushed(events), MAX_METRICS_PER_INTERVAL), key)
            + Lost(events, key) == Received(events, key)
    decreases |events|
  {
    PushedIsOverwrittenOrKept(Pushed(events), key);
    if events != [] {
      var before := events[..|events| - 1];
      PushedIsOverwrittenOrKept(Pushed(before), key);
      match events[|events| - 1]
      case Receive(r) =>
        Conservation(publications, before, key);
        assert (Pushed(before) + [r])[..|Pushed(before)|] == Pushed(before);
      case Timer =>
        Conservation(publications[..|publications| - 1], before, key);
        AggregateHoldsSum(publications[|publications| - 1], Newest(Pushed(before), MAX_METRICS_PER_INTERVAL), key);
        ZeroReportsSumToZero(DefaultReports(), key);
    }
  }

  ghost predicate NoOverflow(events: seq<Event>)
    decreases |events|
  {
    |Pushed(events)| <= MAX_METRICS_PER_INTERVAL && (events == [] || NoOverflow(events[..|events| - 1]))
  }

  lemma {:induction false} NoOverflowLosesNothing(events: seq<Event>, key: string)
    requires NoOverflow(events)
    ensures Lost(events, key) == 0
    decreases |events|
  {
    if events != [] {
      NoOverflowLosesNothing(events[..|events| - 1], key);
    }
  }

  /** When no interval overflows, nothing is ever lost or invented. */
  lemma ConservationWithoutOverflow(publications: seq<map<string, int>>, events: seq<Event>, key: string)
    requires ArePublications(publications, events) && NoOverflow(events)
    ensures Published(publications, key) + Sum(Pushed(events), key) == Received(events, key)
  {
    Conservation(publications, events, key);
    NoOverflowLosesNothing(events, key);
  }

  lemma {:induction false} IntervalsStartWithDefaults(events: seq<Event>)
    requires Timer in events
    ensures DefaultReports() <= Pushed(events)
    decreases |events|
  {
    if events[|events| - 1].Receive? {
      IntervalsStartWithDefaults(events[..|events| - 1]);
    }
  }

  ghost function Timers(events: seq<Event>): nat {
    if events == [] then 0 else
    Timers(events[..|events| - 1]) + if events[|events| - 1].Timer? then 1 else 0
  }

  /** What is pushed in the interval that ends with timer step p. */
  ghost function Interval(events: seq<Event>, p: nat): seq<Report>
    requires p < Timers(events)
  {
    var before := events[..|events| - 1];
    if p < Timers(before) then Interval(before, p) else Pushed(before)
  }

  /** Publication p is the aggregate of what was kept of its interval. */
  lemma {:induction false} PublicationsAreOfIntervals(publications: seq<map<string, int>>, events: seq<Event>, p: nat)
    requires ArePublications(publications, events)
    ensures |publications| == Timers(events)
    ensures p < |publications| ==>
              IsAggregate(publications[p], Newest(Interval(events, p), 1000))
    decreases |events|
  {
    if events != [] {
      var before := events[..|events| - 1];
      if events[|events| - 1].Receive? {
        PublicationsAreOfIntervals(publications, before, p);
      } else {
        PublicationsAreOfIntervals(publications[..|publications| - 1], before, p);
      }
    }
  }

  lemma {:induction false} TimersAreEvents(events: seq<Event>)
    requires Timers(events) > 0
    ensures Timer in events
  {
    if events[|events| - 1].Receive? {
      TimersAreEvents(events[..|events| - 1]);
    }
  }

  /** What is in the buffer when the interval that ends with timer step p starts. */
  ghost function DefaultsBefore(p: nat): seq<Report> {
    if p == 0 then [] else DefaultReports()
  }

  lemma {:induction false} IntervalStartsWithItsDefaults(events: seq<Event>, p: nat)
    requires p < Timers(events)
    ensures DefaultsBefore(p) <= Interval(events, p)
    decreases |events|
  {
    var before := events[..|events| - 1];
    if p < Timers(before) {
      IntervalStartsWithItsDefaults(before, p);
    } else if p > 0 {
      TimersAreEvents(before);
      IntervalsStartWithDefaults(before);
    }
  }

  /** Nobody reports the key in the interval that ends with timer step p. */
  ghost predicate Unreported(events: seq<Event>, p: nat, key: string)
    requires p < Timers(events)
  {
    forall j | |DefaultsBefore(p)| <= j < |Interval(events, p)| :: Interval(events, p)[j].key != key
  }

  /** How many reports of an interval may be overwritten before its last default for the key is;
      -1 if the key has none. */
  function LastDefault(key: string): int {
    if key == "barn_files_to_ship" then 0
    else if key == "barn_failed_to_get_sync_list" then 1
    else if key == "barn_rotated_during_ship" then 3
    else if key == "barn_files_shipped" then 4
    else if key == "barn_lost_during_ship" then 5
    else if key == "barn_shipping_entire_log_directory" then 6
    else if key == "failed_over_agents" then 7
    else -1
  }

  lemma LastDefaultIsItsOwn(key: string)
    ensures LastDefault(key) >= 0 ==> DefaultReports()[LastDefault(key)] == Report(key, 0)
    ensures forall i | 0 <= i < |DefaultReports()| && DefaultReports()[i].key == key :: i <= LastDefault(key)
  {
    var d := DEFAULT_ZERO_METRICS;
    assert |d| == 8 && d[0] == "barn_files_to_ship" && d[1] == "barn_failed_to_get_sync_list";
    assert d[2] == d[6] == "barn_shipping_entire_log_directory" && d[3] == "barn_rotated_during_ship";
    assert d[4] == "barn_files_shipped" && d[5] == "barn_lost_during_ship" && d[7] == "failed_over_agents";
  }

  /** Where nothing overflows, a default metric is published exactly if it is reported or a
      publication came before: the first one names only what is reported. */
  lemma DefaultsArePublishedIff(publications: seq<map<string, int>>, events: seq<Event>, p: nat, key: string)
    requires ArePublications(publications, events) && p < |publications| == Timers(events)
    requires |Interval(events, p)| <= 1000
    requires key in {"barn_files_to_ship", "barn_failed_to_get_sync_list", "barn_shipping_entire_log_directory",
                     "barn_rotated_during_ship", "barn_files_shipped", "barn_lost_during_ship", "failed_over_agents"}
    ensures key in publications[p] <==> p > 0 || !Unreported(events, p, key)
  {
    var interval := Interval(events, p);
    PublicationsAreOfIntervals(publications, events, p);
    IntervalStartsWithItsDefaults(events, p);
    if p > 0 {
      LastDefaultIsItsOwn(key);
      var i := LastDefault(key);
      assert interval[i] == DefaultReports()[i];
      assert interval[i] in interval;
    } else if !Unreported(events, p, key) {
      var j :| 0 <= j < |interval| && interval[j].key == key;
      assert interval[j] in interval;
    }
  }

  /** One of these defaults is for the key, and overflow has spared it. */
  ghost predicate KeepsDefault(defaults: seq<Report>, interval: seq<Report>, key: string) {
    exists i | 0 <= i < |defaults| :: defaults[i].key == key && |Overwritten(interval)| <= i
  }

  lemma UnreportedIsKeptIff(defaults: seq<Report>, interval: seq<Report>, key: string)
    requires defaults <= interval && forall r <- defaults :: r.value == 0
    requires forall j | |defaults| <= j < |interval| :: interval[j].key != key
    ensures key in Keys(Newest(interval, MAX_METRICS_PER_INTERVAL)) <==> KeepsDefault(defaults, interval, key)
    ensures Sum(Newest(interval, MAX_METRICS_PER_INTERVAL), key) == 0
  {
    var kept, lost := Newest(interval, MAX_METRICS_PER_INTERVAL), |Overwritten(interval)|;
    assert |kept| == |interval| - lost;
    forall j | 0 <= j < |kept| && kept[j].key == key
      ensures kept[j].value == 0 && KeepsDefault(defaults, interval, key)
    {
      assert kept[j] == interval[lost + j] == defaults[lost + j];
    }
    ZeroReportsSumToZero(kept, key);
    if KeepsDefault(defaults, interval, key) {
      var i :| 0 <= i < |defaults| && defaults[i].key == key && lost <= i;
      assert kept[i - lost] == interval[i] == defaults[i];
      assert kept[i - lost] in kept;
    }
  }

  /** In any publication of any run, a metric that nobody reports is published exactly when the
      interval started with a default for it that overflow has spared, and then as zero.  The
      first interval started with none. */
  lemma UnreportedIsPublishedAsZeroIff(publications: seq<map<string, int>>, events: seq<Event>, p: nat, key: string)
    requires ArePublications(publications, events) && p < |publications| == Timers(events)
    requires Unreported(events, p, key)
    ensures key in publications[p] <==>
            p > 0 && LastDefault(key) >= 0 && |Interval(events, p)| <= 1000 + LastDefault(key)
    ensures key in publications[p] ==> publications[p][key] == 0
  {
    PublicationsAreOfIntervals(publications, events, p);
    IntervalStartsWithItsDefaults(events, p);
    UnreportedIsKeptIff(DefaultsBefore(p), Interval(events, p), key);
    LastDefaultIsItsOwn(key);
  }

  /** So a timer step before any report publishes none of the default metrics. */
  lemma FirstPublicationIsEmpty(publications: seq<map<string, int>>)
    requires ArePublications(publications, [Timer])
    ensures publications == [map[]]
  {
    var before := [Timer][..0];
    assert before == [];
    assert publications[..|publications| - 1] == [];
    assert publications == [publications[0]];
  }

  /** A timer step, and after it n reports of one other metric. */
  ghost function Flood(n: nat, r: Report): seq<Event> {
    if n == 0 then [Timer] else Flood(n - 1, r) + [Receive(r)]
  }

  lemma {:induction false} FloodPushesAll(n: nat, r: Report)
    ensures Timers(Flood(n, r)) == 1
    ensures Pushed(Flood(n, r)) == DefaultReports() + seq(n, i => r)
  {
    if n > 0 {
      FloodPushesAll(n - 1, r);
      assert Flood(n, r)[..|Flood(n, r)| - 1] == Flood(n - 1, r);
    } else {
      assert [Timer][..0] == [];
    }
  }

  /** Nor does one after enough reports of another metric. */
  lemma FloodDropsDefault(publications: seq<map<string, int>>, r: Report, key: string)
    requires ArePublications(publications, Flood(1000, r) + [Timer]) && r.key != key
    ensures |publications| == 2 && key !in publications[1]
  {
    var before := Flood(1000, r);
    var events := before + [Timer];
    assert events[..|events| - 1] == before;
    FloodPushesAll(1000, r);
    PublicationsAreOfIntervals(publications, events, 1);
    assert Interval(events, 1) == Pushed(before);
    UnreportedIsPublishedAsZeroIff(publications, events, 1, key);
  }

  // ----- the two threads' critical sections

  class Monitor {
    const metrics: CircularBuffer
    /** What has been reported to Ganglia. */
    var published: seq<map<string, int>>
    ghost var events: seq<Event>

    ghost predicate Valid()
      reads this, metrics
    {
      && metrics.capacity == MAX_METRICS_PER_INTERVAL
      && metrics.entries == Newest(Pushed(events), MAX_METRICS_PER_INTERVAL)
      && ArePublications(published, events)
    }

    constructor ()
      ensures Valid() && events == [] && fresh(metrics)
    {
      metrics := new CircularBuffer(MAX_METRICS_PER_INTERVAL);
      published, events := [], [];
    }

    method ReceiveReport(r: Report)
      requires Valid()
      modifies this, metrics
      ensures Valid() && events == old(events) + [Receive(r)] && published == old(published)
    {
      metrics.PushBack(r);
      events := events + [Receive(r)];
      assert events[..|events| - 1] == old(events);
      NewestOfNewest(Pushed(old(events)), r, MAX_METRICS_PER_INTERVAL);
    }

    method TimerAction()
      requires Valid()
      modifies this, metrics
      ensures Valid() && events == old(events) + [Timer]
      ensures |published| == |old(published)| + 1 && published[..|old(published)|] == old(published)
      ensures IsAggregate(published[|old(published)|], old(metrics.entries))
    {
      var metricsCopy := metrics.entries;
      metrics.Clear();
      AddDefaultMetrics();
      var aggregated := Aggregate(metricsCopy);
      published := published + [aggregated];
      events := events + [Timer];
      assert events[..|events| - 1] == old(events);
      assert published[..|published| - 1] == old(published);
    }

    method AddDefaultMetrics()
      requires metrics.capacity == MAX_METRICS_PER_INTERVAL && metrics.entries == []
      modifies metrics
      ensures metrics.entries == DefaultReports()
    {
      for i := 0 to |DEFAULT_ZERO_METRICS|
        invariant metrics.entries == DefaultReports()[..i]
      {
        metrics.PushBack(Report(DEFAULT_ZERO_METRICS[i], 0));
      }
    }
  }

  /** Any interleaving of the two threads, and the ledger it leaves. */
  method RunMonitor(schedule: seq<Event>) returns (published: seq<map<string, int>>, pending: seq<Report>)
    ensures ArePublications(published, schedule)
    ensures pending == Newest(Pushed(schedule), 1000)
    ensures forall key :: Published(published, key) + Sum(pending, key) + Lost(schedule, key) == Received(schedule, key)
    ensures NoOverflow(schedule) ==>
              forall key :: Published(published, key) + Sum(pending, key) == Received(schedule, key)
  {
    var monitor := new Monitor();
    for i := 0 to |schedule|
      invariant monitor.Valid() && monitor.events == schedule[..i]
      invariant fresh(monitor) && fresh(monitor.metrics)
    {
      assert schedule[..i + 1] == schedule[..i] + [schedule[i]];
      match schedule[i]
      case Receive(r) => monitor.ReceiveReport(r);
      case Timer => monitor.TimerAction();
    }
    assert schedule[..|schedule|] == schedule;
    published, pending := monitor.published, monitor.metrics.entries;
    forall key ensures Published(published, key) + Sum(pending, key) + Lost(schedule, key) == Received(schedule, key) {
      Conservation(published, schedule, key);
    }
    if NoOverflow(schedule) {
      forall key ensures Lost(schedule, key) == 0 {
        NoOverflowLosesNothing(schedule, key);
      }
    }
  }
}
