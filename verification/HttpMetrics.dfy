/**
 * The request counters and duration histograms, with folding at the cap. A series is a
 * triple of labels here; that the program's printed keys stand for exactly those triples is
 * `KeysAreFaithful`. Durations are real numbers.
 */
module HttpMetrics {
  import opened Basics
  import opened Decimals
  import opened Strings
  import opened Text

  const MAX_SERIES := 500
  const OVERFLOW_ROUTE := "overflow"
  const BUCKETS: seq<real> := [0.005, 0.01, 0.025, 0.05, 0.1, 0.25, 0.5, 1.0, 2.5, 5.0, 10.0]

  datatype Status = Whole(value: int) | NotWhole
  datatype Seconds = Finite(value: real) | NotFinite

  datatype Observation = Observation(verb: string, route: string, status: Status, seconds: Seconds)

  datatype Route = Route(verb: string, route: string)
  datatype Series = Series(route: Route, status: int)
  datatype Histogram = Histogram(buckets: seq<nat>, sum: real, count: nat)

  /** One observation with its final labels. */
  datatype Sample = Sample(series: Series, seconds: real)

  // ---- Labels ----

  const KNOWN_METHODS: set<string> := {"GET", "POST", "PUT", "PATCH", "DELETE", "HEAD", "OPTIONS"}

  function MethodLabel(raw: string): string {
    if Upper(raw) in KNOWN_METHODS then Upper(raw) else "other"
  }

  function StatusOf(o: Observation): int {
    if o.status.Whole? then o.status.value else 0
  }

  function SecondsOf(o: Observation): (r: real)
    ensures r >= 0.0
  {
    match o.seconds
    case Finite(value) => if value > 0.0 then value else 0.0
    case NotFinite => 0.0
  }

  datatype State = State(counters: map<Series, nat>, histograms: map<Route, Histogram>)

  const Initial := State(map[], map[])

  /** `routeWithinCap`, with the other labels. */
  function LabelFor(s: State, o: Observation): Series {
    var own := Series(Route(MethodLabel(o.verb), o.route), StatusOf(o));
    if own in s.counters || |s.counters| < MAX_SERIES then own
    else own.(route := Route(own.route.verb, OVERFLOW_ROUTE))
  }

  function SampleFor(s: State, o: Observation): Sample {
    Sample(LabelFor(s, o), SecondsOf(o))
  }

  // ---- Recording ----

  /** `findIndex(upper => seconds <= upper)` from bucket `i` on. */
  function BucketFrom(seconds: real, i: nat): (k: nat)
    requires i <= |BUCKETS|
    ensures i <= k <= |BUCKETS|
    ensures k < |BUCKETS| ==> seconds <= BUCKETS[k]
    ensures forall j :: i <= j < k ==> seconds > BUCKETS[j]
    decreases |BUCKETS| - i
  {
    if i == |BUCKETS| || seconds <= BUCKETS[i] then i else BucketFrom(seconds, i + 1)
  }

  const NO_BUCKETS: seq<nat> := [0, 0, 0, 0, 0, 0, 0, 0, 0, 0, 0]

  function Observed(h: Histogram, seconds: real): Histogram {
    var k := BucketFrom(seconds, 0);
    Histogram(if k < |h.buckets| then h.buckets[k := h.buckets[k] + 1] else h.buckets, h.sum + seconds, h.count + 1)
  }

  function Increment(counters: map<Series, nat>, k: Series): map<Series, nat> {
    counters[k := (if k in counters then counters[k] else 0) + 1]
  }

  function HistogramIn(histograms: map<Route, Histogram>, route: Route): Histogram {
    if route in histograms then histograms[route] else Histogram(NO_BUCKETS, 0.0, 0)
  }

  function HistogramOf(s: State, route: Route): Histogram {
    HistogramIn(s.histograms, route)
  }

  function Added(s: State, x: Sample): State {
    State(Increment(s.counters, x.series),
          s.histograms[x.series.route := Observed(HistogramOf(s, x.series.route), x.seconds)])
  }

  function Recorded(s: State, o: Observation): State {
    Added(s, SampleFor(s, o))
  }

  function Run(observations: seq<Observation>): State
    decreases |observations|
  {
    if observations == [] then Initial
    else Recorded(Run(observations[..|observations| - 1]), observations[|observations| - 1])
  }

  /** What was recorded, with the labels each observation got. */
  function Log(observations: seq<Observation>): (log: seq<Sample>)
    ensures |log| == |observations|
    decreases |observations|
  {
    if observations == [] then []
    else
      var before := observations[..|observations| - 1];
      Log(before) + [SampleFor(Run(before), observations[|observations| - 1])]
  }

  class Registry {
    var counters: map<Series, nat>
    var histograms: map<Route, Histogram>

    function View(): State
      reads this
    {
      State(counters, histograms)
    }

    constructor ()
      ensures View() == Initial
    {
      counters, histograms := map[], map[];
    }

    method RouteWithinCap(verb: string, route: string, status: int) returns (own: string)
      ensures own == if Series(Route(verb, route), status) in counters || |counters| < MAX_SERIES then route
                       else OVERFLOW_ROUTE
    {
      if Series(Route(verb, route), status) in counters {
        return route;
      }
      own := if |counters| < MAX_SERIES then route else OVERFLOW_ROUTE;
    }

    /** `findIndex`, over the bounds in order. */
    static method BucketIndex(seconds: real) returns (index: nat)
      ensures index == BucketFrom(seconds, 0)
    {
      index := 0;
      while index < |BUCKETS| && seconds > BUCKETS[index]
        invariant index <= |BUCKETS|
        invariant BucketFrom(seconds, 0) == BucketFrom(seconds, index)
      {
        index := index + 1;
      }
    }

    method Count(series: Series)
      modifies `counters
      ensures counters == Increment(old(counters), series)
    {
      if series in counters {
        counters := counters[series := counters[series] + 1];
      } else {
        counters := counters[series := 1];
      }
    }

    method Observe(route: Route, seconds: real)
      modifies `histograms
      ensures histograms == old(histograms)[route := Observed(HistogramIn(old(histograms), route), seconds)]
    {
      hide BucketFrom;
      var histogram := Histogram(NO_BUCKETS, 0.0, 0);
      if route in histograms {
        histogram := histograms[route];
      }
      var index := BucketIndex(seconds);
      var buckets := histogram.buckets;
      if index < |buckets| {
        buckets := buckets[index := buckets[index] + 1];
      }
      histograms := histograms[route := Histogram(buckets, histogram.sum + seconds, histogram.count + 1)];
    }

    method Record(o: Observation)
      modifies this
      ensures View() == Recorded(old(View()), o)
    {
      hide MethodLabel, SecondsOf, Observed, HistogramIn, Increment;
      var verb, status, seconds := MethodLabel(o.verb), if o.status.Whole? then o.status.value else 0, SecondsOf(o);
      var route := RouteWithinCap(verb, o.route, status);
      Count(Series(Route(verb, route), status));
      Observe(Route(verb, route), seconds);
    }
  }

  // ---- Totals ----

  ghost function Total(counters: map<Series, nat>): nat {
    if counters == map[] then 0
    else
      var k :| k in counters;
      counters[k] + Total(counters - {k})
  }

  lemma {:induction false} TotalTakesAny(counters: map<Series, nat>, k: Series)
    requires k in counters
    ensures Total(counters) == counters[k] + Total(counters - {k})
    decreases |counters|
  {
    var j :| j in counters && Total(counters) == counters[j] + Total(counters - {j});
    if j != k {
      TotalTakesAny(counters - {j}, k);
      TotalTakesAny(counters - {k}, j);
      assert counters - {j} - {k} == counters - {k} - {j};
    }
  }

  lemma {:induction false} TotalAfterSet(counters: map<Series, nat>, k: Series, n: nat)
    ensures Total(counters[k := n]) == Total(counters - {k}) + n
  {
    var after := counters[k := n];
    TotalTakesAny(after, k);
    assert after - {k} == counters - {k};
  }

  lemma {:induction false} CountingAddsOne(counters: map<Series, nat>, k: Series)
    ensures Total(Increment(counters, k)) == Total(counters) + 1
  {
    TotalAfterSet(counters, k, Increment(counters, k)[k]);
    if k in counters {
      TotalTakesAny(counters, k);
    } else {
      assert counters - {k} == counters;
    }
  }

  /** The counters add up to the number of requests: folding loses none. */
  lemma {:induction false} CountersSumToCalls(observations: seq<Observation>)
    ensures Total(Run(observations).counters) == |observations|
    decreases |observations|
  {
    hide LabelFor, SecondsOf, Observed, HistogramOf, Increment;
    if observations != [] {
      var before := observations[..|observations| - 1];
      CountersSumToCalls(before);
      CountingAddsOne(Run(before).counters, LabelFor(Run(before), observations[|observations| - 1]));
    }
  }

  // ---- Histograms against counters ----

  function OfRoute(counters: map<Series, nat>, route: Route): map<Series, nat> {
    map series | series in counters && series.route == route :: counters[series]
  }

  lemma {:induction false} OfRouteAfterCounting(counters: map<Series, nat>, k: Series, route: Route)
    ensures OfRoute(Increment(counters, k), route)
         == if k.route == route then Increment(OfRoute(counters, route), k) else OfRoute(counters, route)
  {
  }

  /** A route's histogram has as many observations as its counters together, and exists when one of them does. */
  lemma {:induction false} HistogramCountsItsCounters(observations: seq<Observation>, route: Route)
    ensures var s := Run(observations);
            && HistogramOf(s, route).count == Total(OfRoute(s.counters, route))
            && (route in s.histograms <==> OfRoute(s.counters, route) != map[])
    decreases |observations|
  {
    hide LabelFor, SecondsOf, Increment, OfRoute;
    if observations == [] {
      NoRoutes(route);
    } else {
      var before := observations[..|observations| - 1];
      var s, x := Run(before), SampleFor(Run(before), observations[|observations| - 1]);
      HistogramCountsItsCounters(before, route);
      OfRouteAfterCounting(s.counters, x.series, route);
      CountingAddsOne(OfRoute(s.counters, route), x.series);
      IncrementIsSome(OfRoute(s.counters, route), x.series);
    }
  }

  lemma {:induction false} NoRoutes(route: Route)
    ensures OfRoute(map[], route) == map[]
  {
  }

  lemma {:induction false} IncrementIsSome(counters: map<Series, nat>, k: Series)
    ensures Increment(counters, k) != map[]
  {
    assert k in Increment(counters, k);
  }

  // ---- Buckets against observations ----

  function UpTo(buckets: seq<nat>, n: nat): nat
    requires n <= |buckets|
  {
    if n == 0 then 0 else UpTo(buckets, n - 1) + buckets[n - 1]
  }

  /** The samples of a route that took at most `bound`. */
  function AtMost(log: seq<Sample>, route: Route, bound: real): nat {
    if log == [] then 0
    else
      var x := log[|log| - 1];
      AtMost(log[..|log| - 1], route, bound) + if x.series.route == route && x.seconds <= bound then 1 else 0
  }

  function OnRoute(log: seq<Sample>, route: Route): nat {
    if log == [] then 0
    else OnRoute(log[..|log| - 1], route) + if log[|log| - 1].series.route == route then 1 else 0
  }

  function TimeOn(log: seq<Sample>, route: Route): real {
    if log == [] then 0.0
    else TimeOn(log[..|log| - 1], route) + if log[|log| - 1].series.route == route then log[|log| - 1].seconds else 0.0
  }

  lemma {:induction false} BoundsAreSorted(i: nat, j: nat)
    requires i <= j < |BUCKETS|
    ensures BUCKETS[i] <= BUCKETS[j]
  {
  }

  /** The first bucket that takes a value is at or below `i` exactly when the value is at most bound `i`. */
  lemma {:induction false} BucketIsBelowExactly(seconds: real, i: nat)
    requires i < |BUCKETS|
    ensures BucketFrom(seconds, 0) <= i <==> seconds <= BUCKETS[i]
  {
    var k := BucketFrom(seconds, 0);
    if k <= i {
      BoundsAreSorted(k, i);
    }
  }

  lemma {:induction false} UpToAfterAdding(buckets: seq<nat>, k: nat, n: nat)
    requires n <= |buckets| && k < |buckets|
    ensures UpTo(buckets[k := buckets[k] + 1], n) == UpTo(buckets, n) + if k < n then 1 else 0
  {
    if n > 0 {
      UpToAfterAdding(buckets, k, n - 1);
    }
  }

  lemma {:induction false} ObservingCounts(h: Histogram, seconds: real, i: nat)
    requires |h.buckets| == |BUCKETS| && i < |BUCKETS|
    ensures |Observed(h, seconds).buckets| == |BUCKETS|
    ensures UpTo(Observed(h, seconds).buckets, i + 1) == UpTo(h.buckets, i + 1) + if seconds <= BUCKETS[i] then 1 else 0
  {
    BucketIsBelowExactly(seconds, i);
    hide BucketFrom;
    var k := BucketFrom(seconds, 0);
    if k < |BUCKETS| {
      UpToAfterAdding(h.buckets, k, i + 1);
    }
  }

  lemma {:induction false} NothingUpTo(n: nat)
    requires n <= |NO_BUCKETS|
    ensures UpTo(NO_BUCKETS, n) == 0
  {
    if n > 0 {
      NothingUpTo(n - 1);
    }
  }

  lemma {:induction false} RunHasAllBuckets(observations: seq<Observation>, route: Route)
    ensures |HistogramOf(Run(observations), route).buckets| == |BUCKETS|
    decreases |observations|
  {
    hide LabelFor, SecondsOf, Increment, BucketFrom;
    if observations != [] {
      RunHasAllBuckets(observations[..|observations| - 1], route);
    }
  }

  /**
   * Each bucket, made cumulative, holds the observations of its route at or below its bound;
   * the count and the sum are over all of them.
   */
  lemma {:induction false} BucketsCountObservations(observations: seq<Observation>, route: Route, i: nat)
    requires i < |BUCKETS|
    ensures |HistogramOf(Run(observations), route).buckets| == |BUCKETS|
    ensures var h, log := HistogramOf(Run(observations), route), Log(observations);
            && UpTo(h.buckets, i + 1) == AtMost(log, route, BUCKETS[i])
            && h.count == OnRoute(log, route) && h.sum == TimeOn(log, route)
            && UpTo(h.buckets, i + 1) <= h.count
    decreases |observations|
  {
    hide Run, Log, HistogramOf, AtMost, OnRoute, TimeOn, UpTo;
    RunHasAllBuckets(observations, route);
    BucketsFollowTheLog(observations, route, i);
    TotalsFollowTheLog(observations, route);
    FewerAreAtMost(Log(observations), route, BUCKETS[i]);
  }

  lemma {:induction false} BucketsFollowTheLog(observations: seq<Observation>, route: Route, i: nat)
    requires i < |BUCKETS| && |HistogramOf(Run(observations), route).buckets| == |BUCKETS|
    ensures UpTo(HistogramOf(Run(observations), route).buckets, i + 1) == AtMost(Log(observations), route, BUCKETS[i])
    decreases |observations|
  {
    hide LabelFor, SecondsOf, Increment, Observed;
    if observations == [] {
      NothingUpTo(i + 1);
    } else {
      var before := observations[..|observations| - 1];
      RunHasAllBuckets(before, route);
      BucketsFollowTheLog(before, route, i);
      var s := Run(before);
      var x := SampleFor(s, observations[|observations| - 1]);
      assert Log(observations)[..|before|] == Log(before);
      ObservingCounts(HistogramOf(s, route), x.seconds, i);
    }
  }

  lemma {:induction false} TotalsFollowTheLog(observations: seq<Observation>, route: Route)
    ensures var h, log := HistogramOf(Run(observations), route), Log(observations);
            h.count == OnRoute(log, route) && h.sum == TimeOn(log, route)
    decreases |observations|
  {
    hide LabelFor, SecondsOf, Increment, BucketFrom;
    if observations != [] {
      var before := observations[..|observations| - 1];
      TotalsFollowTheLog(before, route);
      assert Log(observations)[..|before|] == Log(before);
    }
  }

  lemma {:induction false} FewerAreAtMost(log: seq<Sample>, route: Route, bound: real)
    ensures AtMost(log, route, bound) <= OnRoute(log, route)
  {
    if log != [] {
      FewerAreAtMost(log[..|log| - 1], route, bound);
    }
  }

  // ---- Over the requests themselves ----

  /** What the requests so far make of this one's labels. */
  function LabelAfter(before: seq<Observation>, o: Observation): Series {
    LabelFor(Run(before), o)
  }

  /** It took no longer than this; a duration that is no number counts as none. */
  predicate TookAtMost(o: Observation, bound: real) {
    o.seconds.Finite? ==> o.seconds.value <= bound
  }

  /** The requests that were counted on a route and took at most `bound`. */
  function Within(observations: seq<Observation>, route: Route, bound: real): nat {
    if observations == [] then 0
    else
      var before, o := observations[..|observations| - 1], observations[|observations| - 1];
      Within(before, route, bound) + if LabelAfter(before, o).route == route && TookAtMost(o, bound) then 1 else 0
  }

  /** The time they took together; a clock that went back adds nothing. */
  function Spent(observations: seq<Observation>, route: Route): real {
    if observations == [] then 0.0
    else
      var before, o := observations[..|observations| - 1], observations[|observations| - 1];
      var counts := LabelAfter(before, o).route == route && o.seconds.Finite? && o.seconds.value >= 0.0;
      Spent(before, route) + if counts then o.seconds.value else 0.0
  }

  /** How often a series was labelled so. */
  function Labelled(observations: seq<Observation>, series: Series): nat {
    if observations == [] then 0
    else
      var before, o := observations[..|observations| - 1], observations[|observations| - 1];
      Labelled(before, series) + if LabelAfter(before, o) == series then 1 else 0
  }

  lemma {:induction false} LogTakesTheRequests(observations: seq<Observation>, route: Route, bound: real)
    requires bound >= 0.0
    ensures AtMost(Log(observations), route, bound) == Within(observations, route, bound)
    ensures TimeOn(Log(observations), route) == Spent(observations, route)
    decreases |observations|
  {
    hide LabelFor, Run;
    if observations != [] {
      var before := observations[..|observations| - 1];
      LogTakesTheRequests(before, route, bound);
      assert Log(observations)[..|before|] == Log(before);
    }
  }

  /**
   * Each bucket, made cumulative, is the number of the route's requests that took at most its bound,
   * and the sum is the time they took.
   */
  lemma {:induction false} BucketsCountDurations(observations: seq<Observation>, route: Route, i: nat)
    requires i < |BUCKETS|
    ensures |HistogramOf(Run(observations), route).buckets| == |BUCKETS|
    ensures var h := HistogramOf(Run(observations), route);
            UpTo(h.buckets, i + 1) == Within(observations, route, BUCKETS[i]) && h.sum == Spent(observations, route)
  {
    assert BUCKETS[i] >= 0.0;
    hide Run, Log, HistogramOf, AtMost, TimeOn, UpTo, Within, Spent;
    BucketsCountObservations(observations, route, i);
    LogTakesTheRequests(observations, route, BUCKETS[i]);
  }

  /** Each counter is the number of requests with its labels, and there is one exactly if there is such a request. */
  lemma {:induction false} CountersCountRequests(observations: seq<Observation>, series: Series)
    ensures var counters := Run(observations).counters;
            && (series in counters <==> Labelled(observations, series) > 0)
            && (series in counters ==> counters[series] == Labelled(observations, series))
    decreases |observations|
  {
    hide LabelFor, SecondsOf, Observed, HistogramOf;
    if observations != [] {
      CountersCountRequests(observations[..|observations| - 1], series);
    }
  }

  /**
   * A method is known in any case of its letters and `other` else, a status is itself or 0, and a
   * route is its own below the cap.
   */
  lemma {:induction false} LabelsAre(s: State, o: Observation)
    ensures var known := {"GET", "POST", "PUT", "PATCH", "DELETE", "HEAD", "OPTIONS"};
            var mine := LabelFor(s, o);
            && mine.route.verb == (if Upper(o.verb) in known then Upper(o.verb) else "other")
            && mine.status == (match o.status case Whole(value) => value case NotWhole => 0)
            && (mine.route.route == o.route || mine.route.route == "overflow")
            && (mine.route.route == o.route
                <==> || |s.counters| < 500 || o.route == "overflow"
                     || Series(mine.route.(route := o.route), mine.status) in s.counters)
  {
    hide Upper;
  }

  // ---- The cap ----

  function OwnSeries(counters: map<Series, nat>): set<Series> {
    set series | series in counters && series.route.route != OVERFLOW_ROUTE
  }

  lemma {:induction false} OwnAreCounters(counters: map<Series, nat>)
    ensures |OwnSeries(counters)| <= |counters|
  {
    assert OwnSeries(counters) <= counters.Keys;
    SubsetIsSmaller(OwnSeries(counters), counters.Keys);
  }

  lemma {:induction false} LabelKeepsTheCap(s: State, o: Observation)
    requires |OwnSeries(s.counters)| <= MAX_SERIES
    ensures |OwnSeries(Increment(s.counters, LabelFor(s, o)))| <= MAX_SERIES
  {
    var mine := LabelFor(s, o);
    var after := Increment(s.counters, mine);
    if mine in s.counters || mine.route.route == OVERFLOW_ROUTE {
      assert OwnSeries(after) == OwnSeries(s.counters);
    } else {
      assert after.Keys == s.counters.Keys + {mine};
      OwnAreCounters(after);
    }
  }

  /** Never more than the cap, whatever is requested: anything over it is labelled as overflow. */
  lemma {:induction false} OwnSeriesAreCapped(observations: seq<Observation>)
    ensures |OwnSeries(Run(observations).counters)| <= MAX_SERIES
    decreases |observations|
  {
    hide LabelFor, SecondsOf, Increment, OwnSeries, Observed, HistogramOf;
    if observations == [] {
      NoOwnSeries();
    } else {
      OwnSeriesAreCapped(observations[..|observations| - 1]);
      LabelKeepsTheCap(Run(observations[..|observations| - 1]), observations[|observations| - 1]);
    }
  }

  lemma {:induction false} NoOwnSeries()
    ensures OwnSeries(map[]) == {}
  {
  }

  /**
   * An observation is folded exactly when its own series is new and the cap is reached. So a
   * status a known route answers for the first time is folded then too.
   */
  lemma {:induction false} FoldedExactly(s: State, o: Observation)
    requires o.route != OVERFLOW_ROUTE
    ensures var own := Series(Route(MethodLabel(o.verb), o.route), StatusOf(o));
            LabelFor(s, o).route.route == OVERFLOW_ROUTE <==> own !in s.counters && |s.counters| >= MAX_SERIES
  {
  }

  /** One request to each of `n` routes. */
  function Tour(n: nat): seq<Observation> {
    if n == 0 then [] else Tour(n - 1) + [Visit(n - 1, 200)]
  }

  function Place(i: nat): string {
    "/r/" + Decimal(i)
  }

  function Visit(i: nat, status: int): Observation {
    Observation("GET", Place(i), Whole(status), Finite(0.0))
  }

  function Visited(verb: string, n: nat): set<Series> {
    set i | 0 <= i < n :: Series(Route(verb, Place(i)), 200)
  }

  lemma {:induction false} PlacesAreDistinct(i: nat, j: nat)
    ensures Place(i) == Place(j) ==> i == j
    ensures Place(i) != OVERFLOW_ROUTE
  {
    assert Place(i)[3..] == Decimal(i) && Place(j)[3..] == Decimal(j);
    if Place(i) == Place(j) {
      DecimalIsInjective(i, j);
    }
    assert Place(i)[0] == '/';
  }

  lemma {:induction false} NextPlaceIsNew(s: State, n: nat)
    requires n < MAX_SERIES && s.counters.Keys == Visited(MethodLabel("GET"), n) && |s.counters| == n
    ensures var own := Series(Route(MethodLabel("GET"), Place(n)), 200);
            && LabelFor(s, Visit(n, 200)) == own
            && Increment(s.counters, own).Keys == Visited(MethodLabel("GET"), n + 1)
            && |Increment(s.counters, own)| == n + 1
  {
    hide MethodLabel, Place;
    var verb := MethodLabel("GET");
    var own := Series(Route(verb, Place(n)), 200);
    forall i | 0 <= i < n ensures Place(i) != Place(n) {
      PlacesAreDistinct(i, n);
    }
    assert own !in Visited(verb, n);
    assert Visited(verb, n + 1) == Visited(verb, n) + {own};
    var after := Increment(s.counters, own);
    assert after.Keys == s.counters.Keys + {own};
  }

  lemma {:induction false} TourFillsTheCap(n: nat)
    requires n <= MAX_SERIES
    ensures var s := Run(Tour(n));
            s.counters.Keys == Visited(MethodLabel("GET"), n) && |s.counters| == n
  {
    hide MethodLabel, SecondsOf, Observed, HistogramOf, LabelFor, Increment, Visited, Visit;
    if n == 0 {
      NoVisit();
    } else {
      TourFillsTheCap(n - 1);
      NextPlaceIsNew(Run(Tour(n - 1)), n - 1);
      assert Tour(n)[..|Tour(n)| - 1] == Tour(n - 1);
    }
  }

  lemma {:induction false} NoVisit()
    ensures Visited(MethodLabel("GET"), 0) == {}
  {
  }

  /** At the cap a status a known route answers for the first time is folded, though the route is counted. */
  lemma {:induction false} KnownRouteIsFolded()
    ensures var s := Run(Tour(MAX_SERIES));
            && Series(Route(MethodLabel("GET"), Place(0)), 200) in s.counters
            && LabelFor(s, Visit(0, 404)).route.route == OVERFLOW_ROUTE
  {
    hide MethodLabel, Run, Tour, Place;
    TourFillsTheCap(MAX_SERIES);
    PlacesAreDistinct(0, 0);
    assert Series(Route(MethodLabel("GET"), Place(0)), 200) in Visited(MethodLabel("GET"), MAX_SERIES);
    assert Series(Route(MethodLabel("GET"), Place(0)), 404) !in Visited(MethodLabel("GET"), MAX_SERIES);
  }

  // ---- The printed keys ----

  function IntText(n: int): string {
    if n < 0 then "-" + Decimal(-n) else Decimal(n)
  }

  const NUL := '\0'

  function RouteKey(r: Route): string {
    r.verb + [NUL] + r.route
  }

  function CounterKey(s: Series): string {
    RouteKey(s.route) + [NUL] + IntText(s.status)
  }

  lemma {:induction false} IntTextIsInjective(m: int, n: int)
    ensures NUL !in IntText(m)
    ensures IntText(m) == IntText(n) ==> m == n
  {
    assert IsDigit(Decimal(if m < 0 then -m else m)[0]) && IsDigit(Decimal(if n < 0 then -n else n)[0]);
    if IntText(m) == IntText(n) {
      if m < 0 {
        assert IntText(m)[0] == '-' && n < 0;
        assert IntText(m)[1..] == Decimal(-m) && IntText(n)[1..] == Decimal(-n);
        DecimalIsInjective(-m, -n);
      } else {
        assert n >= 0;
        DecimalIsInjective(m, n);
      }
    }
  }

  /** The printed keys stand for the labels, whatever characters a route has. */
  lemma {:induction false} KeysAreFaithful(s: Series, t: Series)
    requires NUL !in s.route.verb && NUL !in t.route.verb
    ensures CounterKey(s) == CounterKey(t) <==> s == t
    ensures RouteKey(s.route) == RouteKey(t.route) <==> s.route == t.route
  {
    IntTextIsInjective(s.status, t.status);
    IntTextIsInjective(t.status, s.status);
    if CounterKey(s) == CounterKey(t) {
      SplitsAtLast(RouteKey(s.route), RouteKey(t.route), IntText(s.status), IntText(t.status), NUL);
    }
    if RouteKey(s.route) == RouteKey(t.route) {
      SplitsAtFirst(s.route.verb, t.route.verb, s.route.route, t.route.route, NUL);
    }
  }
}
