/**
 * The `/history` handler of server.js: how many steps a range asks for, the
 * constant series returned when base and target coincide, and the series of
 * cross-rates built one fetched document per step otherwise.
 *
 * The outside world is an `Upstream`: `dateAt(i)` is the calendar date `i` steps
 * before now, and `fetch(i, url)` is what fetching and parsing `url` at step `i`
 * produced (`None` when either threw).  A point's timestamp is kept as its age in
 * steps; the cross-rate keeps both rates instead of their rounded quotient.
 */
module History {
  import opened Wrappers
  import opened DateKey
  import opened Rates

  /** What looking `range` up in one of the handler's `daysMap` objects yields. */
  datatype Lookup =
    | Count(n: nat)   // one of the object's own numeric entries
    | Undefined       // no such key
    | Inherited       // a key every object inherits from Object.prototype (a function, or the prototype itself)

  /** The names every plain JavaScript object inherits from Object.prototype. */
  const InheritedKeys: set<string> := {
    "constructor", "hasOwnProperty", "isPrototypeOf", "propertyIsEnumerable",
    "toString", "toLocaleString", "valueOf", "__proto__",
    "__defineGetter__", "__defineSetter__", "__lookupGetter__", "__lookupSetter__"
  }

  /** The day counts for the ranges the front end offers. */
  const NamedRanges: set<string> := {"1W", "1M", "1Y"}

  /** `{ "1W": 7, "1M": 30, "1Y": 365 }[range]` */
  function UnitDays(range: string): Lookup
  {
    if range == "1W" then Count(7)
    else if range == "1M" then Count(30)
    else if range == "1Y" then Count(365)
    else if range in InheritedKeys then Inherited
    else Undefined
  }

  /** `{ "1D": 1, "1W": 7, "1M": 30, "1Y": 365 }[range]` */
  function CrossDays(range: string): Lookup
  {
    if range == "1D" then Count(1) else UnitDays(range)
  }

  /** `days || 1`: zero and `undefined` are falsy, a function or object is truthy. */
  function OrOne(days: Lookup): Lookup
  {
    match days
    case Count(n) => if n == 0 then Count(1) else days
    case Undefined => Count(1)
    case Inherited => days
  }

  /**
   * How often `for (let i = days - 1; i >= 0; i--)` runs: `days` times for a number;
   * for anything else `days - 1` is NaN and the first test already fails.
   */
  function Iterations(days: Lookup): nat
  {
    match days
    case Count(n) => n
    case _ => 0
  }

  /** Steps of the cross-rate loop: 1, 7, 30, 365 for the four ranges, 1 for any other, none for an inherited name. */
  function CrossStepCount(range: string): (n: nat)
    ensures n <= 365
    ensures n == 0 <==> range in InheritedKeys
    ensures n == 1 <==> range == "1D" || (range !in NamedRanges && range !in InheritedKeys)
    ensures range == "1W" ==> n == 7
    ensures range == "1M" ==> n == 30
    ensures range == "1Y" ==> n == 365
  {
    Iterations(OrOne(CrossDays(range)))
  }

  /** Points of the constant series: 25 hourly points for "1D", the day count for the named ranges, none otherwise. */
  function UnitSeriesLength(range: string): (n: nat)
    ensures range == "1D" ==> n == 25
    ensures range in NamedRanges ==> n == CrossStepCount(range)
    ensures range == "1W" ==> n == 7
    ensures range == "1M" ==> n == 30
    ensures range == "1Y" ==> n == 365
    ensures range != "1D" && range !in NamedRanges ==> n == 0
  {
    if range == "1D" then 25 else Iterations(UnitDays(range))
  }

  /** A point's timestamp, as its distance back from now: hours for "1D", days otherwise. */
  datatype When = HoursAgo(hours: nat) | DaysAgo(days: nat)

  function Age(w: When): nat
  {
    match w
    case HoursAgo(h) => h
    case DaysAgo(d) => d
  }

  function StepWhen(range: string, i: nat): (w: When)
    ensures Age(w) == i
    ensures w.HoursAgo? <==> range == "1D"
  {
    if range == "1D" then HoursAgo(i) else DaysAgo(i)
  }

  /** The rate of a point: exactly 1, or the quotient target/base of two looked-up rates. */
  datatype Quote = UnitRate | CrossRate(base: Rate, target: Rate)

  datatype Point = Point(when: When, quote: Quote)

  /** The query parameters, `None` where the query string leaves one out. */
  datatype Query = Query(baseCurrency: Option<string>, targetCurrency: Option<string>, range: Option<string>)

  /** The parameters after destructuring with their defaults. */
  datatype Request = Request(base: string, target: string, range: string)

  function OrDefault(o: Option<string>, default: string): string
  {
    match o
    case Some(v) => v
    case None => default
  }

  /** `const { baseCurrency = "TRY", targetCurrency = "USD", range = "1D" } = req.query` */
  function Resolve(q: Query): (r: Request)
    ensures q.baseCurrency.None? ==> r.base == "TRY"
    ensures q.targetCurrency.None? ==> r.target == "USD"
    ensures q.range.None? ==> r.range == "1D"
    ensures q.baseCurrency.Some? ==> r.base == q.baseCurrency.value
    ensures q.targetCurrency.Some? ==> r.target == q.targetCurrency.value
    ensures q.range.Some? ==> r.range == q.range.value
  {
    Request(OrDefault(q.baseCurrency, "TRY"), OrDefault(q.targetCurrency, "USD"), OrDefault(q.range, "1D"))
  }

  /** The world outside the handler: the calendar and the fetch-and-parse of one document. */
  datatype Upstream = Upstream(dateAt: nat -> CalendarDate, fetch: (nat, string) -> Option<seq<Entry>>)

  /** The currency list step `i` works on, or `None` when fetching or parsing its document failed. */
  function Fetched(req: Request, up: Upstream, i: nat): Option<seq<Entry>>
  {
    up.fetch(i, DocumentUrl(req.range, up.dateAt(i)))
  }

  /** The point step `i` contributes: none when its document failed or either rate is missing. */
  function StepPoint(req: Request, up: Upstream, i: nat): (p: Option<Point>)
    ensures p.Some? <==>
      && Fetched(req, up, i).Some?
      && RateOf(Fetched(req, up, i).value, req.base).Some?
      && RateOf(Fetched(req, up, i).value, req.target).Some?
    ensures p.Some? ==> Age(p.value.when) == i && p.value.quote.CrossRate?
    ensures p.Some? ==> p.value.quote.base == RateOf(Fetched(req, up, i).value, req.base).value
    ensures p.Some? ==> p.value.quote.target == RateOf(Fetched(req, up, i).value, req.target).value
  {
    match Fetched(req, up, i)
    case None => None
    case Some(entries) =>
      var baseRate := RateOf(entries, req.base);
      var targetRate := RateOf(entries, req.target);
      if baseRate.None? || targetRate.None? then None
      else Some(Point(StepWhen(req.range, i), CrossRate(baseRate.value, targetRate.value)))
  }

  function AsSeq(p: Option<Point>): seq<Point>
  {
    match p
    case None => []
    case Some(x) => [x]
  }

  /** Step `i`'s point, as a function of the step. */
  function PointOf(req: Request, up: Upstream): nat -> Option<Point>
  {
    (i: nat) => StepPoint(req, up, i)
  }

  /** The points of steps `hi - 1` down to `lo`, in that order: what the loop has pushed once it reaches `lo`. */
  function Steps(point: nat -> Option<Point>, hi: nat, lo: nat): seq<Point>
    decreases hi - lo
  {
    if lo >= hi then [] else Steps(point, hi, lo + 1) + AsSeq(point(lo))
  }

  /** The series the cross-rate loop returns. */
  function CrossSeries(req: Request, up: Upstream): seq<Point>
  {
    Steps(PointOf(req, up), CrossStepCount(req.range), 0)
  }

  /** The constant series for base == target: every point 1, oldest first. */
  method BuildUnitSeries(range: string) returns (history: seq<Point>)
    ensures |history| == UnitSeriesLength(range)
    ensures forall k :: 0 <= k < |history| ==> history[k].quote == UnitRate
    ensures forall k :: 0 <= k < |history| ==> history[k].when == StepWhen(range, |history| - 1 - k)
  {
    history := [];
    if range == "1D" {
      for i := 25 downto 0
        invariant |history| == 25 - i
        invariant forall k :: 0 <= k < |history| ==> history[k] == Point(HoursAgo(24 - k), UnitRate)
      {
        history := history + [Point(HoursAgo(i), UnitRate)];
      }
    } else {
      var days := Iterations(UnitDays(range));
      for i := days downto 0
        invariant |history| == days - i
        invariant forall k :: 0 <= k < |history| ==> history[k] == Point(DaysAgo(days - 1 - k), UnitRate)
      {
        history := history + [Point(DaysAgo(i), UnitRate)];
      }
    }
  }

  /** The cross-rate loop: one step per day (or the single "1D" step), oldest first, failed steps skipped. */
  method BuildCrossSeries(req: Request, up: Upstream) returns (history: seq<Point>)
    ensures history == CrossSeries(req, up)
  {
    var days := CrossStepCount(req.range);
    history := [];
    for i := days downto 0
      invariant history == Steps(PointOf(req, up), days, i)
    {
      var url := DocumentUrl(req.range, up.dateAt(i));
      var fetched := up.fetch(i, url);
      if fetched.None? {
        continue;
      }
      var baseRate := RateOf(fetched.value, req.base);
      var targetRate := RateOf(fetched.value, req.target);
      if baseRate.None? || targetRate.None? {
        continue;
      }
      history := history + [Point(StepWhen(req.range, i), CrossRate(baseRate.value, targetRate.value))];
    }
  }

  /** `GET /history`: the constant series when both currencies coincide, the cross-rate series otherwise. */
  method HandleHistory(query: Query, up: Upstream) returns (history: seq<Point>)
    ensures var req := Resolve(query);
      req.base == req.target ==>
        && |history| == UnitSeriesLength(req.range)
        && (forall k :: 0 <= k < |history| ==> history[k].quote == UnitRate)
        && (forall k :: 0 <= k < |history| ==> history[k].when == StepWhen(req.range, |history| - 1 - k))
    ensures var req := Resolve(query);
      req.base != req.target ==>
        && history == CrossSeries(req, up)
        && |history| <= CrossStepCount(req.range)
        && forall k :: 0 <= k < |history| ==> history[k].quote.CrossRate?
  {
    var req := Resolve(query);
    if req.base == req.target {
      history := BuildUnitSeries(req.range);
    } else {
      history := BuildCrossSeries(req, up);
      CrossSeriesShape(req, up);
    }
  }

  // ---------------------------------------------------------------------------
  // Properties of the cross-rate series

  /** Step functions whose points carry their own step as age. */
  ghost predicate AgedByStep(point: nat -> Option<Point>)
  {
    forall i: nat :: point(i).Some? ==> Age(point(i).value.when) == i
  }

  /** At most one point per step; points come oldest first (ages strictly fall), every age one of the steps walked. */
  lemma {:induction false} SeriesShape(point: nat -> Option<Point>, hi: nat, lo: nat)
    requires lo <= hi && AgedByStep(point)
    ensures var s := Steps(point, hi, lo);
      && |s| <= hi - lo
      && (forall k :: 0 <= k < |s| ==> lo <= Age(s[k].when) < hi)
      && (forall k, l :: 0 <= k < l < |s| ==> Age(s[k].when) > Age(s[l].when))
    decreases hi - lo
  {
    if lo < hi {
      SeriesShape(point, hi, lo + 1);
    }
  }

  /** A point is in the series exactly when some step walked produced it. */
  lemma SeriesMembers(point: nat -> Option<Point>, hi: nat, lo: nat, p: Point)
    ensures p in Steps(point, hi, lo) <==> exists i :: lo <= i < hi && point(i) == Some(p)
  {
    if p in Steps(point, hi, lo) {
      SeriesPointHasStep(point, hi, lo, p);
    }
    if exists i :: lo <= i < hi && point(i) == Some(p) {
      var i :| lo <= i < hi && point(i) == Some(p);
      StepPointInSeries(point, hi, lo, i);
    }
  }

  /** Every step that produced a point contributes it to the series. */
  lemma {:induction false} StepPointInSeries(point: nat -> Option<Point>, hi: nat, lo: nat, i: nat)
    requires lo <= i < hi && point(i).Some?
    ensures point(i).value in Steps(point, hi, lo)
    decreases hi - lo
  {
    if i > lo {
      StepPointInSeries(point, hi, lo + 1, i);
    }
  }

  /** Every point of the series was produced by one of the steps walked. */
  lemma {:induction false} SeriesPointHasStep(point: nat -> Option<Point>, hi: nat, lo: nat, p: Point)
    requires p in Steps(point, hi, lo)
    ensures exists i :: lo <= i < hi && point(i) == Some(p)
    decreases hi - lo
  {
    if p in Steps(point, hi, lo + 1) {
      SeriesPointHasStep(point, hi, lo + 1, p);
    } else {
      assert point(lo) == Some(p);
    }
  }

  /** Without failures there are no gaps: every step contributes its point. */
  lemma {:induction false} SeriesWithoutGaps(point: nat -> Option<Point>, hi: nat, lo: nat)
    requires lo <= hi
    requires forall i :: lo <= i < hi ==> point(i).Some?
    ensures |Steps(point, hi, lo)| == hi - lo
    decreases hi - lo
  {
    if lo < hi {
      SeriesWithoutGaps(point, hi, lo + 1);
    }
  }

  /**
   * The cross series has at most one point per step, oldest first, each a
   * cross-rate; with "TRY" as base every point's base rate is exactly 1.
   */
  lemma CrossSeriesShape(req: Request, up: Upstream)
    ensures var s := CrossSeries(req, up);
      && |s| <= CrossStepCount(req.range)
      && (forall k, l :: 0 <= k < l < |s| ==> Age(s[k].when) > Age(s[l].when))
      && (forall k :: 0 <= k < |s| ==> s[k].quote.CrossRate?)
      && (req.base == LocalCode ==> forall k :: 0 <= k < |s| ==> s[k].quote.base == One)
  {
    var point, n := PointOf(req, up), CrossStepCount(req.range);
    var s := Steps(point, n, 0);
    assert AgedByStep(point);
    SeriesShape(point, n, 0);
    forall k | 0 <= k < |s|
      ensures s[k].quote.CrossRate?
      ensures req.base == LocalCode ==> s[k].quote.base == One
    {
      SeriesPointHasStep(point, n, 0, s[k]);
    }
  }

  /** A point is in the cross series exactly when a step walked had its document and both rates. */
  lemma CrossSeriesMembers(req: Request, up: Upstream, p: Point)
    ensures p in CrossSeries(req, up) <==>
      exists i :: 0 <= i < CrossStepCount(req.range) && StepPoint(req, up, i) == Some(p)
  {
    var point := PointOf(req, up);
    SeriesMembers(point, CrossStepCount(req.range), 0, p);
    assert forall i :: point(i) == StepPoint(req, up, i);
  }

  /** When every step's document arrives with both rates, the series has one point per step. */
  lemma CrossSeriesWithoutGaps(req: Request, up: Upstream)
    requires forall i :: 0 <= i < CrossStepCount(req.range) ==>
      && Fetched(req, up, i).Some?
      && RateOf(Fetched(req, up, i).value, req.base).Some?
      && RateOf(Fetched(req, up, i).value, req.target).Some?
    ensures |CrossSeries(req, up)| == CrossStepCount(req.range)
  {
    SeriesWithoutGaps(PointOf(req, up), CrossStepCount(req.range), 0);
  }

  /**
   * "1D" does not walk back through the hours: it is a single step on today's
   * document, so the series has at most one point.
   */
  lemma OneDayIsOneStep(req: Request, up: Upstream)
    requires req.range == "1D"
    ensures CrossSeries(req, up) == AsSeq(StepPoint(req, up, 0))
    ensures Fetched(req, up, 0) == up.fetch(0, TodayUrl)
  {
    assert CrossStepCount(req.range) == 1;
    assert Steps(PointOf(req, up), 1, 0) == [] + AsSeq(StepPoint(req, up, 0));
  }

  /**
   * A range the handler does not know is not an error: it takes one step, on the
   * archive document of today's date.
   */
  lemma UnknownRangeIsOneArchiveStep(req: Request, up: Upstream)
    requires req.range != "1D" && req.range !in NamedRanges && req.range !in InheritedKeys
    requires ValidDate(up.dateAt(0)) && FourDigitYear(up.dateAt(0))
    ensures CrossSeries(req, up) == AsSeq(StepPoint(req, up, 0))
    ensures Fetched(req, up, 0) == up.fetch(0, DocumentUrl(req.range, up.dateAt(0)))
    ensures ParseArchiveUrl(DocumentUrl(req.range, up.dateAt(0))) == Some(up.dateAt(0))
  {
    assert CrossStepCount(req.range) == 1;
    assert Steps(PointOf(req, up), 1, 0) == [] + AsSeq(StepPoint(req, up, 0));
    ArchiveUrlRoundTrip(req.range, up.dateAt(0));
  }
}
