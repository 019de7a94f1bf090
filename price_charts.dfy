/**
 * Synthetic price series and chart coordinates (utils/formatCharData.ts).
 *
 * Prices are reals. The draws of `Math.random()` are an input: draw `i`
 * (in [0, 1)) makes the factor of step `i + 1`. The calendar functions
 * behind `new Date(text)` and `toISOString().split("T")[0]` are the
 * parameters `DateOps`. The five tables computed when the module loads
 * are passed in as `Tables`; `PresetTables` says how they are made.
 */
module PriceCharts {
  import opened Results
  import opened Reals

  const STEPS: nat := 20

  /** `1 + (Math.random() * 2 - 1) * volatility`, with the draw supplied. */
  function RandomFactor(draw: real, volatility: real): (f: real)
    ensures 0.0 <= draw < 1.0 && volatility >= 0.0 ==> 1.0 - volatility <= f <= 1.0 + volatility
  {
    var spread := draw * 2.0 - 1.0;
    assert volatility >= 0.0 && -1.0 <= spread <= 1.0 ==> -volatility <= spread * volatility <= volatility by {
      if volatility >= 0.0 && -1.0 <= spread <= 1.0 {
        assert (spread + 1.0) * volatility >= 0.0;
        assert (1.0 - spread) * volatility >= 0.0;
      }
    }
    1.0 + spread * volatility
  }

  /**
   * `(end - start) / (steps - 1)`. With `steps == 1` JavaScript divides by
   * zero (±Infinity or NaN), but then the loop never reads the value; the
   * model puts 0 there.
   */
  function AverageStepGrowth(start: real, end: real, steps: int): real {
    if steps == 1 then 0.0 else (end - start) / ((steps - 1) as real)
  }

  /** The first `n` values the loop pushes, before the last one is overwritten. */
  function Walk(start: real, end: real, growth: real, volatility: real, draws: seq<real>, n: nat): (w: seq<real>)
    requires 1 <= n <= |draws| + 1
    ensures |w| == n && w[0] == start
  {
    if n == 1 then [start]
    else
      var w := Walk(start, end, growth, volatility, draws, n - 1);
      w + [Min(w[n - 2] + growth * RandomFactor(draws[n - 2], volatility), end)]
  }

  /** A shorter walk is a prefix of a longer one. */
  lemma {:induction false} WalkPrefix(start: real, end: real, growth: real, volatility: real, draws: seq<real>, m: nat, n: nat)
    requires 1 <= m <= n <= |draws| + 1
    ensures Walk(start, end, growth, volatility, draws, n)[..m] == Walk(start, end, growth, volatility, draws, m)
    decreases n
  {
    var w := Walk(start, end, growth, volatility, draws, n);
    if m < n {
      WalkPrefix(start, end, growth, volatility, draws, m, n - 1);
      var w' := Walk(start, end, growth, volatility, draws, n - 1);
      assert w[..n - 1] == w';
      assert w[..m] == w'[..m];
    }
  }

  /** Each value after the first is the previous one plus the growth scaled by its factor, capped at `end`. */
  lemma WalkStep(start: real, end: real, growth: real, volatility: real, draws: seq<real>, n: nat, i: nat)
    requires 1 <= i < n <= |draws| + 1
    ensures var w := Walk(start, end, growth, volatility, draws, n);
      w[i] == Min(w[i - 1] + growth * RandomFactor(draws[i - 1], volatility), end)
  {
    WalkPrefix(start, end, growth, volatility, draws, i + 1, n);
    var w := Walk(start, end, growth, volatility, draws, n);
    var u := Walk(start, end, growth, volatility, draws, i + 1);
    assert w[i] == u[i] && w[i - 1] == u[i - 1];
  }

  /** One more round appends the capped next value to the walk. */
  lemma WalkExtend(start: real, end: real, growth: real, volatility: real, draws: seq<real>, n: nat,
                    previous: real, factor: real, next: real)
    requires 1 <= n <= |draws|
    requires previous == Walk(start, end, growth, volatility, draws, n)[n - 1]
    requires factor == RandomFactor(draws[n - 1], volatility)
    requires next == previous + growth * factor
    ensures Walk(start, end, growth, volatility, draws, n + 1)
      == Walk(start, end, growth, volatility, draws, n) + [Min(next, end)]
  {
    var w := Walk(start, end, growth, volatility, draws, n);
    var scaled := growth * RandomFactor(draws[n - 1], volatility);
    assert growth * factor == scaled;
    assert next == w[n - 1] + scaled;
    assert Walk(start, end, growth, volatility, draws, n + 1) == w + [Min(w[n - 1] + scaled, end)];
  }

  /** No value after the first exceeds `end`. */
  lemma WalkCapped(start: real, end: real, growth: real, volatility: real, draws: seq<real>, n: nat)
    requires 1 <= n <= |draws| + 1
    ensures forall i :: 1 <= i < n ==> Walk(start, end, growth, volatility, draws, n)[i] <= end
  {
    forall i | 1 <= i < n
      ensures Walk(start, end, growth, volatility, draws, n)[i] <= end
    {
      WalkStep(start, end, growth, volatility, draws, n, i);
    }
  }

  /** What `generateRandomPrice` returns: the walk, with its last slot set to `end`. */
  function GeneratedPrices(start: real, end: real, steps: int, volatility: real, draws: seq<real>): (values: seq<real>)
    requires |draws| >= steps - 1
    ensures |values| == if steps >= 1 then steps else 1
  {
    var n := if steps >= 1 then steps else 1;
    var w := Walk(start, end, AverageStepGrowth(start, end, steps), volatility, draws, n);
    w[n - 1 := end]
  }

  /** `generateRandomPrice` (lines 68-95); draw `i - 1` is the `Math.random()` of round `i`. */
  method GenerateRandomPrice(start: real, end: real, steps: int, draws: seq<real>, volatility: real := 0.02)
    returns (values: seq<real>)
    requires |draws| >= steps - 1
    ensures values == GeneratedPrices(start, end, steps, volatility, draws)
  {
    values := [start];
    var averageStepGrowth := AverageStepGrowth(start, end, steps);
    var i := 1;
    while i < steps
      invariant 1 <= i <= (if steps >= 1 then steps else 1)
      invariant values == Walk(start, end, averageStepGrowth, volatility, draws, i)
    {
      var previous := values[i - 1];
      var randomFactor := RandomFactor(draws[i - 1], volatility);
      var nextValue := previous + averageStepGrowth * randomFactor;
      WalkExtend(start, end, averageStepGrowth, volatility, draws, i, previous, randomFactor, nextValue);
      values := values + [Min(nextValue, end)];
      i := i + 1;
    }
    values := values[|values| - 1 := end];
  }

  /**
   * `steps` values for `steps >= 1` and `[end]` otherwise, never an error;
   * the last is exactly `end`, the first is `start` when there are at least
   * two, and none after the first exceeds `end`.
   */
  lemma PricesShape(start: real, end: real, steps: int, volatility: real, draws: seq<real>)
    requires |draws| >= steps - 1
    ensures var values := GeneratedPrices(start, end, steps, volatility, draws);
      && |values| == (if steps >= 1 then steps else 1)
      && values[|values| - 1] == end
      && (steps <= 1 ==> values == [end])
      && (steps >= 2 ==> values[0] == start)
      && (forall i :: 1 <= i < |values| ==> values[i] <= end)
  {
    var n := if steps >= 1 then steps else 1;
    WalkCapped(start, end, AverageStepGrowth(start, end, steps), volatility, draws, n);
  }

  /**
   * Every value strictly between the first and the last is the previous
   * one plus the average step growth scaled by its factor, capped at `end`;
   * for draws in [0, 1) and a non-negative volatility `v` the factor lies
   * in [1 - v, 1 + v].
   */
  lemma PricesRecurrence(start: real, end: real, steps: int, volatility: real, draws: seq<real>, i: int)
    requires |draws| >= steps - 1 && 1 <= i < steps - 1
    ensures var values := GeneratedPrices(start, end, steps, volatility, draws);
      var factor := RandomFactor(draws[i - 1], volatility);
      && values[i] == Min(values[i - 1] + (end - start) / ((steps - 1) as real) * factor, end)
      && (0.0 <= draws[i - 1] < 1.0 && volatility >= 0.0 ==> 1.0 - volatility <= factor <= 1.0 + volatility)
  {
    var w := Walk(start, end, AverageStepGrowth(start, end, steps), volatility, draws, steps);
    var values := GeneratedPrices(start, end, steps, volatility, draws);
    assert values[i] == w[i] && values[i - 1] == w[i - 1];
    WalkStep(start, end, AverageStepGrowth(start, end, steps), volatility, draws, steps, i);
  }

  /** With no volatility and `end >= start` the series is the straight line from `start` to `end`. */
  lemma ZeroVolatilityIsLinear(start: real, end: real, steps: int, draws: seq<real>, i: int)
    requires |draws| >= steps - 1 && steps >= 2 && end >= start && 0 <= i < steps
    ensures GeneratedPrices(start, end, steps, 0.0, draws)[i]
            == start + (i as real) * (end - start) / ((steps - 1) as real)
  {
    var k := (steps - 1) as real;
    var d := end - start;
    var growth := AverageStepGrowth(start, end, steps);
    assert growth == d / k;
    GrowthSpansRange(d, k);
    assert start + k * growth == end;
    ScaledQuotient(i as real, d, k);
    var x := (i as real) * (end - start) / ((steps - 1) as real);
    assert x == (i as real) * growth;
    var values := GeneratedPrices(start, end, steps, 0.0, draws);
    if i == steps - 1 {
      assert values[i] == end;
      assert start + x == end;
    } else {
      WalkIsLinear(start, end, growth, draws, steps, i);
      assert values[i] == Walk(start, end, growth, 0.0, draws, steps)[i];
      assert values[i] == start + x;
    }
  }

  /** The average step growth times the number of steps covers the range, and is non-negative. */
  lemma GrowthSpansRange(d: real, k: real)
    requires k > 0.0 && d >= 0.0
    ensures d / k * k == d && d / k >= 0.0
  {
  }

  lemma ScaledQuotient(a: real, d: real, k: real)
    requires k > 0.0
    ensures a * d / k == a * (d / k)
  {
    var q := d / k;
    assert d == q * k;
    assert a * d == (a * q) * k;
  }

  lemma {:induction false} WalkIsLinear(start: real, end: real, growth: real, draws: seq<real>, n: nat, i: nat)
    requires 1 <= n <= |draws| + 1 && i < n && growth >= 0.0
    requires start + ((n - 1) as real) * growth <= end
    ensures Walk(start, end, growth, 0.0, draws, n)[i] == start + (i as real) * growth
  {
    WalkLastIsLinear(start, end, growth, draws, i);
    WalkPrefix(start, end, growth, 0.0, draws, i + 1, n);
    var w := Walk(start, end, growth, 0.0, draws, n);
    var u := Walk(start, end, growth, 0.0, draws, i + 1);
    var x := start + (i as real) * growth;
    assert u[i] == x;
    assert w[..i + 1] == u;
    assert w[i] == u[i];
  }

  lemma {:induction false} WalkLastIsLinear(start: real, end: real, growth: real, draws: seq<real>, i: nat)
    requires i <= |draws| && growth >= 0.0
    requires start + (i as real) * growth <= end
    ensures Walk(start, end, growth, 0.0, draws, i + 1)[i] == start + (i as real) * growth
    decreases i
  {
    if i > 0 {
      MultipleMonotone(i - 1, i, growth);
      WalkLastIsLinear(start, end, growth, draws, i - 1);
      assert RandomFactor(draws[i - 1], 0.0) == 1.0;
      NextMultiple(i, growth);
    }
  }

  lemma MultipleMonotone(a: int, b: int, g: real)
    requires a <= b && g >= 0.0
    ensures (a as real) * g <= (b as real) * g
  {
    assert (b as real) * g - (a as real) * g == ((b - a) as real) * g;
  }

  lemma NextMultiple(i: int, g: real)
    ensures ((i - 1) as real) * g + g * 1.0 == (i as real) * g
  {
  }

  /** The five price tables, computed once when the module loads. */
  datatype Tables = Tables(daily: seq<real>, weekly: seq<real>, monthly: seq<real>, yearly: seq<real>, allTime: seq<real>)

  predicate TablesShaped(t: Tables) {
    |t.daily| == STEPS && |t.weekly| == STEPS && |t.monthly| == STEPS && |t.yearly| == STEPS && |t.allTime| == STEPS
  }

  /** Lines 99-103: each table from its own presets, with its own draws. */
  function PresetTables(draws: seq<seq<real>>): (t: Tables)
    requires |draws| >= 5 && forall k :: 0 <= k < 5 ==> |draws[k]| >= STEPS - 1
    ensures TablesShaped(t)
    ensures t.daily[STEPS - 1] == 5.3 && t.weekly[STEPS - 1] == 50.0 && t.monthly[STEPS - 1] == 80.5
    ensures t.yearly[STEPS - 1] == 40.5 && t.allTime[STEPS - 1] == 49.5
    ensures t.daily[0] == 2.0 && t.weekly[0] == 0.3 && t.monthly[0] == 4.0
    ensures t.yearly[0] == 1.4 && t.allTime[0] == 0.3
  {
    PricesShape(2.0, 5.3, STEPS, 11.0, draws[0]);
    PricesShape(0.3, 50.0, STEPS, 8.3, draws[1]);
    PricesShape(4.0, 80.5, STEPS, 14.2, draws[2]);
    PricesShape(1.4, 40.5, STEPS, 20.0, draws[3]);
    PricesShape(0.3, 49.5, STEPS, 14.5, draws[4]);
    Tables(GeneratedPrices(2.0, 5.3, STEPS, 11.0, draws[0]),
           GeneratedPrices(0.3, 50.0, STEPS, 8.3, draws[1]),
           GeneratedPrices(4.0, 80.5, STEPS, 14.2, draws[2]),
           GeneratedPrices(1.4, 40.5, STEPS, 20.0, draws[3]),
           GeneratedPrices(0.3, 49.5, STEPS, 14.5, draws[4]))
  }

  /**
   * `new Date(text).getTime()`, `None` for an Invalid Date (whose time is
   * NaN; how a text such as "2025-3-31" is read is up to the engine), and
   * the day part `toISOString().split("T")[0]` of a time value in range.
   * The model does not define either.
   */
  datatype DateOps = DateOps(parse: string -> Option<int>, isoDay: int -> string)

  /** The largest time value a `Date` holds, in milliseconds either side of the epoch. */
  const MaxTime: int := 8_640_000_000_000_000

  /**
   * `getRandomDate` (lines 63-66): despite its name, the day that lies
   * `end - start` milliseconds after the epoch. A NaN or out-of-range time
   * makes `new Date` an Invalid Date, and its `toISOString` throws a RangeError.
   */
  function RandomDate(dates: DateOps, startTime: Option<int>, endTime: Option<int>): (r: Result<string>)
    ensures r.Ok? <==> startTime.Some? && endTime.Some? && -MaxTime <= endTime.value - startTime.value <= MaxTime
    ensures r.Err? ==> r.message == "RangeError"
  {
    if startTime.None? || endTime.None? then Err("RangeError")
    else
      var t := endTime.value - startTime.value;
      if t < -MaxTime || t > MaxTime then Err("RangeError") else Ok(dates.isoDay(t))
  }

  /** The label depends only on the distance between the anchors, not on where they are. */
  lemma RandomDateDependsOnDistance(dates: DateOps, startTime: int, endTime: int, shift: int)
    ensures RandomDate(dates, Some(startTime + shift), Some(endTime + shift)) == RandomDate(dates, Some(startTime), Some(endTime))
  {
  }

  /** `getRandomDate(new Date(first), new Date(last))`. */
  function AnchorLabel(dates: DateOps, first: string, last: string): Result<string> {
    RandomDate(dates, dates.parse(first), dates.parse(last))
  }

  /** The fixed anchors of the `zero` series and of `getRandomCoords`. */
  const FixedStart: string := "2024-01-01"
  const FixedEnd: string := "2025-3-31"

  datatype Coordinate = Coordinate(x: string, y: real)

  datatype DailyPrice = DailyPrice(date: string, price: real)
  datatype WeeklyPrice = WeeklyPrice(weekEnding: string, avgPrice: real)
  datatype MonthlyPrice = MonthlyPrice(month: string, avgPrice: real)
  datatype YearlyPrice = YearlyPrice(year: string, startPrice: real, endPrice: real, high: real, low: real,
                                     currentPrice: Option<real>)
  datatype TimelinePoint = TimelinePoint(date: string, price: real)
  datatype AllTimeData = AllTimeData(inceptionDate: string, inceptionPrice: real, priceTimeline: seq<TimelinePoint>)
  datatype PriceData = PriceData(daily: seq<DailyPrice>, weekly: seq<WeeklyPrice>, monthly: seq<MonthlyPrice>,
                                 yearly: seq<YearlyPrice>, allTime: AllTimeData)

  datatype GraphData = GraphData(daily: seq<Coordinate>, weekly: seq<Coordinate>, monthly: seq<Coordinate>,
                                 yearly: seq<Coordinate>, allTime: seq<Coordinate>, zero: seq<Coordinate>)

  /** Every point has the y of the table at its index, and one x label shared by the whole series. */
  ghost predicate SeriesOf(coords: seq<Coordinate>, xLabel: string, ys: seq<real>) {
    && |coords| == STEPS == |ys|
    && (forall i :: 0 <= i < STEPS ==> coords[i].y == ys[i])
    && (forall i :: 0 <= i < STEPS ==> coords[i].x == xLabel)
  }

  /**
   * `Array.from({ length: STEPS }, (_, i) => ({ x: getRandomDate(first, last), y: ys[i] }))`.
   * Every point calls `getRandomDate` on the same anchors, so the first
   * call throws exactly when any would.
   */
  function Series(dates: DateOps, first: string, last: string, ys: seq<real>): (r: Result<seq<Coordinate>>)
    requires |ys| == STEPS
    ensures r.Err? <==> AnchorLabel(dates, first, last).Err?
    ensures r.Err? ==> r.message == "RangeError"
    ensures r.Ok? ==> SeriesOf(r.value, AnchorLabel(dates, first, last).value, ys)
  {
    if AnchorLabel(dates, first, last).Err? then Err("RangeError")
    else Ok(seq(STEPS, i requires 0 <= i < STEPS => Coordinate(AnchorLabel(dates, first, last).value, ys[i])))
  }

  /** The series reading a price history whose first or last entry is missing. */
  predicate MissingEntry(priceData: PriceData) {
    || |priceData.daily| == 0 || |priceData.weekly| == 0 || |priceData.monthly| == 0
    || |priceData.yearly| == 0 || |priceData.allTime.priceTimeline| == 0
  }

  /** The anchor dates of every series give a date label. */
  predicate AnchorsParse(p: PriceData, dates: DateOps)
    requires !MissingEntry(p)
  {
    && AnchorLabel(dates, p.daily[0].date, p.daily[|p.daily| - 1].date).Ok?
    && AnchorLabel(dates, p.weekly[0].weekEnding, p.weekly[|p.weekly| - 1].weekEnding).Ok?
    && AnchorLabel(dates, p.monthly[0].month, p.monthly[|p.monthly| - 1].month).Ok?
    && AnchorLabel(dates, p.yearly[0].year, p.yearly[|p.yearly| - 1].year).Ok?
    && AnchorLabel(dates, p.allTime.inceptionDate, p.allTime.priceTimeline[|p.allTime.priceTimeline| - 1].date).Ok?
    && AnchorLabel(dates, FixedStart, FixedEnd).Ok?
  }

  function Zeros(): (z: seq<real>)
    ensures |z| == STEPS && forall i :: 0 <= i < STEPS ==> z[i] == 0.0
  {
    seq(STEPS, _ => 0.0)
  }

  /**
   * `getPriceCoordinates` (lines 112-182). The series are built in order;
   * reading the date of the first or last entry of an empty history throws
   * a TypeError, and an anchor without a date label a RangeError, and the
   * first series to throw decides the error. `useTimestamps` is accepted
   * and ignored by the source, so it is left out.
   */
  function GetPriceCoordinates(priceData: PriceData, tables: Tables, dates: DateOps): (g: Result<GraphData>)
    requires TablesShaped(tables)
    ensures g.Ok? <==> !MissingEntry(priceData) && AnchorsParse(priceData, dates)
    ensures g.Err? ==> g.message == "TypeError" || g.message == "RangeError"
    ensures |priceData.daily| == 0 ==> g == Err("TypeError")
  {
    var p := priceData;
    var daily := if |p.daily| == 0 then Err("TypeError")
      else Series(dates, p.daily[0].date, p.daily[|p.daily| - 1].date, tables.daily);
    var weekly := if |p.weekly| == 0 then Err("TypeError")
      else Series(dates, p.weekly[0].weekEnding, p.weekly[|p.weekly| - 1].weekEnding, tables.weekly);
    var monthly := if |p.monthly| == 0 then Err("TypeError")
      else Series(dates, p.monthly[0].month, p.monthly[|p.monthly| - 1].month, tables.monthly);
    var yearly := if |p.yearly| == 0 then Err("TypeError")
      else Series(dates, p.yearly[0].year, p.yearly[|p.yearly| - 1].year, tables.yearly);
    var allTime := if |p.allTime.priceTimeline| == 0 then Err("TypeError")
      else Series(dates, p.allTime.inceptionDate, p.allTime.priceTimeline[|p.allTime.priceTimeline| - 1].date,
                  tables.allTime);
    var zero := Series(dates, FixedStart, FixedEnd, Zeros());
    if daily.Err? then Err(daily.message)
    else if weekly.Err? then Err(weekly.message)
    else if monthly.Err? then Err(monthly.message)
    else if yearly.Err? then Err(yearly.message)
    else if allTime.Err? then Err(allTime.message)
    else if zero.Err? then Err(zero.message)
    else Ok(GraphData(daily.value, weekly.value, monthly.value, yearly.value, allTime.value, zero.value))
  }

  /**
   * Six series of STEPS points: the five tables as y values, zeros in
   * `zero`, and in each series a single x label, that of its two anchor dates.
   */
  lemma PriceCoordinatesShape(priceData: PriceData, tables: Tables, dates: DateOps)
    requires TablesShaped(tables) && !MissingEntry(priceData) && AnchorsParse(priceData, dates)
    ensures var g := GetPriceCoordinates(priceData, tables, dates).value;
      var p := priceData;
      && SeriesOf(g.daily, AnchorLabel(dates, p.daily[0].date, p.daily[|p.daily| - 1].date).value, tables.daily)
      && SeriesOf(g.weekly, AnchorLabel(dates, p.weekly[0].weekEnding, p.weekly[|p.weekly| - 1].weekEnding).value,
                  tables.weekly)
      && SeriesOf(g.monthly, AnchorLabel(dates, p.monthly[0].month, p.monthly[|p.monthly| - 1].month).value,
                  tables.monthly)
      && SeriesOf(g.yearly, AnchorLabel(dates, p.yearly[0].year, p.yearly[|p.yearly| - 1].year).value, tables.yearly)
      && SeriesOf(g.allTime, AnchorLabel(dates, p.allTime.inceptionDate,
                                         p.allTime.priceTimeline[|p.allTime.priceTimeline| - 1].date).value,
                  tables.allTime)
      && SeriesOf(g.zero, AnchorLabel(dates, FixedStart, FixedEnd).value, Zeros())
      && (forall i :: 0 <= i < STEPS ==> g.zero[i].y == 0.0)
  {
  }

  datatype Dataset = Dataset(data: seq<real>)
  datatype ChartSeries = ChartSeries(labels: seq<string>, datasets: seq<Dataset>)
  datatype ChartData = ChartData(daily: ChartSeries, weekly: ChartSeries, monthly: ChartSeries,
                                 yearly: ChartSeries, allTime: ChartSeries)

  /** `{ labels: series.map((point) => point.x), datasets: [{ data: series.map((point) => point.y) }] }`. */
  function ForChart(series: seq<Coordinate>): (c: ChartSeries)
    ensures |c.labels| == |series| && forall i :: 0 <= i < |series| ==> c.labels[i] == series[i].x
    ensures |c.datasets| == 1 && |c.datasets[0].data| == |series|
    ensures forall i :: 0 <= i < |series| ==> c.datasets[0].data[i] == series[i].y
  {
    ChartSeries(seq(|series|, i requires 0 <= i < |series| => series[i].x),
                [Dataset(seq(|series|, i requires 0 <= i < |series| => series[i].y))])
  }

  /** `formatForChartData` (lines 189-234); the `zero` series is not passed on, and an error passes through. */
  function FormatForChartData(priceData: PriceData, tables: Tables, dates: DateOps): (c: Result<ChartData>)
    requires TablesShaped(tables)
    ensures c.Ok? <==> !MissingEntry(priceData) && AnchorsParse(priceData, dates)
    ensures c.Err? ==> c.message == "TypeError" || c.message == "RangeError"
  {
    match GetPriceCoordinates(priceData, tables, dates)
    case Err(e) => Err(e)
    case Ok(g) => Ok(ChartData(ForChart(g.daily), ForChart(g.weekly), ForChart(g.monthly),
                               ForChart(g.yearly), ForChart(g.allTime)))
  }

  /** The chart form of one series: its x values as labels, and its y values, which are the table, as the one dataset. */
  ghost predicate ChartOf(chart: ChartSeries, coords: seq<Coordinate>, ys: seq<real>) {
    && |chart.labels| == |coords| == STEPS
    && (forall i :: 0 <= i < STEPS ==> chart.labels[i] == coords[i].x)
    && chart.datasets == [Dataset(ys)]
  }

  lemma ChartDataShape(priceData: PriceData, tables: Tables, dates: DateOps)
    requires TablesShaped(tables) && !MissingEntry(priceData) && AnchorsParse(priceData, dates)
    ensures var g := GetPriceCoordinates(priceData, tables, dates).value;
      var c := FormatForChartData(priceData, tables, dates).value;
      && ChartOf(c.daily, g.daily, tables.daily)
      && ChartOf(c.weekly, g.weekly, tables.weekly)
      && ChartOf(c.monthly, g.monthly, tables.monthly)
      && ChartOf(c.yearly, g.yearly, tables.yearly)
      && ChartOf(c.allTime, g.allTime, tables.allTime)
  {
    var g := GetPriceCoordinates(priceData, tables, dates).value;
    PriceCoordinatesShape(priceData, tables, dates);
    assert ForChart(g.daily).datasets[0].data == tables.daily;
    assert ForChart(g.weekly).datasets[0].data == tables.weekly;
    assert ForChart(g.monthly).datasets[0].data == tables.monthly;
    assert ForChart(g.yearly).datasets[0].data == tables.yearly;
    assert ForChart(g.allTime).datasets[0].data == tables.allTime;
  }

  /** Each point of `getRandomCoords` takes its own fresh series and reads it at its own index. */
  predicate EnoughDraws(draws: seq<seq<real>>) {
    |draws| >= STEPS && forall k :: 0 <= k < STEPS ==> |draws[k]| >= STEPS - 1
  }

  /** `getRandomCoords` (lines 105-110): a RangeError when the fixed anchors give no date label. */
  function GetRandomCoords(dates: DateOps, draws: seq<seq<real>>): (c: Result<seq<Coordinate>>)
    requires EnoughDraws(draws)
    ensures c.Ok? <==> AnchorLabel(dates, FixedStart, FixedEnd).Ok?
    ensures c.Err? ==> c.message == "RangeError"
    ensures c.Ok? ==> |c.value| == STEPS
  {
    if AnchorLabel(dates, FixedStart, FixedEnd).Err? then Err("RangeError")
    else
      Ok(seq(STEPS, i requires 0 <= i < STEPS =>
        Coordinate(AnchorLabel(dates, FixedStart, FixedEnd).value, GeneratedPrices(0.3, 49.5, STEPS, 14.5, draws[i])[i])))
  }

  /**
   * STEPS points sharing one x label; point `i` is entry `i` of its own
   * series, so the first is 0.3, the last is exactly 49.5 and none exceeds 49.5.
   */
  lemma RandomCoordsShape(dates: DateOps, draws: seq<seq<real>>)
    requires EnoughDraws(draws) && AnchorLabel(dates, FixedStart, FixedEnd).Ok?
    ensures var c := GetRandomCoords(dates, draws).value;
      && |c| == STEPS
      && (forall i :: 0 <= i < STEPS ==> c[i].x == AnchorLabel(dates, FixedStart, FixedEnd).value)
      && c[0].y == 0.3
      && c[STEPS - 1].y == 49.5
      && (forall i :: 0 <= i < STEPS ==> c[i].y <= 49.5)
  {
    var c := GetRandomCoords(dates, draws).value;
    forall i | 0 <= i < STEPS ensures c[i].y <= 49.5 && (i == 0 ==> c[i].y == 0.3) && (i == STEPS - 1 ==> c[i].y == 49.5) {
      PricesShape(0.3, 49.5, STEPS, 14.5, draws[i]);
    }
  }
}
