/**
 * The demo chart data (src/lib/demo-data.ts): the start of each date range, a random walk
 * of daily portfolio values, the profit and loss between its first and last points, and
 * the sign rule of the percentage label. The clock and `Math.random` are parameters;
 * JavaScript numbers are reals, except that a percentage may be `NaN` or infinite.
 */
module DemoData {
  import opened Calendar
  import opened Numbers

  /** The ranges the chart offers: 1D, 7D, 1M, 3M, YTD and ALL. */
  datatype DateRange = OneDay | SevenDays | OneMonth | ThreeMonths | YearToDate | All

  /** A point of the chart: its instant in milliseconds and the portfolio value. */
  datatype ChartPoint = ChartPoint(time: int, value: real)

  /**
   * `getStartDate` as a day number: midnight of that day is where the range starts. No
   * range starts after today or more than two years (731 days) before it.
   */
  function StartDay(range: DateRange, now: Clock): (day: int)
    ensures ValidClock(now) ==> Today(now) - 731 <= day <= Today(now)
  {
    match range
    case OneDay => Today(now)
    case SevenDays => Today(now) - 7
    case OneMonth =>
      MonthBeforeToday(now);
      EpochDay(now.year, now.month - 1, now.date)
    case ThreeMonths =>
      QuarterBeforeToday(now);
      EpochDay(now.year, now.month - 3, now.date)
    case YearToDate =>
      YearStartBeforeToday(now);
      EpochDay(now.year, 0, 1)
    case All =>
      TwoYearsBeforeToday(now);
      EpochDay(now.year - 2, now.month, now.date)
  }

  /** `getStartDate(range).getTime()`: midnight of the start day. */
  function StartDate(range: DateRange, now: Clock): int
  {
    StartDay(range, now) * DayMs
  }

  /** 1D starts today, 7D a week earlier, YTD on the first day of the current year. */
  lemma FixedRangeStarts(now: Clock)
    requires ValidClock(now)
    ensures StartDay(OneDay, now) == Today(now)
    ensures StartDay(SevenDays, now) == Today(now) - 7
    ensures StartDay(YearToDate, now) == DaysBeforeYear(now.year)
    ensures StartDate(OneDay, now) <= NowMs(now) < StartDate(OneDay, now) + DayMs
  {
  }

  /** 1M starts one previous-month length before today, however the day of the month overflows. */
  lemma OneMonthBack(now: Clock)
    requires ValidClock(now)
    ensures Today(now) - StartDay(OneMonth, now) == DaysInMonth(now.year + (now.month - 1) / 12, (now.month - 1) % 12)
  {
    OneMonthEarlier(now.year, now.month, now.date);
  }

  /** 3M starts the three previous months' lengths before today (the same day of the month), 84 to 93 days. */
  lemma ThreeMonthsBack(now: Clock)
    requires ValidClock(now)
    ensures Today(now) - StartDay(ThreeMonths, now) ==
      DaysInMonth(now.year + (now.month - 1) / 12, (now.month - 1) % 12) +
      DaysInMonth(now.year + (now.month - 2) / 12, (now.month - 2) % 12) +
      DaysInMonth(now.year + (now.month - 3) / 12, (now.month - 3) % 12)
    ensures 84 <= Today(now) - StartDay(ThreeMonths, now) <= 93
  {
    QuarterBeforeToday(now);
  }

  /** YTD starts on January 1: as many days back as today's day of the year, less one. */
  lemma YearToDateBack(now: Clock)
    requires ValidClock(now)
    ensures Today(now) - StartDay(YearToDate, now) == DaysBeforeMonth(now.year, now.month) + now.date - 1
    ensures 0 <= Today(now) - StartDay(YearToDate, now) < YearLength(now.year)
  {
    EpochDayInYear(now.year, now.month, now.date);
    EpochDayInYear(now.year, 0, 1);
    MonthWithinYear(now.year, now.month);
  }

  /**
   * ALL starts on the same date two years back: the two years' lengths, corrected by the
   * leap day of the current and of the earlier year's February: 730 or 731 days. A
   * 29 February rolls over to 1 March.
   */
  lemma AllBack(now: Clock)
    requires ValidClock(now)
    ensures Today(now) - StartDay(All, now) ==
      YearLength(now.year - 2) + YearLength(now.year - 1) +
      DaysBeforeMonth(now.year, now.month) - DaysBeforeMonth(now.year - 2, now.month)
    ensures 730 <= Today(now) - StartDay(All, now) <= 731
  {
    TwoYearsBeforeToday(now);
  }

  /** Every range starts at or before today's midnight, and ranges nest: 1D, 7D, 1M, 3M, ALL. */
  lemma RangesNest(now: Clock)
    requires ValidClock(now)
    ensures forall r :: StartDay(r, now) <= Today(now)
    ensures StartDay(OneDay, now) > StartDay(SevenDays, now) > StartDay(OneMonth, now)
    ensures StartDay(OneMonth, now) > StartDay(ThreeMonths, now) > StartDay(All, now)
    ensures StartDay(All, now) < StartDay(YearToDate, now)
  {
    OneMonthBack(now);
    ThreeMonthsBack(now);
    YearToDateBack(now);
    AllBack(now);
  }

  /** The walk starts at 50,000 and never falls below 10,000. */
  const StartValue: real := 50000.0
  const FloorValue: real := 10000.0
  const Volatility: real := 0.02
  const Trend: real := 0.001

  /** The daily factor `1 + trend + (r - 0.5) * 2 * volatility` for a draw `r` of `Math.random()`. */
  function ChangeFactor(r: real): real
  {
    1.0 + (Trend + (r - 0.5) * 2.0 * Volatility)
  }

  /** `Math.max(v, 10000)`. */
  function Clamp(v: real): (c: real)
    ensures c >= FloorValue && c >= v && (c == v || c == FloorValue)
  {
    if v >= FloorValue then v else FloorValue
  }

  /** The unrounded value after the update of day `k` (counting from 0), with `random(k)` the k-th draw. */
  function Walk(random: nat -> real, k: nat): (v: real)
    ensures v >= FloorValue
  {
    var before := if k == 0 then StartValue else Walk(random, k - 1);
    Clamp(before * ChangeFactor(random(k)))
  }

  /** The points' values are the walk's, day by day, rounded to cents. */
  predicate FollowsWalk(data: seq<ChartPoint>, random: nat -> real)
  {
    forall k :: 0 <= k < |data| ==> data[k].value == Round2(Walk(random, k))
  }

  /** Appending the next day's rounded value keeps a series on the walk. */
  lemma FollowsWalkExtend(data: seq<ChartPoint>, random: nat -> real, time: int, v: real)
    requires FollowsWalk(data, random) && v == Walk(random, |data|)
    ensures FollowsWalk(data + [ChartPoint(time, Round2(v))], random)
  {
    var d := data + [ChartPoint(time, Round2(v))];
    forall k | 0 <= k < |d| ensures d[k].value == Round2(Walk(random, k)) {
      if k < |data| { assert d[k] == data[k]; }
    }
  }

  /** One more day of the walk: the update applied to the previous day's value. */
  lemma WalkUnfold(random: nat -> real, k: nat, before: real)
    requires before == if k == 0 then StartValue else Walk(random, k - 1)
    ensures Walk(random, k) == Clamp(before * ChangeFactor(random(k)))
  {
  }

  /** `Math.round(v * 100) / 100`: the nearest multiple of 0.01, halves rounded up. */
  function Round2(v: real): (r: real)
    ensures IsCents(r)
    ensures v - 0.005 < r <= v + 0.005
  {
    var n := (v * 100.0 + 0.5).Floor;
    assert (n as real / 100.0) * 100.0 == n as real;
    n as real / 100.0
  }

  /** The value has at most two decimal places. */
  predicate IsCents(v: real)
  {
    (v * 100.0).Floor as real == v * 100.0
  }

  /** Rounding a value on or above the floor keeps it there: 10,000 is a whole number of cents. */
  lemma Round2KeepsFloor(v: real)
    requires v >= FloorValue
    ensures Round2(v) >= FloorValue
  {
    var n := (v * 100.0 + 0.5).Floor;
    assert Round2(v) * 100.0 == n as real;
    assert v * 100.0 + 0.5 >= 1000000.0;
    assert n >= 1000000;
  }

  /**
   * A draw of `Math.random()` lies in [0, 1), so each day's value is between 0.981 and 1.021
   * times the previous one, except that it never goes below 10,000.
   */
  lemma {:induction false} WalkStep(random: nat -> real, k: nat)
    requires 0.0 <= random(k) < 1.0
    ensures Walk(random, k) >= FloorValue
    ensures Walk(random, k) >= Previous(random, k) * 0.981
    ensures Walk(random, k) == FloorValue || Walk(random, k) < Previous(random, k) * 1.021
  {
    var before := Previous(random, k);
    var f := ChangeFactor(random(k));
    WalkUnfold(random, k, before);
    assert 0.981 <= f < 1.021;
    ClampedStepBounds(before, f);
  }

  /** A clamped update by a factor in [0.981, 1.021) stays within those factors of the old value, or sits on the floor. */
  lemma ClampedStepBounds(before: real, f: real)
    requires before > 0.0 && 0.981 <= f < 1.021
    ensures Clamp(before * f) >= before * 0.981
    ensures Clamp(before * f) == FloorValue || Clamp(before * f) < before * 1.021
  {
    ScaleMonotone(before, 0.981, f);
    ScaleMonotone(before, f, 1.021);
  }

  /** The value before day `k`'s update: the start value, or the previous day's. */
  function Previous(random: nat -> real, k: nat): (v: real)
    ensures v >= FloorValue
  {
    if k == 0 then StartValue else Walk(random, k - 1)
  }

  /** Multiplying by a positive number keeps the order of the factors. */
  lemma ScaleMonotone(a: real, x: real, y: real)
    requires a > 0.0 && x <= y
    ensures a * x <= a * y && (x < y ==> a * x < a * y)
  {
    assert a * y - a * x == a * (y - x);
  }

  /** `Math.ceil(a / b)` for integers and a positive divisor. */
  function CeilDiv(a: int, b: int): (c: int)
    requires b > 0
    ensures (c - 1) * b < a <= c * b
    ensures a / b <= c
  {
    var q := (-a) / b;
    assert -a == q * b + (-a) % b;
    assert (-q - 1) * b == -(q * b) - b;
    -q
  }

  /**
   * The loop of `generateDemoChartData`: for i = 0 to max(daysDiff, 1) inclusive, the point
   * `start + i` days, unless it lies after `end`; each point applies one update to the
   * value and records it rounded to cents. The result holds one point per day from `start`
   * to `end`: none when `start` is after `end`.
   */
  method ChartSeries(startMs: int, endMs: int, random: nat -> real) returns (data: seq<ChartPoint>)
    ensures |data| == if startMs <= endMs then (endMs - startMs) / DayMs + 1 else 0
    ensures forall k :: 0 <= k < |data| ==> data[k].time == startMs + k * DayMs
    ensures forall k :: 0 <= k < |data| ==> data[k].time <= endMs
    ensures forall k :: 0 < k < |data| ==> data[k].time == data[k - 1].time + DayMs
    ensures FollowsWalk(data, random)
  {
    data := [];
    var value := StartValue;
    var daysDiff := CeilDiv(endMs - startMs, DayMs);
    var pointCount := if daysDiff > 1 then daysDiff else 1;
    for i := 0 to pointCount + 1
      invariant |data| == i
      invariant i > 0 ==> startMs + (i - 1) * DayMs <= endMs
      invariant forall k :: 0 <= k < i ==> data[k].time == startMs + k * DayMs
      invariant forall k :: 0 <= k < i ==> data[k].time <= endMs
      invariant forall k :: 0 < k < i ==> data[k].time == data[k - 1].time + DayMs
      invariant FollowsWalk(data, random)
      invariant value == if i == 0 then StartValue else Walk(random, i - 1)
    {
      var currentDate := startMs + i * DayMs;
      if currentDate > endMs {
        if i > 0 { DivBetween(endMs - startMs, DayMs, i - 1); }
        break;
      }
      WalkUnfold(random, i, value);
      value := value * ChangeFactor(random(i));
      value := Clamp(value);
      FollowsWalkExtend(data, random, currentDate, value);
      data := data + [ChartPoint(currentDate, Round2(value))];
    }
    if |data| == pointCount + 1 {
      DivBetween(endMs - startMs, DayMs, (endMs - startMs) / DayMs);
    }
  }

  /**
   * `generateDemoChartData(range)` with the clock read once: the series from the range's
   * start to now. It holds exactly one point per day from the start day through today,
   * dated at midnight, one day apart; the values are the random walk's, rounded to cents,
   * so each is at least 10,000 and has at most two decimal places.
   */
  method GenerateDemoChartData(range: DateRange, now: Clock, random: nat -> real) returns (data: seq<ChartPoint>)
    requires ValidClock(now)
    ensures |data| == Today(now) - StartDay(range, now) + 1
    ensures |data| > 0 && data[0].time == StartDate(range, now) && data[|data| - 1].time == Today(now) * DayMs
    ensures forall k :: 0 <= k < |data| ==> data[k].time <= NowMs(now)
    ensures forall k :: 0 < k < |data| ==> data[k].time == data[k - 1].time + DayMs
    ensures forall k :: 0 <= k < |data| ==> data[k].value >= FloorValue && IsCents(data[k].value)
    ensures FollowsWalk(data, random)
  {
    RangesNest(now);
    var startMs, endMs := StartDate(range, now), NowMs(now);
    ghost var back := Today(now) - StartDay(range, now);
    assert endMs - startMs == back * DayMs + now.msOfDay;
    assert back >= 0 && back * DayMs >= 0;
    DivBetween(endMs - startMs, DayMs, back);
    data := ChartSeries(startMs, endMs, random);
    assert |data| == back + 1;
    assert data[0].time == startMs;
    assert StartDay(range, now) * DayMs + back * DayMs == (StartDay(range, now) + back) * DayMs;
    assert data[back].time == Today(now) * DayMs;
    forall k | 0 <= k < |data| ensures data[k].value >= FloorValue && IsCents(data[k].value) {
      Round2KeepsFloor(Walk(random, k));
    }
  }

  /** What `calculatePerformance` returns. */
  datatype Performance = Performance(pnl: real, pnlPercentage: JsNumber, currentValue: real, initialValue: real)

  /**
   * `calculatePerformance`: all zero for no data; otherwise the first and last values, their
   * difference, and that difference as a percentage of the first value. A first value of 0
   * makes the percentage `NaN` (no change) or an infinity of the change's sign.
   */
  function CalculatePerformance(data: seq<ChartPoint>): (p: Performance)
    ensures data == [] ==> p == Performance(0.0, Finite(0.0), 0.0, 0.0)
    ensures data != [] ==> p.initialValue == data[0].value && p.currentValue == data[|data| - 1].value
    ensures p.currentValue == p.initialValue + p.pnl
    ensures p.initialValue != 0.0 ==> p.pnlPercentage.Finite? && p.pnlPercentage.value * p.initialValue == p.pnl * 100.0
    ensures p.initialValue == 0.0 && p.pnl == 0.0 ==> p.pnlPercentage == NaN || data == []
    ensures p.initialValue == 0.0 && p.pnl != 0.0 ==> p.pnlPercentage == Infinity(p.pnl > 0.0)
  {
    if |data| == 0 then Performance(0.0, Finite(0.0), 0.0, 0.0)
    else
      var initialValue := data[0].value;
      var currentValue := data[|data| - 1].value;
      var pnl := currentValue - initialValue;
      var pnlPercentage := Scale(Divide(currentValue - initialValue, initialValue), 100.0);
      Performance(pnl, pnlPercentage, currentValue, initialValue)
  }

  /** With a positive first value the percentage has the sign of the profit or loss. */
  lemma PercentageSignMatches(data: seq<ChartPoint>)
    requires data != [] && data[0].value > 0.0
    ensures var p := CalculatePerformance(data);
      p.pnlPercentage.Finite? &&
      (p.pnlPercentage.value > 0.0 <==> p.pnl > 0.0) &&
      (p.pnlPercentage.value == 0.0 <==> p.pnl == 0.0) &&
      (p.pnlPercentage.value < 0.0 <==> p.pnl < 0.0)
  {
    var p := CalculatePerformance(data);
    var q := p.pnlPercentage.value;
    assert q * p.initialValue == p.pnl * 100.0;
    if q > 0.0 { assert q * p.initialValue > 0.0; }
    if q < 0.0 { assert q * p.initialValue < 0.0; }
  }

  /** Two sample computations: 100 to 150 is +50 (50%), 100 to 50 is -50 (-50%). */
  lemma PerformanceExamples(t1: int, t2: int)
    ensures CalculatePerformance([ChartPoint(t1, 100.0), ChartPoint(t2, 150.0)])
      == Performance(50.0, Finite(50.0), 150.0, 100.0)
    ensures CalculatePerformance([ChartPoint(t1, 100.0), ChartPoint(t2, 50.0)])
      == Performance(-50.0, Finite(-50.0), 50.0, 100.0)
  {
  }

  /** On a generated series the first value is at least 10,000, so the percentage is a finite number. */
  lemma GeneratedPerformanceFinite(data: seq<ChartPoint>)
    requires data != [] && data[0].value >= FloorValue
    ensures CalculatePerformance(data).pnlPercentage.Finite?
  {
  }

  /** JavaScript's `value >= 0` on a number that may be `NaN` or infinite. */
  predicate AtLeastZero(x: JsNumber)
  {
    match x
    case Finite(v) => v >= 0.0
    case NaN => false
    case Infinity(positive) => positive
  }

  /** `value.toFixed(2)`: the given function on finite values, the fixed names otherwise. */
  function ToFixed2(x: JsNumber, fixed: real -> string): string
  {
    match x
    case Finite(v) => fixed(v)
    case NaN => "NaN"
    case Infinity(positive) => if positive then "Infinity" else "-Infinity"
  }

  /** `formatPercentage`: a `+` before values that are not negative, then `toFixed(2)` and `%`. */
  function FormatPercentage(x: JsNumber, fixed: real -> string): (s: string)
    ensures |s| >= 1 && s[|s| - 1] == '%'
    ensures s[..|s| - 1] == ToFixed2(x, fixed) || s[..|s| - 1] == "+" + ToFixed2(x, fixed)
  {
    var t := ToFixed2(x, fixed);
    if AtLeastZero(x) then
      assert (['+'] + t + ['%'])[..|t| + 1] == ['+'] + t;
      ['+'] + t + ['%']
    else
      assert (t + ['%'])[..|t|] == t;
      t + ['%']
  }

  /**
   * When `toFixed` never writes a leading `+` (it writes a `-` for negative numbers), the
   * label starts with `+` exactly when the value is at least zero, and between that sign
   * and the closing `%` it carries `value.toFixed(2)` and nothing else.
   */
  lemma PlusSignIffNonNegative(x: JsNumber, fixed: real -> string)
    requires forall v :: fixed(v) == [] || fixed(v)[0] != '+'
    ensures var s := FormatPercentage(x, fixed); s[0] == '+' <==> AtLeastZero(x)
    ensures var s := FormatPercentage(x, fixed);
      (if s[0] == '+' then s[1..|s| - 1] else s[..|s| - 1]) == ToFixed2(x, fixed)
  {
    var t := ToFixed2(x, fixed);
    var s := FormatPercentage(x, fixed);
    if AtLeastZero(x) {
      assert s[1..|s| - 1] == t;
    } else {
      assert t == [] || t[0] != '+' by {
        if x.Finite? {
          assert t == fixed(x.value);
        }
      }
      assert s[0] != '+';
    }
  }
}
