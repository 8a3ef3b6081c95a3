/** The resolution mapper of the history endpoint (`getTimeDiff`): a chart
    resolution code and a `[from, to]` range of Unix seconds become the
    number of bars to ask the upstream kline API for and the upstream's
    period token. */
module Resolution {
  import opened GoArith

  datatype Option<T> = None | Some(value: T)

  /** The pair `getTimeDiff` returns. */
  datatype SizePeriod = SizePeriod(size: int, period: string)

  /** The largest span, in whole seconds, that Go's `time.Duration` (an
      int64 count of nanoseconds) holds without saturating. */
  const MaxSpanSeconds: int := 9_223_372_036

  /** The codes the mapper understands. */
  const SupportedCodes: set<string> := {"1", "5", "15", "30", "60", "D", "W"}

  /** `Duration.Minutes()` and `Duration.Hours()` of a span of whole
      seconds, with exact real arithmetic standing for float64. */
  function Minutes(span: int): real {
    span as real / 60.0
  }

  function Hours(span: int): real {
    span as real / 3600.0
  }

  /** `getTimeDiff`: the switch on the resolution code, with the span
      `to - from` put through the same float conversions Go uses. */
  function TimeDiff(resolution: string, from: Int64, to: Int64): (r: SizePeriod)
    requires -MaxSpanSeconds <= to - from <= MaxSpanSeconds
    ensures resolution !in SupportedCodes ==> r == SizePeriod(0, "")
    ensures resolution in SupportedCodes ==> r.period != ""
    ensures from <= to ==> r.size >= 0
    ensures to <= from ==> r.size <= 0
  {
    var diff := to - from;
    if resolution == "1" then SizePeriod(TruncReal(Minutes(diff)), "1min")
    else if resolution == "5" then SizePeriod(TruncReal(Hours(diff)) * 12, "5min")
    else if resolution == "15" then SizePeriod(TruncReal(Hours(diff)) * 4, "15min")
    else if resolution == "30" then SizePeriod(TruncReal(Hours(diff)) * 2, "30min")
    else if resolution == "60" then SizePeriod(TruncReal(Hours(diff)), "hour")
    else if resolution == "D" then SizePeriod(TruncReal(Hours(diff) / 24.0), "day")
    else if resolution == "W" then SizePeriod(TruncReal(Hours(diff) / 24.0 / 7.0), "week")
    else SizePeriod(0, "")
  }

  /** Integer reference for the mapper: a span is counted in whole `unit`s
      of seconds (dropping the remainder toward zero), and each whole unit
      is worth `bars` bars of the upstream `period`. */
  datatype Scale = Scale(unit: int, bars: int, period: string)

  function ScaleOf(resolution: string): (s: Option<Scale>)
    ensures s.Some? <==> resolution in SupportedCodes
    ensures s.Some? ==> s.value.unit > 0 && s.value.bars > 0
  {
    match resolution
    case "1" => Some(Scale(60, 1, "1min"))
    case "5" => Some(Scale(3600, 12, "5min"))
    case "15" => Some(Scale(3600, 4, "15min"))
    case "30" => Some(Scale(3600, 2, "30min"))
    case "60" => Some(Scale(3600, 1, "hour"))
    case "D" => Some(Scale(86400, 1, "day"))
    case "W" => Some(Scale(604800, 1, "week"))
    case _ => None
  }

  /** The length of one bar of a resolution, in seconds, as the chart
      library reads the code: minutes for the numeric codes, a day, a week. */
  function BarSeconds(resolution: string): (n: int)
    requires resolution in SupportedCodes
    ensures n >= 60
  {
    match resolution
    case "1" => 60
    case "5" => 300
    case "15" => 900
    case "30" => 1800
    case "60" => 3600
    case "D" => 86400
    case "W" => 604800
  }

  /** The float path of `getTimeDiff` agrees with the integer reference:
      the size is the span divided by the unit with truncation toward zero,
      times the bars per unit; an unknown code gives `(0, "")`. */
  lemma TimeDiffMatchesScale(resolution: string, from: Int64, to: Int64)
    requires -MaxSpanSeconds <= to - from <= MaxSpanSeconds
    ensures match ScaleOf(resolution)
      case None => TimeDiff(resolution, from, to) == SizePeriod(0, "")
      case Some(sc) => TimeDiff(resolution, from, to) == SizePeriod(Quot(to - from, sc.unit) * sc.bars, sc.period)
  {
    if resolution == "1" {
      MinuteSize(from, to);
    } else if resolution == "5" || resolution == "15" || resolution == "30" || resolution == "60" {
      HourSizes(from, to);
    } else if resolution == "D" {
      DaySize(from, to);
    } else if resolution == "W" {
      WeekSize(from, to);
    }
  }

  lemma MinuteSize(from: Int64, to: Int64)
    requires -MaxSpanSeconds <= to - from <= MaxSpanSeconds
    ensures TimeDiff("1", from, to) == SizePeriod(Quot(to - from, 60), "1min")
  {
    TruncRealDiv(to - from, 60);
  }

  lemma HourSizes(from: Int64, to: Int64)
    requires -MaxSpanSeconds <= to - from <= MaxSpanSeconds
    ensures TimeDiff("5", from, to) == SizePeriod(Quot(to - from, 3600) * 12, "5min")
    ensures TimeDiff("15", from, to) == SizePeriod(Quot(to - from, 3600) * 4, "15min")
    ensures TimeDiff("30", from, to) == SizePeriod(Quot(to - from, 3600) * 2, "30min")
    ensures TimeDiff("60", from, to) == SizePeriod(Quot(to - from, 3600), "hour")
  {
    TruncRealDiv(to - from, 3600);
  }

  lemma DaySize(from: Int64, to: Int64)
    requires -MaxSpanSeconds <= to - from <= MaxSpanSeconds
    ensures TimeDiff("D", from, to) == SizePeriod(Quot(to - from, 86400), "day")
  {
    var diff := to - from;
    assert Hours(diff) / 24.0 == diff as real / 86400.0;
    TruncRealDiv(diff, 86400);
  }

  lemma WeekSize(from: Int64, to: Int64)
    requires -MaxSpanSeconds <= to - from <= MaxSpanSeconds
    ensures TimeDiff("W", from, to) == SizePeriod(Quot(to - from, 604800), "week")
  {
    var diff := to - from;
    assert Hours(diff) / 24.0 / 7.0 == diff as real / 604800.0;
    TruncRealDiv(diff, 604800);
  }

  /** What the bar count means: `size` bars of the resolution's length
      never overshoot the span, and fall short of it by less than one
      counting unit (a minute for "1", an hour for "5" to "60", a day for
      "D", a week for "W"); for a reversed range the same holds mirrored. */
  lemma TimeDiffCovers(resolution: string, from: Int64, to: Int64)
    requires -MaxSpanSeconds <= to - from <= MaxSpanSeconds
    requires resolution in SupportedCodes
    ensures var covered := TimeDiff(resolution, from, to).size * BarSeconds(resolution);
            var unit := ScaleOf(resolution).value.unit;
            if from <= to then 0 <= (to - from) - covered < unit
            else -unit < (to - from) - covered <= 0
  {
    TimeDiffMatchesScale(resolution, from, to);
    var sc := ScaleOf(resolution).value;
    var q := Quot(to - from, sc.unit);
    assert TimeDiff(resolution, from, to).size * BarSeconds(resolution) == q * sc.unit by {
      assert sc.bars * BarSeconds(resolution) == sc.unit;
      assert (q * sc.bars) * BarSeconds(resolution) == q * (sc.bars * BarSeconds(resolution));
    }
  }

  /** The sub-hour codes count whole hours: a "5" size is a multiple of 12,
      a "15" size of 4, a "30" size of 2. */
  lemma SubHourSizesAreWholeHours(from: Int64, to: Int64)
    requires -MaxSpanSeconds <= to - from <= MaxSpanSeconds
    ensures TimeDiff("5", from, to).size % 12 == 0
    ensures TimeDiff("15", from, to).size % 4 == 0
    ensures TimeDiff("30", from, to).size % 2 == 0
    ensures TimeDiff("5", from, to).size == 12 * TimeDiff("60", from, to).size
    ensures TimeDiff("15", from, to).size == 4 * TimeDiff("60", from, to).size
    ensures TimeDiff("30", from, to).size == 2 * TimeDiff("60", from, to).size
  {
  }

  /** Days are whole hours divided by 24, and weeks whole days divided by 7,
      each with truncation toward zero. */
  lemma CoarserCodesNest(from: Int64, to: Int64)
    requires -MaxSpanSeconds <= to - from <= MaxSpanSeconds
    ensures TimeDiff("D", from, to).size == Quot(TimeDiff("60", from, to).size, 24)
    ensures TimeDiff("W", from, to).size == Quot(TimeDiff("D", from, to).size, 7)
  {
    TimeDiffMatchesScale("60", from, to);
    TimeDiffMatchesScale("D", from, to);
    TimeDiffMatchesScale("W", from, to);
    QuotQuot(to - from, 3600, 24);
    QuotQuot(to - from, 86400, 7);
  }

  /** Swapping `from` and `to` negates the size and keeps the period: the
      truncation is toward zero, not toward minus infinity. */
  lemma TimeDiffReversed(resolution: string, from: Int64, to: Int64)
    requires -MaxSpanSeconds <= to - from <= MaxSpanSeconds
    ensures TimeDiff(resolution, to, from).size == -TimeDiff(resolution, from, to).size
    ensures TimeDiff(resolution, to, from).period == TimeDiff(resolution, from, to).period
  {
    TimeDiffMatchesScale(resolution, from, to);
    TimeDiffMatchesScale(resolution, to, from);
    if resolution in SupportedCodes {
      var sc := ScaleOf(resolution).value;
      QuotNegate(to - from, sc.unit);
      assert from - to == -(to - from);
    }
  }

  /** Two hours of "60" ask for two hourly bars. */
  lemma ExampleTwoHours()
    ensures TimeDiff("60", 0, 7200) == SizePeriod(2, "hour")
  {
    TimeDiffMatchesScale("60", 0, 7200);
  }

  /** A reversed range of 90 seconds at "1" gives -1, where floor division
      would give -2. */
  lemma ExampleReversedMinute()
    ensures TimeDiff("1", 90, 0) == SizePeriod(-1, "1min")
    ensures (0 - 90) / 60 == -2
  {
    TimeDiffMatchesScale("1", 90, 0);
  }

  /** Codes the service advertises elsewhere but the mapper does not know. */
  lemma ExampleUnsupportedCodes(from: Int64, to: Int64)
    requires -MaxSpanSeconds <= to - from <= MaxSpanSeconds
    ensures TimeDiff("240", from, to) == SizePeriod(0, "")
    ensures TimeDiff("120", from, to) == SizePeriod(0, "")
    ensures TimeDiff("10", from, to) == SizePeriod(0, "")
  {
  }
}
