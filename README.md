# tv_server: the UDF adapter's transformation logic in Dafny

tv_server is a small Go service. It speaks the charting library's UDF
("Universal Data Feed") HTTP contract. Behind it is one upstream exchange's
kline REST endpoint. The service holds no state. Its logic is three pure or
nearly pure transformations, and this project models and proves all three:

- **The resolution mapper** `getTimeDiff` (module `Resolution`). A chart
  resolution code and a `[from, to]` range of Unix seconds become a bar
  count (`size`) and an upstream period token. The Dafny body follows Go's
  own path: `Duration.Minutes()`/`Hours()` as exact reals, the divisions by
  24 and 7, and `int(...)`, which drops the fraction toward zero. An
  integer reference (`ScaleOf`: unit seconds times bars per unit) is proved
  equal to that body. The properties are proved about the reference:
  - what a bar count means (`TimeDiffCovers`);
  - the sizes of "5", "15" and "30" are whole hours times 12, 4 and 2;
  - days are whole hours over 24, and weeks are whole days over 7;
  - swapping `from` and `to` negates the size, because truncation is toward
    zero and not floor;
  - unknown codes give `(0, "")`.
- **The bar re-projection loop** of `HistoryHandler` (module `History`).
  The decoded upstream answer is a sequence of records
  `[ts_ms, open, high, low, close, volume]`. The loop fills six parallel
  arrays `t, c, o, h, l, v`. The method `Reproject` allocates them and fills
  index `i` from record `i`, as the Go `for` loop does. It is proved
  against the specification function `Reprojected`, which is built up one
  record at a time. Lemmas about `Reprojected` prove three things: every
  column has one entry per record; index `i` comes from record `i`; and the
  result builds up record by record (`ReprojectedAppend`).
- **The symbol metadata** built by `SymbolsHandler` (module `Symbols`). The
  symbol is echoed into `name`, `ticker` and `description`. No other field
  depends on it. Every code the service advertises is cross-checked against
  the mapper.

Module `GoArith` holds Go's integer conventions: the int64 range, `Quot`
(Go's integer `/`, which truncates toward zero, unlike Dafny's Euclidean
`/`) and `TruncReal` (Go's float-to-int conversion). It also holds the
lemmas about them.

## Model

| member | source | states |
|---|---|---|
| GoArith.Quot | main.go:140 | Go's integer `/` by a positive divisor: the remainder has the dividend's sign and is smaller than the divisor; the quotient has the dividend's sign and is no larger in magnitude |
| GoArith.QuotUnique | main.go:140 | only one quotient meets that remainder condition, so stating it fixes the result |
| GoArith.QuotNegate | main.go:158-173 | truncation is symmetric: `Quot(-a, b) == -Quot(a, b)` |
| GoArith.QuotQuot | main.go:170-173 | truncating by `b` and then by `c` is truncating once by `b * c` |
| GoArith.QuotVersusFloor | main.go:158-161 | truncation equals floor division except on a negative dividend that is not a multiple of the divisor, where it is one more |
| GoArith.TruncReal | main.go:140 | Go's float-to-int conversion: the result lies within one of `x`, on the side of zero |
| GoArith.TruncRealDiv | main.go:161-173 | converting the exact real `d / b` to an integer gives Go's integer `d / b`, so the float path equals integer division |
| GoArith.MillisToSeconds | main.go:140 | dropping the fraction of the millisecond float and then dividing by 1000 is the whole seconds of `x / 1000` |
| Resolution.TimeDiff | main.go:157-177 | an unknown code gives `(0, "")`; every supported code gives a non-empty period; `from <= to` gives size >= 0 and `to <= from` gives size <= 0 |
| Resolution.ScaleOf | main.go:159-175 | the integer reference has an entry exactly for the seven codes the switch handles, each with a positive unit and a positive bars-per-unit |
| Resolution.TimeDiffMatchesScale | main.go:157-177 | every code's float-path result equals the integer reference: the span quot the unit, times bars per unit, with the code's period; all other codes give `(0, "")` |
| Resolution.MinuteSize | main.go:160-161 | "1" gives the span quot 60 with period "1min" |
| Resolution.HourSizes | main.go:162-169 | "5", "15", "30" and "60" give the whole hours of the span times 12, 4, 2 and 1, with periods "5min", "15min", "30min", "hour" |
| Resolution.DaySize | main.go:170-171 | "D" gives the span quot 86400 with period "day" |
| Resolution.WeekSize | main.go:172-173 | "W" gives the span quot 604800 with period "week" |
| Resolution.TimeDiffCovers | main.go:158-175 | `size` bars of the resolution's length never overshoot the span. They fall short of it by less than one counting unit (a minute, an hour, a day or a week); a reversed range is the mirror image |
| Resolution.SubHourSizesAreWholeHours | main.go:162-169 | "5" sizes are multiples of 12, "15" of 4 and "30" of 2; each is that multiple of the "60" size |
| Resolution.CoarserCodesNest | main.go:168-173 | the "D" size is the "60" size quot 24; the "W" size is the "D" size quot 7 |
| Resolution.TimeDiffReversed | main.go:158-175 | swapping `from` and `to` negates the size and keeps the period |
| Resolution.ExampleTwoHours | main.go:168-169 | "60" from 0 to 7200 gives `(2, "hour")` |
| Resolution.ExampleReversedMinute | main.go:160-161 | "1" from 90 to 0 gives `(-1, "1min")`, where floor division would give -2 |
| Resolution.ExampleUnsupportedCodes | main.go:174-175 | "240", "120" and "10" give `(0, "")` |
| Symbols.SymbolResult | main.go:51-86 | the result has `s == "ok"`, and `name`, `ticker` and `description` are the requested symbol |
| Symbols.OnlyNamesDependOnSymbol | main.go:72-86 | the results for two symbols agree on every field except the three name fields |
| Symbols.SymbolResultInjective | main.go:72-82 | two results are equal exactly when their symbols are |
| Symbols.AdvertisedButUnmapped | main.go:47-85 | the mapper leaves "240" from the configuration unserved, and "10", "120" and "240" from the symbol metadata. It gives a non-empty period to every other advertised code and to every intraday multiplier |
| History.Seconds | main.go:140 | a record's `int64(ts) / 1000` is the whole seconds of its millisecond timestamp, truncated toward zero |
| History.Reprojected | main.go:132-153 | all six columns have one entry per upstream record |
| History.ReprojectedAt | main.go:139-146 | entry `i` of every column comes from record `i`: `t[i]` is its timestamp in seconds, and `o, h, l, c, v` are its fields 1 to 5 through the parse function |
| History.ReprojectedAppend | main.go:139-146 | the columns of two answers one after the other are the two column sets concatenated, so order is kept record by record |
| History.Reproject | main.go:132-153 | allocates six fresh arrays of the answer's length and fills index `i` from record `i`. The result equals `Reprojected` |

## Left out

- Routing, the gin context, CORS, `main` and `r.Run` (main.go:16-39): framework plumbing with no logic.
- `ConfigHandler` (main.go:41-49): a static constant. Only its resolution list is kept, as `Symbols.ConfigResolutions`, for the cross-check against the mapper.
- The upstream call and the decode (main.go:96-116): the HTTP GET with certificate checks turned off, `ReadAll` and `json.Unmarshal`. These are network I/O and library calls. Their `{"S": "fail"}` error replies are left out with them. The model starts from the decoded records.
- The URL built with `Sprintf` (main.go:100): unescaped string formatting that feeds the HTTP call.
- `strconv.ParseInt` with its error ignored (main.go:92-93): `from` and `to` are taken as already-parsed int64 values.
- The `no_data` branch (main.go:118-120): it calls `.Error()` on a nil error, which panics, and it has no `return`. It is a defect, not behaviour to specify.
- `strconv.ParseFloat` and float64 OHLCV values (main.go:141-145): the parse is a parameter `parse: string -> F`, and the value type `F` stays opaque.
- Resolution.TimeDiff: does not model float64 rounding in `Duration.Minutes()` and `Duration.Hours()`. Exact reals stand in for float64.
- Resolution.TimeDiff: does not model `Duration` saturation. A precondition keeps `|to - from|` within 9223372036 seconds, the range of `time.Duration`.
- Resolution.TimeDiff: does not model the int64 wrap inside `time.Unix`, which stores `sec + 62135596800` (seconds since year 1). For a timestamp above `MaxInt64 - 62135596800` that sum wraps, `Time.Sub` can return its saturated minimum or maximum, and Go's size then differs from the model's. Such timestamps lie about 292 billion years ahead.
- History.Seconds: does not model float64 rounding of the JSON timestamp. A JSON number is an exact real. A precondition excludes timestamps whose integer part does not fit an int64: Go's conversion of such a float does not fail, but its value depends on the implementation.
- History.Reproject: requires each record to have at least six fields, a number first and then five strings. The Go type assertions panic on any other record.
- History.Reproject: wrapping the six arrays in the response struct with `s: "ok"` and sending it (main.go:121-131, 147-154) is not modelled. Only the arrays are returned.
- History.Reproject: each record's bar is computed before its six stores, not interleaved with them. Nothing can observe the difference.
