/** The symbol endpoint (`SymbolsHandler`): the requested symbol echoed into
    a fixed metadata template for the charting library. */
module Symbols {
  import GoArith
  import Resolution

  /** The JSON object the handler sends, field by field; `kind` is the
      struct's `Type` field. */
  datatype SymbolInfo = SymbolInfo(
    s: string,
    name: string,
    timezone: string,
    minmov: int,
    pricescale: int,
    pointvalue: int,
    hasIntraday: bool,
    hasDaily: bool,
    hasWeeklyAndMonthly: bool,
    hasNoVolume: bool,
    ticker: string,
    description: string,
    kind: string,
    dataStatus: string,
    supportedResolutions: seq<string>,
    intradayMultipliers: seq<string>,
    sessionRegular: string,
    hasFractionalVolume: bool)

  /** The struct literal of the handler; `HasNoVolume` and
      `HasFractionalVolume` are not set there and keep Go's zero value. */
  function SymbolResult(symbol: string): (r: SymbolInfo)
    ensures r.s == "ok"
    ensures r.name == symbol && r.ticker == symbol && r.description == symbol
  {
    SymbolInfo(
      s := "ok",
      name := symbol,
      timezone := "Asia/Shanghai",
      minmov := 1,
      pricescale := 1000,
      pointvalue := 1,
      hasIntraday := true,
      hasDaily := true,
      hasWeeklyAndMonthly := true,
      hasNoVolume := false,
      ticker := symbol,
      description := symbol,
      kind := "bitcoin",
      dataStatus := "streaming",
      supportedResolutions := ["5", "10", "15", "30", "60", "120", "240", "D", "W"],
      intradayMultipliers := ["1", "5", "15", "30", "60", "D", "W"],
      sessionRegular := "24x7",
      hasFractionalVolume := false)
  }

  /** Nothing but the three name fields depends on the symbol: the result
      for `b` is the result for `a` with those three fields replaced. */
  lemma OnlyNamesDependOnSymbol(a: string, b: string)
    ensures SymbolResult(a).(name := b, ticker := b, description := b) == SymbolResult(b)
  {
  }

  /** Different symbols give different results, and the same symbol the
      same one. */
  lemma SymbolResultInjective(a: string, b: string)
    ensures SymbolResult(a) == SymbolResult(b) <==> a == b
  {
    if SymbolResult(a) == SymbolResult(b) {
      assert SymbolResult(a).name == SymbolResult(b).name;
    }
  }

  /** The resolution list of the configuration endpoint. */
  const ConfigResolutions: seq<string> := ["30", "60", "240", "D"]

  /** The resolutions the service advertises and the mapper does not know:
      "240" in the configuration, "10", "120" and "240" in the symbol
      metadata; every other advertised code, and every intraday
      multiplier, is one the mapper serves with a non-empty period. */
  lemma AdvertisedButUnmapped(symbol: string, from: GoArith.Int64, to: GoArith.Int64)
    requires -Resolution.MaxSpanSeconds <= to - from <= Resolution.MaxSpanSeconds
    ensures forall code :: code in ConfigResolutions ==>
      (Resolution.TimeDiff(code, from, to).period == "" <==> code == "240")
    ensures forall code :: code in SymbolResult(symbol).supportedResolutions ==>
      (Resolution.TimeDiff(code, from, to).period == "" <==> code in {"10", "120", "240"})
    ensures forall code :: code in SymbolResult(symbol).intradayMultipliers ==>
      Resolution.TimeDiff(code, from, to).period != ""
  {
  }
}
