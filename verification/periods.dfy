/** `IBKR_PERIOD_MAPPING`, the table both wrappers use to turn a coarse period
label into the gateway's bar-size wording. The two source files hold the same
six entries; it is defined once here.
 */
module Periods {
  import opened Outcome

  const PeriodMapping: map<string, string> := map[
    "5m" := "5 mins",
    "10m" := "10 mins",
    "30m" := "30 mins",
    "1h" := "1 hour",
    "4h" := "4 hours",
    "1d" := "1 day"
  ]

  /** `IBKR_PERIOD_MAPPING[period]`: a `KeyError` for any label outside the
      six the table knows. */
  function LookupPeriod(period: string): (r: Result<string>)
    ensures r.Ok? <==> period in {"5m", "10m", "30m", "1h", "4h", "1d"}
    ensures r.Err? ==> r.error == UnknownPeriod(period)
    ensures period == "5m" ==> r == Ok("5 mins")
    ensures period == "10m" ==> r == Ok("10 mins")
    ensures period == "30m" ==> r == Ok("30 mins")
    ensures period == "1h" ==> r == Ok("1 hour")
    ensures period == "4h" ==> r == Ok("4 hours")
    ensures period == "1d" ==> r == Ok("1 day")
  {
    if period in PeriodMapping then Ok(PeriodMapping[period]) else Err(UnknownPeriod(period))
  }

  /** No two labels ask for the same bar size, so the label can be read back
      from the bar size. */
  lemma LookupPeriodInjective(p: string, q: string)
    requires LookupPeriod(p).Ok? && LookupPeriod(q).Ok?
    requires LookupPeriod(p) == LookupPeriod(q)
    ensures p == q
  {
  }
}
