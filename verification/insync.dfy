/** The request `IbInsyncApi.getHistoricalData` builds, with the gateway I/O
left out: the trading-hours check runs first (with the `IbInsyncApi` loop),
then the period label is looked up. This wrapper draws no request ids.
 */
module InsyncApi {
  import opened Outcome
  import opened Timestamp
  import opened Schedule
  import opened Periods
  import Text
  import Session

  /** What `getHistoricalData` passes to `reqHistoricalData`, apart from the
      contract and the end time. */
  datatype InsyncRequest = InsyncRequest(duration: string, barSize: string,
                                         whatToShow: string, useRth: int)

  function InsyncHistoryRequest(tradingHours: string, now: DateTime, period: string, duration: string)
    : (r: Result<InsyncRequest>)
    ensures IsRegTradingHour(IbInsync, tradingHours, now).Err? ==>
      r == Err(IsRegTradingHour(IbInsync, tradingHours, now).error)
    ensures IsRegTradingHour(IbInsync, tradingHours, now).Ok? && period !in {"5m", "10m", "30m", "1h", "4h", "1d"} ==>
      r == Err(UnknownPeriod(period))
    ensures r.Ok? <==>
      IsRegTradingHour(IbInsync, tradingHours, now).Ok? && period in {"5m", "10m", "30m", "1h", "4h", "1d"}
    ensures r.Ok? ==>
      && r.value.useRth == IsRegTradingHour(IbInsync, tradingHours, now).value
      && r.value.barSize == PeriodMapping[period]
      && r.value.duration == duration
  {
    var rth :- IsRegTradingHour(IbInsync, tradingHours, now);
    var barSize :- LookupPeriod(period);
    Ok(InsyncRequest(duration, barSize, "BID", rth))
  }

  /** Given the same reference time and a schedule with no empty range, both
      wrappers ask for the same bar size and the same trading-hours filter.
      (The wrappers derive the reference time differently: `IbkrApi` takes the
      host's local time minus 4 hours, because its local-offset correction
      always rounds to 0, while `IbInsyncApi` uses UTC-5; at one instant the
      two times can differ.) */
  lemma WrappersAgreeOnHistoryRequest(s: Session.Session, tradingHours: string, now: DateTime,
                                      period: string, duration: string, delivered: seq<Session.Bar>)
    requires forall i :: 0 <= i < |Text.Split(tradingHours, RangeSeparator)| ==>
               |Text.Split(tradingHours, RangeSeparator)[i]| > 0
    ensures Session.GetHistoricalData(s, tradingHours, now, period, duration, delivered).0.Ok?
         == InsyncHistoryRequest(tradingHours, now, period, duration).Ok?
    ensures InsyncHistoryRequest(tradingHours, now, period, duration).Ok? ==>
      var native := Session.GetHistoricalData(s, tradingHours, now, period, duration, delivered).0.value.request;
      var insync := InsyncHistoryRequest(tradingHours, now, period, duration).value;
      native.useRth == insync.useRth && native.barSize == insync.barSize && native.duration == insync.duration
  {
    VariantsAgreeWithoutEmptyRanges(Text.Split(tradingHours, RangeSeparator), now);
  }
}
