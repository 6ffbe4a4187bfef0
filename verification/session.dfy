/** The state an `IbkrApi` instance keeps between calls (its two counters and
its two callback buffers) and the operations that move it. Gateway requests
are left out; what the gateway sends back (the schedule string, the
reference time, the bars, the account-summary rows) arrives as input, and
callbacks are applied one after another in delivery order.
 */
module Session {
  import opened Outcome
  import opened Counters
  import opened Timestamp
  import opened Schedule
  import opened Periods
  import opened Bracket

  /** The fields of `ibapi.common.BarData` the `historicalData` callback reads. */
  datatype Bar = Bar(date: string, open: real, high: real, low: real, close: real,
                     volume: real)

  /** One entry of `hist_data_temp`: the dictionary the callback builds. */
  datatype BarRecord = BarRecord(date: string, open: real, high: real, low: real,
                                 close: real, volume: real)

  /** One entry of `accountDataTemp`. */
  datatype AccountRecord = AccountRecord(reqId: int, tag: string, value: string,
                                         currency: string, accountName: string)

  /** One `accountSummary(reqId, account, tag, value, currency)` callback. */
  datatype AccountSummary = AccountSummary(reqId: int, account: string, tag: string,
                                           value: string, currency: string)

  datatype Session = Session(
    reqId: int,
    orderId: int,
    histData: seq<BarRecord>,
    accountData: seq<AccountRecord>)

  /** The counters and buffers `IbkrApi.__init__` sets up. */
  function Init(): (s: Session)
    ensures s.reqId == InitialReqId && s.orderId == InitialOrderId
    ensures s.histData == [] && s.accountData == []
  {
    Session(InitialReqId, InitialOrderId, [], [])
  }

  /** `get_order_id`: hands out the current order id and advances only the
      order counter. */
  function GetOrderId(s: Session): (r: (int, Session))
    ensures r.0 == s.orderId
    ensures 0 <= r.1.orderId < OrderIdModulus
    ensures 0 <= s.orderId < OrderIdModulus - 1 ==> r.1.orderId == s.orderId + 1
    ensures s.orderId == OrderIdModulus - 1 ==> r.1.orderId == 0
    ensures r.1.reqId == s.reqId && r.1.histData == s.histData && r.1.accountData == s.accountData
  {
    var d := NextOrderId(s.orderId);
    (d.issued, s.(orderId := d.next))
  }

  /** `get_req_id`: hands out the current request id and advances only the
      request counter. */
  function GetReqId(s: Session): (r: (int, Session))
    ensures r.0 == s.reqId
    ensures 0 <= r.1.reqId < ReqIdModulus
    ensures 0 <= s.reqId < ReqIdModulus - 1 ==> r.1.reqId == s.reqId + 1
    ensures s.reqId == ReqIdModulus - 1 ==> r.1.reqId == 0
    ensures r.1.orderId == s.orderId && r.1.histData == s.histData && r.1.accountData == s.accountData
  {
    var d := NextReqId(s.reqId);
    (d.issued, s.(reqId := d.next))
  }

  /** The dictionary `historicalData` builds from a bar. */
  function RecordOf(bar: Bar): BarRecord {
    BarRecord(bar.date, bar.open, bar.high, bar.low, bar.close, bar.volume)
  }

  /** The records of a list of bars, in the same order. */
  function Records(bars: seq<Bar>): (rs: seq<BarRecord>)
    ensures |rs| == |bars|
    ensures forall i :: 0 <= i < |bars| ==> rs[i] == RecordOf(bars[i])
  {
    seq(|bars|, i requires 0 <= i < |bars| => RecordOf(bars[i]))
  }

  /** `reset_hist_data_temp`. */
  function ResetHistData(s: Session): (s': Session)
    ensures s'.histData == []
    ensures s'.reqId == s.reqId && s'.orderId == s.orderId && s'.accountData == s.accountData
  {
    s.(histData := [])
  }

  /** The `historicalData` callback: appends one record at the end whatever
      the request id, leaving earlier records and everything else alone. */
  function OnHistoricalData(s: Session, reqId: int, bar: Bar): (s': Session)
    ensures |s'.histData| == |s.histData| + 1
    ensures s'.histData[..|s.histData|] == s.histData
    ensures s'.histData[|s.histData|] == RecordOf(bar)
    ensures s'.reqId == s.reqId && s'.orderId == s.orderId && s'.accountData == s.accountData
  {
    s.(histData := s.histData + [RecordOf(bar)])
  }

  /** The callbacks for a list of bars, delivered in order for one request. */
  function DeliverBars(s: Session, reqId: int, bars: seq<Bar>): (s': Session)
    ensures s'.histData == s.histData + Records(bars)
    ensures s'.reqId == s.reqId && s'.orderId == s.orderId && s'.accountData == s.accountData
    decreases |bars|
  {
    if |bars| == 0 then s
    else OnHistoricalData(DeliverBars(s, reqId, bars[..|bars| - 1]), reqId, bars[|bars| - 1])
  }

  /** Delivering in two batches is delivering the concatenation: partial
      deliveries neither duplicate nor reorder records. */
  lemma DeliverBarsInBatches(s: Session, reqId: int, first: seq<Bar>, second: seq<Bar>)
    ensures DeliverBars(DeliverBars(s, reqId, first), reqId, second) == DeliverBars(s, reqId, first + second)
  {
    RecordsAppend(first, second);
    var s1 := DeliverBars(DeliverBars(s, reqId, first), reqId, second);
    var s2 := DeliverBars(s, reqId, first + second);
    assert s1.histData == s.histData + Records(first) + Records(second);
    assert s1.histData == s2.histData;
  }

  lemma RecordsAppend(first: seq<Bar>, second: seq<Bar>)
    ensures Records(first) + Records(second) == Records(first + second)
  {
    var lhs := Records(first) + Records(second);
    var rhs := Records(first + second);
    forall i | 0 <= i < |rhs|
      ensures lhs[i] == rhs[i]
    {
      if i < |first| {
        assert (first + second)[i] == first[i];
      } else {
        assert (first + second)[i] == second[i - |first|];
      }
    }
  }

  /** What `get_historical_data` sends to `reqHistoricalData`, apart from the
      contract and the end time. */
  datatype HistRequest = HistRequest(reqId: int, duration: string, barSize: string,
                                     whatToShow: string, useRth: int)

  /** A completed `get_historical_data`: the request issued and the buffer returned. */
  datatype HistReply = HistReply(request: HistRequest, bars: seq<BarRecord>)

  /** `get_historical_data(contract, period, duration)`: reset the buffer,
      run `isRegTradingHour` (which draws a request id of its own before the
      schedule is read), draw the request's id, look the period up, issue the
      request, and collect the bars the gateway delivers. An exception leaves
      behind whatever the steps before it changed. */
  function GetHistoricalData(s: Session, tradingHours: string, now: DateTime,
                             period: string, duration: string, delivered: seq<Bar>)
    : (r: (Result<HistReply>, Session))
    ensures r.1.orderId == s.orderId && r.1.accountData == s.accountData
    ensures IsRegTradingHour(IbApi, tradingHours, now).Err? ==>
      && r.0 == Err(IsRegTradingHour(IbApi, tradingHours, now).error)
      && r.1.reqId == CounterAfter(s.reqId, ReqIdModulus, 1)
      && r.1.histData == []
    ensures IsRegTradingHour(IbApi, tradingHours, now).Ok? ==>
      r.1.reqId == CounterAfter(s.reqId, ReqIdModulus, 2)
    ensures IsRegTradingHour(IbApi, tradingHours, now).Ok? && period !in {"5m", "10m", "30m", "1h", "4h", "1d"} ==>
      r.0 == Err(UnknownPeriod(period)) && r.1.histData == []
    ensures r.0.Ok? <==>
      IsRegTradingHour(IbApi, tradingHours, now).Ok? && period in {"5m", "10m", "30m", "1h", "4h", "1d"}
    ensures r.0.Ok? ==>
      && r.0.value.request.reqId == Issued(s.reqId, ReqIdModulus, 2)[1]
      && r.0.value.request.useRth == IsRegTradingHour(IbApi, tradingHours, now).value
      && r.0.value.request.barSize == PeriodMapping[period]
      && r.0.value.request.duration == duration
      && r.0.value.bars == Records(delivered)
      && r.1.histData == Records(delivered)
  {
    var s1 := ResetHistData(s);
    var (scheduleReqId, s2) := GetReqId(s1);
    match IsRegTradingHour(IbApi, tradingHours, now)
    case Err(e) => (Err(e), s2)
    case Ok(rth) =>
      var (reqId, s3) := GetReqId(s2);
      match LookupPeriod(period)
      case Err(e) => (Err(e), s3)
      case Ok(barSize) =>
        var request := HistRequest(reqId, duration, barSize, "BID", rth);
        var s4 := DeliverBars(s3, reqId, delivered);
        (Ok(HistReply(request, s4.histData)), s4)
  }

  /** Whatever the buffer held before, a completed history request returns
      exactly the bars delivered for it; and from an in-range counter the
      request carries the id after the one `isRegTradingHour` used. */
  lemma HistoryStartsFromEmptyBuffer(s: Session, t: Session, tradingHours: string, now: DateTime,
                                     period: string, duration: string, delivered: seq<Bar>)
    requires s.reqId == t.reqId
    requires 0 <= s.reqId < ReqIdModulus
    requires GetHistoricalData(s, tradingHours, now, period, duration, delivered).0.Ok?
    ensures GetHistoricalData(s, tradingHours, now, period, duration, delivered).0
         == GetHistoricalData(t, tradingHours, now, period, duration, delivered).0
    ensures GetHistoricalData(s, tradingHours, now, period, duration, delivered).0.value.request.reqId
         == CyclePosition(s.reqId, ReqIdModulus, 1)
  {
    IssuedWithinCycle(s.reqId, ReqIdModulus, 2);
  }

  /** `resetAccountDataTemp`. */
  function ResetAccountData(s: Session): (s': Session)
    ensures s'.accountData == []
    ensures s'.reqId == s.reqId && s'.orderId == s.orderId && s'.histData == s.histData
  {
    s.(accountData := [])
  }

  /** The record the `accountSummary` callback builds. */
  function AccountRecordOf(e: AccountSummary): AccountRecord {
    AccountRecord(e.reqId, e.tag, e.value, e.currency, e.account)
  }

  /** The `accountSummary` callback: appends one record at the end. */
  function OnAccountSummary(s: Session, e: AccountSummary): (s': Session)
    ensures |s'.accountData| == |s.accountData| + 1
    ensures s'.accountData[..|s.accountData|] == s.accountData
    ensures s'.accountData[|s.accountData|] == AccountRecordOf(e)
    ensures s'.reqId == s.reqId && s'.orderId == s.orderId && s'.histData == s.histData
  {
    s.(accountData := s.accountData + [AccountRecordOf(e)])
  }

  /** A sequence of `accountSummary` callbacks, in delivery order. */
  function DeliverAccountSummaries(s: Session, events: seq<AccountSummary>): (s': Session)
    ensures |s'.accountData| == |s.accountData| + |events|
    ensures s'.accountData[..|s.accountData|] == s.accountData
    ensures forall i :: 0 <= i < |events| ==> s'.accountData[|s.accountData| + i] == AccountRecordOf(events[i])
    ensures s'.reqId == s.reqId && s'.orderId == s.orderId && s'.histData == s.histData
    decreases |events|
  {
    if |events| == 0 then s
    else OnAccountSummary(DeliverAccountSummaries(s, events[..|events| - 1]), events[|events| - 1])
  }

  /** `getCashVal(tags)`: draw a request id, reset the account buffer, and
      return the rows the gateway delivers before the summary is cancelled. */
  function GetCashVal(s: Session, tags: string, delivered: seq<AccountSummary>)
    : (r: (seq<AccountRecord>, Session))
    ensures r.0 == r.1.accountData
    ensures |r.0| == |delivered|
    ensures forall i :: 0 <= i < |delivered| ==> r.0[i] == AccountRecordOf(delivered[i])
    ensures r.1.reqId == CounterAfter(s.reqId, ReqIdModulus, 1)
    ensures r.1.orderId == s.orderId && r.1.histData == s.histData
  {
    var (reqId, s1) := GetReqId(s);
    var s2 := ResetAccountData(s1);
    var s3 := DeliverAccountSummaries(s2, delivered);
    (s3.accountData, s3)
  }

  /** `BracketOrder` does not advance the order counter: when the parent id
      `p` comes from `get_order_id`, the next two calls hand out `(p + 1) %
      10000` and `(p + 2) % 10000`. These are the children's ids exactly when
      `p < 9998`; from 9998 on the second child's id is never handed out next. */
  lemma BracketChildIdsNotReserved(s: Session, action: string, quantity: real,
                                   limitPrice: real, takeProfit: real, stopLoss: real)
    requires 0 <= s.orderId < OrderIdModulus
    ensures var (p, s1) := GetOrderId(s);
            var (q1, s2) := GetOrderId(s1);
            var (q2, _) := GetOrderId(s2);
            q1 == (p + 1) % OrderIdModulus && q2 == (p + 2) % OrderIdModulus
    ensures var (p, s1) := GetOrderId(s);
            var orders := BracketOrder(p, action, quantity, limitPrice, takeProfit, stopLoss);
            var (q1, s2) := GetOrderId(s1);
            var (q2, _) := GetOrderId(s2);
            (q1 == orders[1].orderId && q2 == orders[2].orderId <==> p < OrderIdModulus - 2)
  {
    var (p, s1) := GetOrderId(s);
    var (q1, s2) := GetOrderId(s1);
    var (q2, _) := GetOrderId(s2);
    if p < OrderIdModulus - 2 {
      assert q1 == p + 1 && q2 == p + 2;
    } else if p == OrderIdModulus - 2 {
      assert q2 == 0;
    } else {
      assert q1 == 0 && q2 == 1;
    }
  }

  /** Near the top of the range the children's ids leave it: a parent id of
      9999 gives a stop-loss id of 10001, which the counter never hands out. */
  lemma BracketIdsExceedCounterRange(action: string, quantity: real,
                                     limitPrice: real, takeProfit: real, stopLoss: real)
    ensures var orders := BracketOrder(OrderIdModulus - 1, action, quantity, limitPrice, takeProfit, stopLoss);
            orders[2].orderId == 10001 && orders[2].orderId >= OrderIdModulus
  {
  }
}
