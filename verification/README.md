# Interactive Brokers wrapper core, modelled in Dafny

The repository wraps an Interactive Brokers gateway in two classes:
`IbkrApi` (on the official `ibapi` client) and `IbInsyncApi` (on `ib_insync`).
Almost everything they do is a request to the gateway followed by a fixed
sleep. This model covers the parts that are pure logic. Gateway replies are
inputs, and callbacks are applied one after another in delivery order.

- **Identifier generators** (`Counters`, `Session.GetOrderId`, `Session.GetReqId`).
  `get_order_id` and `get_req_id` hand out the counter's current value and
  store `(value + 1) % 10000` or `(value + 1) % 20000`.
- **Bracket orders** (`Bracket`). `BracketOrder` builds a parent limit order,
  a take-profit limit order and a stop-loss stop order. The three are linked
  by their ids and parent id, and only the last one transmits.
- **Trading-hours check** (`Text`, `Timestamp`, `Schedule`). This is the loop
  of `isRegTradingHour`. It takes a `;`-separated `tradingHours` string and a
  reference time, and answers 1, 0 or an exception. `Variant` selects which
  wrapper's loop runs.
- **Period table** (`Periods`). `IBKR_PERIOD_MAPPING` is a table of six
  labels. Any other label raises `KeyError`.
- **Session state** (`Session`). This covers the two counters and the two
  callback buffers. `reset_hist_data_temp`/`historicalData` and
  `resetAccountDataTemp`/`accountSummary` form small append-only state
  machines. `get_historical_data` and `getCashVal` are modelled as sequences
  of those steps.
- **ib_insync history request** (`InsyncApi`). This is the order in which
  `getHistoricalData` checks trading hours and looks up the period.

Exceptions are `Outcome.Error` values:
- `UnpackMismatch` for `split('-')` not giving two halves.
- `BadTimestamp` for `strptime` rejecting a bound.
- `UnknownPeriod` for the period table's `KeyError`.

When an operation raises, the model still returns the session state left by
the steps before the exception, as Python does.

### Where the code and its comments disagree (the model follows the code)

- **Order ids wrap to 0, not 1.** The comment at `ibkr_api.py:65` says the
  counter resets to 1. The arithmetic hands out 9999 and then 0, and 0 is
  handed out once in every cycle (`Counters.OrderIdWrapsToZero`,
  `Counters.OneCycleIssuesEachIdOnce`). The repository's test asserts that
  the call after 10000 calls hands out 1. The arithmetic gives 1 there,
  because 10000 calls make exactly one full cycle
  (`Counters.OrderIdTestScenario`).
- **Request ids wrap to 0, not 10000.** The comment at `ibkr_api.py:74` says
  the counter resets to 10000. A fresh counter hands out 10000 … 19999 and
  then 0 (`Counters.ReqIdSequenceFromStart`). After that, request ids run
  through 0 … 9999 as well.
- **Both period tables are the same.** `IBKR_PERIOD_MAPPING` in
  `ibkr_api.py:17-24` and in `ib_insync_if.py:17-24` holds the same six
  entries, so the model defines the table once.
- **The server time has no validity window.** `getCurrTime` sends a time
  request on every call (`ibkr_api.py:193-203`, `ib_insync_if.py:44-55`), and
  no staleness check decides whether to reuse an earlier answer. `IbkrApi`
  keeps only the last reply in `self.serverTime`. After its 0.1-second wait,
  `getCurrTime` returns whatever that attribute holds, which is the previous
  reply when the new one is late. That attribute is left out together with
  the time conversion.
- **Empty ranges behave differently in the two wrappers.** `IbkrApi` skips
  them. In `IbInsyncApi` the `pass` does not guard the following
  `if`/`else`. An empty range therefore reaches `''.split('-')` and fails to
  unpack (`Schedule.EmptyRangeRaisesInInsync`). A trailing `;` turns every
  0 answer into an exception (`Schedule.TrailingSeparator`).

## Model

| member | source | states |
|---|---|---|
| Counters.Advance | ibkr_api.py:64-66 | One call hands out the pre-call value. The stored counter always lands in `[0, modulus)`, goes up by one inside the range, and goes from `modulus - 1` to 0 |
| Counters.IssuedWithinCycle | ibkr_api.py:64-66 | Within one cycle from an in-range counter, the i-th call hands out `counter + i`, or `counter + i - modulus` once that passes the top. The counter after n calls is the next position of the cycle |
| Counters.OneCycleIssuesEachIdOnce | ibkr_api.py:64-65 | `modulus` consecutive calls hand out every value of `[0, modulus)` exactly once, 0 included, and bring the counter back to its start |
| Counters.OrderIdTestScenario | tests/test_ibkr_api.py:7-11 | From the initial order counter 1, 10000 calls return the counter to 1, so the next call hands out 1 |
| Counters.OrderIdWrapsToZero | ibkr_api.py:65 | After handing out 9999, the order counter hands out 0, not the 1 its comment promises |
| Counters.ReqIdSequenceFromStart | ibkr_api.py:73-75 | From the initial request counter 10000, the first 10000 calls hand out 10000 … 19999 and the next call hands out 0, not 10000 |
| Session.Init | ibkr_api.py:34-43 | A new session has request counter 10000, order counter 1 and both buffers empty |
| Session.GetOrderId | ibkr_api.py:58-66 | Hands out the current order id. Only the order counter changes: it stays in `[0, 10000)`, goes up by one, and wraps from 9999 to 0 |
| Session.GetReqId | ibkr_api.py:68-75 | Hands out the current request id. Only the request counter changes: it stays in `[0, 20000)`, goes up by one, and wraps from 19999 to 0 |
| Bracket.BracketOrder | ibkr_api.py:120-151 | Exactly three orders with ids p, p+1, p+2, not reduced modulo 10000. Types are LMT, LMT, STP and transmit flags false, false, true. All three have the same quantity. Prices pass through to the matching field. Both children have parent id p, and a child SELLs exactly when the action is "BUY" (otherwise it BUYs) |
| Bracket.RecoverBracketOrder | ibkr_api.py:120-151 | The call's six arguments can be read back from the three orders, so different calls build different brackets |
| Bracket.BracketOrderRecovered | ibkr_api.py:120-151 | A field-wise shape (three orders, ids p, p+1, p+2, types LMT/LMT/STP, transmit false/false/true, one quantity, children with parent id p on the opposite side, only the prices the code sets) holds exactly when the list is the bracket of the arguments read from its fields, and so exactly when some `BracketOrder` call builds it |
| Bracket.ChildrenTakeOppositeSide | ibkr_api.py:130-141 | For "BUY" and "SELL" the children take the other side. For any other action string they BUY |
| Session.BracketChildIdsNotReserved | ibkr_api.py:131-140 | Building a bracket does not advance the order counter. For every in-range counter, after the parent id p comes from `get_order_id`, the next two calls hand out `(p + 1) % 10000` and `(p + 2) % 10000`. These are the children's ids exactly when p < 9998 |
| Session.BracketIdsExceedCounterRange | ibkr_api.py:140 | A parent id of 9999 gives a stop-loss id of 10001, which the order counter never hands out |
| Text.Split | ibkr_api.py:165 | `str.split` with one separator character gives at least one piece, and no piece contains the separator |
| Text.JoinSplit | ibkr_api.py:165 | Joining the pieces of a split with the separator gives back the original string |
| Text.SplitJoin | ibkr_api.py:175 | Splitting a join of separator-free pieces gives back the pieces |
| Text.SplitTrailingSeparator | ib_insync_if.py:89 | A separator appended at the end adds exactly one empty final piece |
| Text.Contains | ibkr_api.py:172 | `pat in s` holds exactly when `pat` occurs in `s` at some index |
| Timestamp.ParseStamp | ibkr_api.py:176-177 | Accepted text is 13 characters with a colon at index 8. It yields a valid date-time (real calendar day, hour ≤ 23, minute ≤ 59) with seconds 0. Rejected text raises `BadTimestamp` naming that text |
| Timestamp.ParseFormatStamp | ibkr_api.py:176-177 | Every valid whole-minute date-time is read back from its `%Y%m%d:%H%M` text |
| Timestamp.FormatParseStamp | ibkr_api.py:176-177 | Every accepted text is the formatting of the value it yields, so no two accepted texts name the same minute |
| Schedule.ParseWindow | ibkr_api.py:175-177 | A range that does not split into exactly two halves on `-` raises `UnpackMismatch` with the number of pieces. Otherwise it raises exactly when a half fails to parse, naming the start half first. On success both bounds are valid and on the minute |
| Schedule.ParseFormatWindow | ibkr_api.py:175-177 | A formatted `start-end` range parses back to its two bounds |
| Schedule.FormatParseWindow | ibkr_api.py:175-177 | Any range the parser accepts is the formatting of its two bounds |
| Schedule.ClassifySegment | ibkr_api.py:170-177 | An empty range is skipped exactly in the `IbkrApi` loop. A range containing `CLOSED` is closed and never parsed. Any other range is parsed as `start-end` |
| Schedule.EvaluateRanges | ibkr_api.py:167-185 | The loop answers only 0 or 1 when it does not raise |
| Schedule.IsRegTradingHour | ib_insync_if.py:88-110 | One reference time is taken for the whole schedule and compared against every range. The answer is the integer 1 or 0, or an exception |
| Schedule.EvaluateRangesFirstDecides | ibkr_api.py:167-185 | The answer is 1 exactly when some range matches inclusively (start ≤ t ≤ end) with no earlier range raising or matching. It raises exactly when some range raises before any match, and the error is that range's. It is 0 exactly when every range is skipped, closed or parsed without a match |
| Schedule.EvaluateRangesAppend | ibkr_api.py:183-185 | Ranges after the first decisive one are never looked at. A match therefore shields any later malformed range, and the loop over `a + b` answers for `b` only when `a` answers 0 |
| Schedule.AllClosedYieldsZero | ib_insync_if.py:100-101 | A schedule whose ranges all contain `CLOSED` answers 0 in both wrappers, whatever times those ranges mention |
| Schedule.VariantsAgreeWithoutEmptyRanges | ib_insync_if.py:98-105 | On schedules with no empty range the two wrappers' loops give the same answer |
| Schedule.EmptyRangeRaisesInInsync | ib_insync_if.py:98-103 | In `IbInsyncApi` an empty range raises an unpack error, because `''.split('-')` has one piece. In `IbkrApi` it is skipped |
| Schedule.TrailingSeparator | ib_insync_if.py:89-110 | A trailing `;` changes nothing for `IbkrApi`. For `IbInsyncApi` it turns a 0 answer into an unpack error and leaves 1 and errors alone |
| Schedule.IbApiSkipsEmptyRanges | ibkr_api.py:170-171 | `IbkrApi` gives the same answer with or without an empty range at any position |
| Schedule.EndMinuteMatchesOnlyAtSecondZero | ibkr_api.py:176-183 | Bounds are whole minutes and the reference time has seconds. Within the end minute a range still matches at second 00 and at no later second |
| Schedule.SingleRangeSchedule | ib_insync_if.py:103-110 | A schedule of one well-formed range answers 1 exactly when start ≤ t ≤ end, with both ends included. For example `20240101:0930-20240101:1600` answers 1 at noon and 0 at 20:00 |
| Periods.LookupPeriod | ibkr_api.py:17-24 | The lookup succeeds for exactly 5m, 10m, 30m, 1h, 4h and 1d, giving "5 mins", "10 mins", "30 mins", "1 hour", "4 hours", "1 day". Any other label raises `UnknownPeriod` naming it |
| Periods.LookupPeriodInjective | ib_insync_if.py:17-24 | No two labels map to the same bar size |
| Session.ResetHistData | ibkr_api.py:238-239 | Empties the history buffer and changes nothing else |
| Session.OnHistoricalData | ibkr_api.py:241-252 | Appends exactly one record at the end, copying date, open, high, low, close and volume from the bar. Earlier records and everything else are unchanged |
| Session.Records | ibkr_api.py:245-252 | The records of a bar list have the same length, and record i is built from bar i |
| Session.DeliverBars | ibkr_api.py:241-252 | A run of callbacks leaves the old buffer followed by the new bars' records, in delivery order |
| Session.DeliverBarsInBatches | ibkr_api.py:245 | Delivering bars in two batches gives the same buffer as delivering them at once, with no duplicates and no reordering |
| Session.GetHistoricalData | ibkr_api.py:230-236 | Neither the order counter nor the account buffer changes. If the schedule raises, the history buffer is empty and one request id has been drawn. Otherwise exactly two are drawn. The result is returned exactly when the schedule evaluates and the period is mapped; an unmapped period raises `UnknownPeriod` after the second draw. The request carries the second id drawn, the schedule's 0/1 as its trading-hours flag and the mapped bar size. It returns exactly the delivered bars' records |
| Session.HistoryStartsFromEmptyBuffer | ibkr_api.py:230-233 | The reply does not depend on what the buffer held before. From an in-range counter the request id is the counter plus one, wrapping to 0 |
| Session.ResetAccountData | ibkr_api.py:54-56 | Empties the account buffer and changes nothing else |
| Session.OnAccountSummary | ibkr_api.py:323-334 | Appends exactly one record built from the callback's request id, tag, value, currency and account. Earlier records and everything else are unchanged |
| Session.DeliverAccountSummaries | ibkr_api.py:323-334 | A run of callbacks keeps the old records and adds one record per callback, in order |
| Session.GetCashVal | ibkr_api.py:269-275 | Draws one request id, then returns exactly the records of the delivered summary rows, in order. The order counter and the history buffer are untouched |
| InsyncApi.InsyncHistoryRequest | ib_insync_if.py:124-126 | The trading-hours check runs first, and its exception wins. Then an unmapped period raises `UnknownPeriod`. Otherwise the request carries the 0/1 answer, the mapped bar size and the duration |
| InsyncApi.WrappersAgreeOnHistoryRequest | ib_insync_if.py:124-126 | Given the same reference time and a schedule with no empty range, both wrappers succeed or fail together, and their requests carry the same bar size, trading-hours flag and duration |

## Left out

- Gateway I/O: `connect`, `modifySession`, `run`, `reqContractDetails`, `reqCurrentTime`, `reqHistoricalData`, `reqAccountSummary`/`cancelAccountSummary`, and every `sleep`. Replies are inputs, and callbacks are applied in sequence. The race between the callback thread and the fixed sleep is concurrency.
- The `contractDetails` callback and `conDetTemp`: the schedule string is an input, so a missing or stale contract detail is not modelled.
- Time conversion (`currentTime`, and `getCurrTime` in both wrappers), including the last reply `IbkrApi` keeps in `self.serverTime`. It depends on host-local offsets, float epoch seconds and a datetime library. The reference time is a `DateTime` input, so a `None` server time (a `TypeError` in `strptime`) is not modelled.
- InsyncApi.WrappersAgreeOnHistoryRequest: agreement is stated for one shared reference time. The wrappers derive that time differently. `IbkrApi.currentTime` subtracts 4 hours from the host's local time, because its local-offset correction always rounds to 0 (`ibkr_api.py:210-217`). `IbInsyncApi.getCurrTime` uses UTC-5 (`ib_insync_if.py:50-52`). At one instant the two reference times can differ, so their trading-hours flags can differ.
- Schedule.IsRegTradingHour: `IbkrApi` fetches the current time again for each parsed range. The model compares every range against one reference time.
- `strptime` leniency: Python also accepts shorter fields (every field except `%Y` may have one digit, and a day may have a leading space) and non-ASCII digits. The model accepts only the fixed-width 13-character form.
- The end time passed to `reqHistoricalData` (`self.serverTime` or a second `getCurrTime`) and the contract object are not part of the modelled request.
- Python returns the buffer list object itself from `get_historical_data` and `getCashVal`, so callbacks arriving after the sleep would still change the returned list. That is aliasing under concurrency, and is not modelled.
- Session.GetCashVal: the `try`/`except` that returns `[]` has no exception source left in the model, so that path is not modelled.
- Print-only methods: `error`, `updatePortfolio`, `accountSummaryEnd`, `updateAccountTime` and `accountDownloadEnd`. The `print` in `resetAccountDataTemp` (`ibkr_api.py:55`) is dropped as well; `Session.ResetAccountData` models only the reset. Also the ib_insync `getCashVal` and the pandas `util.df` conversion.
- `create_contract`/`createContract`: they fill a library `Contract`. The internals of `Contract` and `Order` are out of scope, and only the order fields `BracketOrder` sets are modelled.
- Prices and quantities are floats. They are passed through without arithmetic, so they are modelled as `real`.
- `polygon_api.py`: an HTTP client with no logic beyond request templating.
- The example driver scripts.
