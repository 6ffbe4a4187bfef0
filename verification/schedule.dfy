/** The trading-hours check of `isRegTradingHour`, with the gateway I/O
abstracted: given a contract's `tradingHours` string and a reference time, it
answers 1 (inside a trading range), 0 (inside none) or raises.

The string is `;`-separated; each range is empty, contains `CLOSED`, or is
`YYYYMMDD:HHMM-YYYYMMDD:HHMM`. The two wrappers differ on the empty range:
`IbkrApi` skips it, while in `IbInsyncApi` the `pass` does not guard the
following `if`/`else`, so `''.split('-')` fails to unpack into two names.
 */
module Schedule {
  import opened Outcome
  import opened Text
  import opened Timestamp

  /** Which wrapper's loop is evaluated: `IbkrApi` (ibapi) or `IbInsyncApi`. */
  datatype Variant = IbApi | IbInsync

  /** What one range of the schedule means to the loop. */
  datatype Segment = Skipped | Closed | Window(start: DateTime, end: DateTime)

  const ClosedMarker := "CLOSED"
  const RangeSeparator := ';'
  const BoundSeparator := '-'

  /** `startTime, endTime = range.split('-')` followed by the two `strptime`
      calls, start first. */
  function ParseWindow(text: string): (r: Result<Segment>)
    ensures r.Ok? ==> r.value.Window?
    ensures r.Ok? ==> Valid(r.value.start) && r.value.start.second == 0
    ensures r.Ok? ==> Valid(r.value.end) && r.value.end.second == 0
    ensures |Split(text, BoundSeparator)| != 2 ==> r == Err(UnpackMismatch(|Split(text, BoundSeparator)|))
    ensures |Split(text, BoundSeparator)| == 2 ==>
      (r.Err? <==> ParseStamp(Split(text, BoundSeparator)[0]).Err? || ParseStamp(Split(text, BoundSeparator)[1]).Err?)
    ensures |Split(text, BoundSeparator)| == 2 && ParseStamp(Split(text, BoundSeparator)[0]).Err? ==>
      r == Err(BadTimestamp(Split(text, BoundSeparator)[0]))
  {
    var halves := Split(text, BoundSeparator);
    if |halves| != 2 then Err(UnpackMismatch(|halves|))
    else
      var start :- ParseStamp(halves[0]);
      var end :- ParseStamp(halves[1]);
      Ok(Window(start, end))
  }

  /** The text of a trading range between two whole minutes. */
  function FormatWindow(start: DateTime, end: DateTime): string
    requires Valid(start) && Valid(end)
  {
    FormatStamp(start) + [BoundSeparator] + FormatStamp(end)
  }

  lemma NoSeparatorInStamp(d: DateTime)
    requires Valid(d)
    ensures BoundSeparator !in FormatStamp(d)
  {
    var text := FormatStamp(d);
    forall k | 0 <= k < |text|
      ensures text[k] != BoundSeparator
    {
      if k < 8 {
        assert text[k] == (PadDigits(d.year, 4) + PadDigits(d.month, 2) + PadDigits(d.day, 2))[k];
      } else if k > 8 {
        assert text[k] == (PadDigits(d.hour, 2) + PadDigits(d.minute, 2))[k - 9];
      }
    }
  }

  /** A formatted range parses back to its bounds. */
  lemma ParseFormatWindow(start: DateTime, end: DateTime)
    requires Valid(start) && start.second == 0
    requires Valid(end) && end.second == 0
    ensures ParseWindow(FormatWindow(start, end)) == Ok(Window(start, end))
  {
    NoSeparatorInStamp(start);
    NoSeparatorInStamp(end);
    var parts := [FormatStamp(start), FormatStamp(end)];
    SplitJoin(parts, BoundSeparator);
    assert Join(parts, BoundSeparator) == FormatWindow(start, end);
    ParseFormatStamp(start);
    ParseFormatStamp(end);
  }

  /** A range the parser accepts is the formatting of its bounds. */
  lemma FormatParseWindow(text: string)
    requires ParseWindow(text).Ok?
    ensures FormatWindow(ParseWindow(text).value.start, ParseWindow(text).value.end) == text
  {
    var halves := Split(text, BoundSeparator);
    JoinSplit(text, BoundSeparator);
    FormatParseStamp(halves[0]);
    FormatParseStamp(halves[1]);
  }

  /** How one loop iteration treats one range of the schedule. */
  function ClassifySegment(v: Variant, text: string): (r: Result<Segment>)
    ensures r == Ok(Skipped) <==> v == IbApi && |text| == 0
    ensures Contains(text, ClosedMarker) ==> r == Ok(Closed)
    ensures !Contains(text, ClosedMarker) && !(v == IbApi && |text| == 0) ==> r == ParseWindow(text)
  {
    if v == IbApi && |text| == 0 then Ok(Skipped)
    else if Contains(text, ClosedMarker) then Ok(Closed)
    else ParseWindow(text)
  }

  /** `startTime <= currTime <= endTime` for an open range: both ends inclusive. */
  predicate Matches(seg: Result<Segment>, now: DateTime) {
    seg.Ok? && seg.value.Window? && NotAfter(seg.value.start, now) && NotAfter(now, seg.value.end)
  }

  /** The loop over the ranges: the first range that raises or matches decides. */
  function EvaluateRanges(v: Variant, ranges: seq<string>, now: DateTime): (r: Result<int>)
    ensures r.Ok? ==> r.value == 0 || r.value == 1
    decreases |ranges|
  {
    if |ranges| == 0 then Ok(0)
    else
      var seg := ClassifySegment(v, ranges[0]);
      if seg.Err? then Err(seg.error)
      else if Matches(seg, now) then Ok(1)
      else EvaluateRanges(v, ranges[1..], now)
  }

  /** `isRegTradingHour` with the schedule string and reference time as inputs. */
  function IsRegTradingHour(v: Variant, tradingHours: string, now: DateTime): (r: Result<int>)
    ensures r.Ok? ==> r.value == 0 || r.value == 1
  {
    EvaluateRanges(v, Split(tradingHours, RangeSeparator), now)
  }

  /** None of the first `i` ranges raises or matches. */
  predicate Pending(v: Variant, ranges: seq<string>, now: DateTime, i: int) {
    && 0 <= i <= |ranges|
    && forall j :: 0 <= j < i ==>
         ClassifySegment(v, ranges[j]).Ok? && !Matches(ClassifySegment(v, ranges[j]), now)
  }

  /** The outcome of the loop, stated without the loop: 1 exactly when some
      range matches with no earlier range raising or matching; an error
      exactly when some range raises with no earlier range raising or
      matching (and it is that range's error); 0 exactly when every range
      parses and none matches. */
  lemma {:induction false} EvaluateRangesFirstDecides(v: Variant, ranges: seq<string>, now: DateTime)
    ensures EvaluateRanges(v, ranges, now) == Ok(1) <==>
      exists i :: 0 <= i < |ranges| && Pending(v, ranges, now, i) && Matches(ClassifySegment(v, ranges[i]), now)
    ensures EvaluateRanges(v, ranges, now).Err? <==>
      exists i :: 0 <= i < |ranges| && Pending(v, ranges, now, i) && ClassifySegment(v, ranges[i]).Err?
    ensures EvaluateRanges(v, ranges, now).Err? ==>
      exists i :: 0 <= i < |ranges| && Pending(v, ranges, now, i) && ClassifySegment(v, ranges[i]).Err?
                  && ClassifySegment(v, ranges[i]).error == EvaluateRanges(v, ranges, now).error
    ensures EvaluateRanges(v, ranges, now) == Ok(0) <==> Pending(v, ranges, now, |ranges|)
    decreases |ranges|
  {
    if |ranges| > 0 {
      var seg := ClassifySegment(v, ranges[0]);
      var tail := ranges[1..];
      assert Pending(v, ranges, now, 0);
      if seg.Ok? && !Matches(seg, now) {
        EvaluateRangesFirstDecides(v, tail, now);
        forall i | 0 <= i <= |tail|
          ensures Pending(v, tail, now, i) <==> Pending(v, ranges, now, i + 1)
        {
          PendingShift(v, ranges, now, i);
        }
        forall i | 0 < i <= |ranges|
          ensures Pending(v, ranges, now, i) <==> Pending(v, tail, now, i - 1)
        {
          PendingShift(v, ranges, now, i - 1);
        }
        assert forall i :: 0 <= i < |tail| ==> tail[i] == ranges[i + 1];
      } else {
        forall i | 0 < i <= |ranges|
          ensures !Pending(v, ranges, now, i)
        {
        }
      }
    }
  }

  /** Once the first range neither raises nor matches, being pending past
      `i + 1` ranges is being pending past `i` ranges of the rest. */
  lemma PendingShift(v: Variant, ranges: seq<string>, now: DateTime, i: int)
    requires |ranges| > 0 && 0 <= i < |ranges|
    requires ClassifySegment(v, ranges[0]).Ok? && !Matches(ClassifySegment(v, ranges[0]), now)
    ensures Pending(v, ranges[1..], now, i) <==> Pending(v, ranges, now, i + 1)
  {
    var tail := ranges[1..];
    assert forall j :: 0 < j < i + 1 ==> ranges[j] == tail[j - 1];
    if Pending(v, tail, now, i) {
      forall j | 0 <= j < i + 1
        ensures ClassifySegment(v, ranges[j]).Ok? && !Matches(ClassifySegment(v, ranges[j]), now)
      {
        if j > 0 {
          assert ranges[j] == tail[j - 1];
        }
      }
    }
  }

  /** Running the loop over two lists back to back: the second list is only
      reached when the first yields 0, so a match shields every later range,
      malformed or not. */
  lemma {:induction false} EvaluateRangesAppend(v: Variant, first: seq<string>, second: seq<string>, now: DateTime)
    ensures EvaluateRanges(v, first + second, now) ==
      if EvaluateRanges(v, first, now) == Ok(0) then EvaluateRanges(v, second, now)
      else EvaluateRanges(v, first, now)
    decreases |first|
  {
    if |first| > 0 {
      assert (first + second)[0] == first[0];
      assert (first + second)[1..] == first[1..] + second;
      EvaluateRangesAppend(v, first[1..], second, now);
    } else {
      assert first + second == second;
    }
  }

  /** A range containing `CLOSED` never matches, whatever times it mentions:
      a schedule made only of such ranges yields 0 in both wrappers. */
  lemma {:induction false} AllClosedYieldsZero(v: Variant, ranges: seq<string>, now: DateTime)
    requires forall i :: 0 <= i < |ranges| ==> Contains(ranges[i], ClosedMarker)
    ensures EvaluateRanges(v, ranges, now) == Ok(0)
  {
    EvaluateRangesFirstDecides(v, ranges, now);
    assert Pending(v, ranges, now, |ranges|);
  }

  /** On schedules with no empty range the two wrappers agree. */
  lemma {:induction false} VariantsAgreeWithoutEmptyRanges(ranges: seq<string>, now: DateTime)
    requires forall i :: 0 <= i < |ranges| ==> |ranges[i]| > 0
    ensures EvaluateRanges(IbApi, ranges, now) == EvaluateRanges(IbInsync, ranges, now)
    decreases |ranges|
  {
    if |ranges| > 0 {
      assert ClassifySegment(IbApi, ranges[0]) == ClassifySegment(IbInsync, ranges[0]);
      VariantsAgreeWithoutEmptyRanges(ranges[1..], now);
    }
  }

  /** `IbInsyncApi` raises on an empty range: `''.split('-')` is `['']`. */
  lemma EmptyRangeRaisesInInsync()
    ensures ClassifySegment(IbInsync, "") == Err(UnpackMismatch(1))
    ensures ClassifySegment(IbApi, "") == Ok(Skipped)
  {
    assert Split("", BoundSeparator) == [""];
  }

  /** A trailing `;` (one extra empty range at the end) changes nothing for
      `IbkrApi`, while for `IbInsyncApi` it turns every 0 into an error; a 1
      is unaffected because the loop returns before reaching the end. */
  lemma TrailingSeparator(tradingHours: string, now: DateTime)
    ensures IsRegTradingHour(IbApi, tradingHours + [RangeSeparator], now)
            == IsRegTradingHour(IbApi, tradingHours, now)
    ensures IsRegTradingHour(IbInsync, tradingHours + [RangeSeparator], now) ==
      if IsRegTradingHour(IbInsync, tradingHours, now) == Ok(0) then Err(UnpackMismatch(1))
      else IsRegTradingHour(IbInsync, tradingHours, now)
  {
    var ranges := Split(tradingHours, RangeSeparator);
    SplitTrailingSeparator(tradingHours, RangeSeparator);
    EmptyRangeRaisesInInsync();
    EvaluateRangesAppend(IbApi, ranges, [""], now);
    EvaluateRangesAppend(IbInsync, ranges, [""], now);
  }

  /** `IbkrApi` ignores empty ranges wherever they sit. */
  lemma {:induction false} IbApiSkipsEmptyRanges(before: seq<string>, after: seq<string>, now: DateTime)
    ensures EvaluateRanges(IbApi, before + [""] + after, now) == EvaluateRanges(IbApi, before + after, now)
  {
    EvaluateRangesAppend(IbApi, before + [""], after, now);
    EvaluateRangesAppend(IbApi, before, [""], now);
    EvaluateRangesAppend(IbApi, before, after, now);
  }

  /** The bounds have minute precision and the reference time has seconds:
      inside the end minute a range still matches at second 00 and no later. */
  lemma EndMinuteMatchesOnlyAtSecondZero(start: DateTime, end: DateTime, now: DateTime)
    requires start.second == 0 && end.second == 0 && NotAfter(start, end)
    requires now.year == end.year && now.month == end.month && now.day == end.day
    requires now.hour == end.hour && now.minute == end.minute
    requires 0 <= now.second <= 59
    ensures Matches(Ok(Window(start, end)), now) <==> now.second == 0
  {
  }

  /** The characters a formatted range is made of. */
  predicate RangeAlphabet(c: char) {
    IsDigit(c) || c == ':' || c == BoundSeparator
  }

  lemma FormatWindowAlphabet(start: DateTime, end: DateTime)
    requires Valid(start) && Valid(end)
    ensures forall k :: 0 <= k < |FormatWindow(start, end)| ==> RangeAlphabet(FormatWindow(start, end)[k])
  {
    var a := FormatStamp(start);
    var b := FormatStamp(end);
    forall k | 0 <= k < |a|
      ensures RangeAlphabet(a[k])
    {
      if k < 8 {
        assert a[k] == (PadDigits(start.year, 4) + PadDigits(start.month, 2) + PadDigits(start.day, 2))[k];
      } else if k > 8 {
        assert a[k] == (PadDigits(start.hour, 2) + PadDigits(start.minute, 2))[k - 9];
      }
    }
    forall k | 0 <= k < |b|
      ensures RangeAlphabet(b[k])
    {
      if k < 8 {
        assert b[k] == (PadDigits(end.year, 4) + PadDigits(end.month, 2) + PadDigits(end.day, 2))[k];
      } else if k > 8 {
        assert b[k] == (PadDigits(end.hour, 2) + PadDigits(end.minute, 2))[k - 9];
      }
    }
    var text := FormatWindow(start, end);
    forall k | 0 <= k < |text|
      ensures RangeAlphabet(text[k])
    {
      if k < |a| {
        assert text[k] == a[k];
      } else if k > |a| {
        assert text[k] == b[k - |a| - 1];
      }
    }
  }

  lemma FormattedWindowIsOneOpenRange(start: DateTime, end: DateTime)
    requires Valid(start) && Valid(end)
    ensures Split(FormatWindow(start, end), RangeSeparator) == [FormatWindow(start, end)]
    ensures !Contains(FormatWindow(start, end), ClosedMarker)
  {
    var text := FormatWindow(start, end);
    FormatWindowAlphabet(start, end);
    assert RangeSeparator !in text by {
      forall k | 0 <= k < |text|
        ensures text[k] != RangeSeparator
      {
        assert RangeAlphabet(text[k]);
      }
    }
    SplitJoin([text], RangeSeparator);
    forall i
      ensures !OccursAt(text, ClosedMarker, i)
    {
      if 0 <= i < |text| {
        assert RangeAlphabet(text[i]);
      }
    }
  }

  /** A schedule of one well-formed range answers exactly whether the
      reference time lies between its bounds, both ends included; for
      example `20240101:0930-20240101:1600` gives 1 at 12:00:00 that day
      and 0 at 20:00:00. */
  lemma SingleRangeSchedule(v: Variant, start: DateTime, end: DateTime, now: DateTime)
    requires Valid(start) && start.second == 0
    requires Valid(end) && end.second == 0
    ensures IsRegTradingHour(v, FormatWindow(start, end), now)
         == Ok(if NotAfter(start, now) && NotAfter(now, end) then 1 else 0)
  {
    var text := FormatWindow(start, end);
    FormattedWindowIsOneOpenRange(start, end);
    ParseFormatWindow(start, end);
    assert ClassifySegment(v, text) == Ok(Window(start, end));
    assert EvaluateRanges(v, [text][1..], now) == Ok(0);
  }
}
