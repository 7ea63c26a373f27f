/** `DateRangeValidator` of backend/validators/date_range.py: the window of
    days a forecast request may ask for, relative to today. Dates are day
    numbers (consecutive integers for consecutive calendar days); a date text
    arrives already read by `strptime`, and `today` is a parameter. */
module DateRange {
  import opened Common

  /** A date argument after `datetime.strptime(text, '%Y-%m-%d')`: the day it
      names, or the `ValueError` text it raised. */
  datatype DateText = Parsed(day: int) | Unparseable(reason: string)

  const MaxDaysPast := 7
  const MaxDaysFuture := 5
  const MaxRangeDays := 5

  const FormatMessage := "Invalid date format. Use %Y-%m-%d"
  const OrderMessage := "Start date must be before or equal to end date"
  const SpanMessage := "Date range cannot exceed 5 days"
  const PastMessage := "Start date cannot be more than 7 days in the past"
  const FutureMessage := "End date cannot be more than 5 days in the future"
  const ValidMessage := "Valid date range"

  /** The payload of an accepted range: both days and the inclusive count. */
  datatype Window = Window(startDay: int, endDay: int, rangeDays: int)

  /** `(is_valid, message, payload)` as `validate` returns it. */
  datatype Verdict = Verdict(valid: bool, message: string, window: Option<Window>)

  /** The acceptance condition stated in one piece, independent of the order
      in which `validate` tests its parts. */
  predicate Acceptable(startDay: int, endDay: int, today: int) {
    && startDay <= endDay
    && endDay - startDay <= MaxRangeDays
    && today - MaxDaysPast <= startDay
    && endDay <= today + MaxDaysFuture
  }

  /** `validate`: parse both, then order, span, past bound, future bound. */
  function Validate(start: DateText, end: DateText, today: int): (v: Verdict)
    ensures v.valid <==> v.window.Some?
    ensures v.valid <==> start.Parsed? && end.Parsed? && Acceptable(start.day, end.day, today)
    ensures start.Unparseable? || end.Unparseable? ==> v == Verdict(false, FormatMessage, None)
    ensures v.valid ==> v.message == ValidMessage
                        && v.window.value == Window(start.day, end.day, end.day - start.day + 1)
                        && 1 <= v.window.value.rangeDays <= MaxRangeDays + 1
  {
    if start.Unparseable? || end.Unparseable? then Verdict(false, FormatMessage, None)
    else
      var s := start.day;
      var e := end.day;
      if s > e then Verdict(false, OrderMessage, None)
      else if e - s > MaxRangeDays then Verdict(false, SpanMessage, None)
      else if s < today - MaxDaysPast then Verdict(false, PastMessage, None)
      else if e > today + MaxDaysFuture then Verdict(false, FutureMessage, None)
      else Verdict(true, ValidMessage, Some(Window(s, e, e - s + 1)))
  }

  /** The rejection a parsed pair receives is the first failing check in the
      order start after end, span, past bound, future bound. */
  lemma FirstFailureWins(s: int, e: int, today: int)
    ensures var m := Validate(Parsed(s), Parsed(e), today).message;
            && (s > e ==> m == OrderMessage)
            && (s <= e && e - s > MaxRangeDays ==> m == SpanMessage)
            && (s <= e && e - s <= MaxRangeDays && s < today - MaxDaysPast ==> m == PastMessage)
            && (s <= e && e - s <= MaxRangeDays && s >= today - MaxDaysPast && e > today + MaxDaysFuture
                ==> m == FutureMessage)
  {
  }

  /** A span longer than five days is refused for its length even when both
      ends lie inside the window of allowed days. */
  lemma SpanCheckedBeforeWindow(s: int, e: int, today: int)
    requires today - MaxDaysPast <= s <= e <= today + MaxDaysFuture
    requires e - s > MaxRangeDays
    ensures Validate(Parsed(s), Parsed(e), today) == Verdict(false, SpanMessage, None)
  {
  }

  /** `get_valid_range_bounds`, with days in place of ISO texts. */
  datatype Bounds = Bounds(earliest: int, latest: int, today: int, maxRangeDays: int)

  function GetValidRangeBounds(today: int): (b: Bounds)
    ensures b.today == today && b.earliest < today < b.latest
  {
    Bounds(today - MaxDaysPast, today + MaxDaysFuture, today, MaxRangeDays)
  }

  /** The bounds advertised are exactly the ones `validate` enforces: a pair
      of days is accepted iff it lies between `earliest` and `latest` in
      order and spans at most `max_range_days`. */
  lemma BoundsDescribeValidation(s: int, e: int, today: int)
    ensures var b := GetValidRangeBounds(today);
            Validate(Parsed(s), Parsed(e), today).valid
            <==> b.earliest <= s <= e <= b.latest && e - s <= b.maxRangeDays
  {
  }

  /** `generate_date_range`, yielding the days `format_for_display` would
      render. */
  method GenerateDateRange(startDay: int, endDay: int) returns (days: seq<int>)
    ensures |days| == if startDay <= endDay then endDay - startDay + 1 else 0
    ensures forall i :: 0 <= i < |days| ==> days[i] == startDay + i
  {
    days := [];
    var current := startDay;
    while current <= endDay
      invariant startDay <= current
      invariant current <= endDay + 1 || current == startDay
      invariant |days| == current - startDay
      invariant forall i :: 0 <= i < |days| ==> days[i] == startDay + i
      decreases endDay - current
    {
      days := days + [current];
      current := current + 1;
    }
  }

  /** An accepted range generates exactly `range_days` consecutive days,
      from the start day to the end day. */
  method GenerateValidated(start: DateText, end: DateText, today: int) returns (days: seq<int>)
    requires Validate(start, end, today).valid
    ensures var w := Validate(start, end, today).window.value;
            && |days| == w.rangeDays
            && days[0] == w.startDay && days[|days| - 1] == w.endDay
  {
    var w := Validate(start, end, today).window.value;
    days := GenerateDateRange(w.startDay, w.endDay);
  }
}
