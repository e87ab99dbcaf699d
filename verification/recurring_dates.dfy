/** `generateClassDates`: the days of a closed day range whose weekday is
    one of the requested weekdays, in calendar order. */
module RecurringDates {
  import opened Core
  import opened Calendar

  datatype DateError = MissingDate | StartAfterEnd

  /** Days `lo..hi` (both included) whose weekday is listed, ascending. */
  function MatchingDays(lo: int, hi: int, daysOfWeek: seq<int>): (r: seq<int>)
    decreases hi - lo
    ensures forall i :: 0 <= i < |r| ==> lo <= r[i] <= hi && WeekDay(r[i]) in daysOfWeek
    ensures forall d :: lo <= d <= hi && WeekDay(d) in daysOfWeek ==> d in r
    ensures forall i, j :: 0 <= i < j < |r| ==> r[i] < r[j]
    ensures |daysOfWeek| == 0 ==> r == []
  {
    if lo > hi then []
    else (if WeekDay(lo) in daysOfWeek then [lo] else []) + MatchingDays(lo + 1, hi, daysOfWeek)
  }

  /** Missing bounds and a start after the end are errors (thrown in the
      source); otherwise every day of the range with a listed weekday is
      returned exactly once, in ascending order. */
  function GenerateClassDates(startDate: Option<int>, endDate: Option<int>, daysOfWeek: seq<int>)
    : (r: Result<seq<int>, DateError>)
    ensures r == Err(MissingDate) <==> startDate.None? || endDate.None?
    ensures r == Err(StartAfterEnd) <==>
              startDate.Some? && endDate.Some? && startDate.value > endDate.value
    ensures r.Ok? ==>
              && (forall i :: 0 <= i < |r.value| ==>
                    startDate.value <= r.value[i] <= endDate.value && WeekDay(r.value[i]) in daysOfWeek)
              && (forall d :: startDate.value <= d <= endDate.value && WeekDay(d) in daysOfWeek ==> d in r.value)
              && (forall i, j :: 0 <= i < j < |r.value| ==> r.value[i] < r.value[j])
    ensures r.Ok? && daysOfWeek == [] ==> r.value == []
  {
    if startDate.None? || endDate.None? then Err(MissingDate)
    else
      var s := startDate.value;
      var e := endDate.value;
      DayStartAfterDayEndIff(s, e);
      if DayStart(s) > DayEnd(e) then Err(StartAfterEnd)
      else Ok(MatchingDays(s, e, daysOfWeek))
  }

  /** `isAfter(startOfDay(start), endOfDay(end))` holds exactly when the
      start day comes after the end day. */
  lemma DayStartAfterDayEndIff(s: int, e: int)
    ensures DayStart(s) > DayEnd(e) <==> s > e
  {
    if s > e {
      assert s * DayMs >= (e + 1) * DayMs;
    } else {
      assert s * DayMs <= e * DayMs;
    }
  }

  /** Any seven consecutive days cover every weekday, so a range of at
      least a week produces a date for every weekday requested. */
  lemma WeekLongRangeHitsEveryWeekday(s: int, e: int, daysOfWeek: seq<int>, w: int)
    requires s + 6 <= e
    requires w in daysOfWeek && 0 <= w < 7
    ensures exists i :: 0 <= i < |GenerateClassDates(Some(s), Some(e), daysOfWeek).value| &&
                        WeekDay(GenerateClassDates(Some(s), Some(e), daysOfWeek).value[i]) == w
  {
    var d := s + (w - WeekDay(s) + 7) % 7;
    assert WeekDay(d) == w;
    var r := GenerateClassDates(Some(s), Some(e), daysOfWeek).value;
    assert d in r;
  }
}
