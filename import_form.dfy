/**
 * The timetable import form of the client (`ImportTimetable` page): the day
 * toggles, the preview of matching dates, the form checks, and the slots the
 * form posts (one per selected weekday).
 *
 * Weekdays here are numbered as `Date.getDay` numbers them: 0 is Sunday.
 */
module ImportForm {
  import opened Wrappers
  import Calendar
  import DateText
  import Serializers
  import Views

  /** The seven day toggles. */
  datatype Days = Days(sun: bool, mon: bool, tue: bool, wed: bool, thu: bool, fri: bool, sat: bool)

  type DayKey = k: int | 0 <= k < 7

  /** `days[dayKeys[k]]`: `dayKeys` lists the toggles Sunday first, as `getDay` counts. */
  function DayOn(days: Days, k: DayKey): bool
  {
    match k
    case 0 => days.sun
    case 1 => days.mon
    case 2 => days.tue
    case 3 => days.wed
    case 4 => days.thu
    case 5 => days.fri
    case 6 => days.sat
  }

  /** `WEEKDAYS[k]`: the weekday name the server expects for toggle k. */
  function WeekdayName(k: DayKey): (name: string)
    ensures name in Serializers.Weekdays
  {
    ["Sun", "Mon", "Tue", "Wed", "Thu", "Fri", "Sat"][k]
  }

  /**
   * The two weekday numberings meet here: the server's Monday-first index of
   * `WEEKDAYS[k]` is the Python weekday of exactly the days whose `getDay` is k.
   */
  lemma WeekdayNameAgrees(k: DayKey, d: int)
    ensures Views.WeekdayIndex(WeekdayName(k)) == Some(Calendar.PyWeekday(d)) <==> Calendar.JsDay(d) == k
  {
    Calendar.JsDayIsPyWeekdayShifted(d);
  }

  /** `toggleDay(k)`: day k flips and the six others keep their value. */
  function ToggleDay(days: Days, k: DayKey): (r: Days)
    ensures DayOn(r, k) == !DayOn(days, k)
    ensures forall j: DayKey :: j != k ==> DayOn(r, j) == DayOn(days, j)
  {
    match k
    case 0 => days.(sun := !days.sun)
    case 1 => days.(mon := !days.mon)
    case 2 => days.(tue := !days.tue)
    case 3 => days.(wed := !days.wed)
    case 4 => days.(thu := !days.thu)
    case 5 => days.(fri := !days.fri)
    case 6 => days.(sat := !days.sat)
  }

  lemma ToggleDayTwice(days: Days, k: DayKey)
    ensures ToggleDay(ToggleDay(days, k), k) == days
  {
    match k
    case 0 =>
    case 1 =>
    case 2 =>
    case 3 =>
    case 4 =>
    case 5 =>
    case 6 =>
  }

  /** The days in [lo, hi] whose weekday is selected, in calendar order. */
  function MatchingDays(days: Days, lo: int, hi: int): seq<int>
    decreases hi - lo
  {
    if hi < lo then []
    else MatchingDays(days, lo, hi - 1) + (if DayOn(days, Calendar.JsDay(hi)) then [hi] else [])
  }

  /** Every selected day of [lo, hi] is listed and nothing else is. */
  lemma {:induction false} MatchingDaysMembers(days: Days, lo: int, hi: int, d: int)
    ensures d in MatchingDays(days, lo, hi) <==> lo <= d <= hi && DayOn(days, Calendar.JsDay(d))
    decreases hi - lo
  {
    if hi >= lo {
      MatchingDaysMembers(days, lo, hi - 1, d);
    }
  }

  /** The list is strictly increasing (so it has no duplicates) and stays within [lo, hi]. */
  lemma {:induction false} MatchingDaysIncreasing(days: Days, lo: int, hi: int)
    ensures forall i :: 0 <= i < |MatchingDays(days, lo, hi)| ==> lo <= MatchingDays(days, lo, hi)[i] <= hi
    ensures forall i :: 0 < i < |MatchingDays(days, lo, hi)| ==>
              MatchingDays(days, lo, hi)[i - 1] < MatchingDays(days, lo, hi)[i]
    decreases hi - lo
  {
    if hi >= lo {
      MatchingDaysIncreasing(days, lo, hi - 1);
    }
  }

  /**
   * The date strings the form holds are "" or what a date input produces,
   * which `localDate` reads; an unreadable one would make the preview loop
   * forever.
   */
  predicate Readable(date: string)
  {
    date != "" ==> DateText.LocalDate(date).Some?
  }

  /**
   * `datesInRange`: nothing when a date is missing or the start is after the
   * end; otherwise a day cursor walks from the start to the end and keeps
   * the days whose weekday is selected. Days stand for the "yyyy-MM-dd"
   * strings they are formatted as.
   */
  method DatesInRange(startDate: string, endDate: string, days: Days) returns (results: seq<int>)
    requires Readable(startDate) && Readable(endDate)
    ensures startDate == "" || endDate == "" ==> results == []
    ensures startDate != "" && endDate != "" ==>
              results == MatchingDays(days, DateText.LocalDate(startDate).value, DateText.LocalDate(endDate).value)
  {
    results := [];
    if startDate == "" || endDate == "" {
      return;
    }
    var start := DateText.LocalDate(startDate).value;
    var end := DateText.LocalDate(endDate).value;
    if start > end {
      return;
    }
    var cursor := start;
    while cursor <= end
      invariant start <= cursor <= end + 1
      invariant results == MatchingDays(days, start, cursor - 1)
      decreases end - cursor
    {
      if DayOn(days, Calendar.JsDay(cursor)) {
        results := results + [cursor];
      }
      cursor := cursor + 1;
    }
  }

  /** A number read by `Number`, or `undefined` when destructuring found no such piece. */
  datatype Field = Absent | Read(n: DateText.Num)

  /** `Number.isNaN`: false for `undefined`, which is not a number at all. */
  predicate IsNaN(f: Field)
  {
    f.Read? && f.n.NaN?
  }

  /** `const [h, m] = time.split(":").map(Number)`. */
  function TimeFields(time: string): (Field, Field)
  {
    var parts := DateText.Split(time, ':');
    (Read(DateText.StringToNumber(parts[0])),
     if |parts| > 1 then Read(DateText.StringToNumber(parts[1])) else Absent)
  }

  /** `h * 60 + m`, NaN as soon as one operand is missing or NaN. */
  function Minutes(h: Field, m: Field): DateText.Num
  {
    if h.Read? && h.n.Finite? && m.Read? && m.n.Finite? then DateText.Finite(h.n.n * 60 + m.n.n)
    else DateText.NaN
  }

  /** The form fields `validate` reads. */
  datatype Form = Form(startDate: string, endDate: string, startTime: string, endTime: string, days: Days)

  datatype FormError = MissingDates | MissingTimes | DatesOutOfOrder | NoDaySelected
                     | InvalidTimeFormat | EndNotAfterStart | NoMatchingDates

  /** The toast each refusal shows. */
  function Message(e: FormError): string
  {
    match e
    case MissingDates => "Please select start and end dates."
    case MissingTimes => "Please select start and end times."
    case DatesOutOfOrder => "Start date must be on or before end date."
    case NoDaySelected => "Please select at least one day of week."
    case InvalidTimeFormat => "Invalid time format."
    case EndNotAfterStart => "End time must be after start time."
    case NoMatchingDates => "No matching dates in the selected range."
  }

  /** Each refusal shows its own toast, so the message tells which check failed. */
  lemma MessagesDistinct(e1: FormError, e2: FormError)
    ensures Message(e1) == Message(e2) <==> e1 == e2
  {
  }

  predicate AnyDay(days: Days)
  {
    exists k: DayKey :: DayOn(days, k)
  }

  /** The start date is after the end date; an unreadable date is after nothing. */
  predicate DatesReversed(f: Form)
  {
    var s := DateText.LocalDate(f.startDate);
    var e := DateText.LocalDate(f.endDate);
    s.Some? && e.Some? && s.value > e.value
  }

  predicate TimeNaN(f: Form)
  {
    var (sh, sm) := TimeFields(f.startTime);
    var (eh, em) := TimeFields(f.endTime);
    IsNaN(sh) || IsNaN(sm) || IsNaN(eh) || IsNaN(em)
  }

  /** `eh * 60 + em <= sh * 60 + sm`; a NaN on either side makes it false. */
  predicate EndNotAfter(f: Form)
  {
    var (sh, sm) := TimeFields(f.startTime);
    var (eh, em) := TimeFields(f.endTime);
    var s := Minutes(sh, sm);
    var e := Minutes(eh, em);
    s.Finite? && e.Finite? && e.n <= s.n
  }

  /**
   * `validate`: six checks in a fixed order, the first that fails decides
   * the message, and the form passes only when none fails.
   */
  function Validate(f: Form): (r: Option<FormError>)
    ensures r.None? <==> f.startDate != "" && f.endDate != "" && f.startTime != "" && f.endTime != ""
                         && !DatesReversed(f) && AnyDay(f.days) && !TimeNaN(f) && !EndNotAfter(f)
    ensures r == Some(MissingDates) <==> f.startDate == "" || f.endDate == ""
    ensures r == Some(MissingTimes) <==> f.startDate != "" && f.endDate != "" && (f.startTime == "" || f.endTime == "")
    ensures r == Some(DatesOutOfOrder) <==> f.startDate != "" && f.endDate != "" && f.startTime != "" && f.endTime != ""
                                            && DatesReversed(f)
    ensures r == Some(NoDaySelected) <==> f.startDate != "" && f.endDate != "" && f.startTime != "" && f.endTime != ""
                                          && !DatesReversed(f) && !AnyDay(f.days)
    ensures r == Some(InvalidTimeFormat) <==> f.startDate != "" && f.endDate != "" && f.startTime != "" && f.endTime != ""
                                              && !DatesReversed(f) && AnyDay(f.days) && TimeNaN(f)
    ensures r == Some(EndNotAfterStart) <==> f.startDate != "" && f.endDate != "" && f.startTime != "" && f.endTime != ""
                                             && !DatesReversed(f) && AnyDay(f.days) && !TimeNaN(f) && EndNotAfter(f)
    ensures r != Some(NoMatchingDates)
  {
    if f.startDate == "" || f.endDate == "" then Some(MissingDates)
    else if f.startTime == "" || f.endTime == "" then Some(MissingTimes)
    else if DatesReversed(f) then Some(DatesOutOfOrder)
    else if !AnyDay(f.days) then Some(NoDaySelected)
    else if TimeNaN(f) then Some(InvalidTimeFormat)
    else if EndNotAfter(f) then Some(EndNotAfterStart)
    else None
  }

  /** "HH:MM" with both parts in digits: what a time input produces. */
  function ClockText(h: nat, m: nat): string
    requires h < 100 && m < 100
  {
    DateText.Digits(h, 2) + ":" + DateText.Digits(m, 2)
  }

  lemma ClockFields(h: nat, m: nat)
    requires h < 100 && m < 100
    ensures TimeFields(ClockText(h, m)) == (Read(DateText.Finite(h)), Read(DateText.Finite(m)))
  {
    DateText.DigitsValue(h, 2);
    DateText.DigitsValue(m, 2);
    assert ':' !in DateText.Digits(h, 2);
    assert ':' !in DateText.Digits(m, 2);
    DateText.SplitAfterPiece(DateText.Digits(h, 2), ':', DateText.Digits(m, 2));
    DateText.SplitSinglePiece(DateText.Digits(m, 2), ':');
  }

  /**
   * For times typed into time inputs, passing `validate` means the end is
   * strictly later than the start in minutes: equal times are refused.
   */
  lemma ValidClockTimesAreOrdered(f: Form, sh: nat, sm: nat, eh: nat, em: nat)
    requires sh < 100 && sm < 100 && eh < 100 && em < 100
    requires f.startTime == ClockText(sh, sm) && f.endTime == ClockText(eh, em)
    ensures Validate(f).None? <==> f.startDate != "" && f.endDate != "" && !DatesReversed(f) && AnyDay(f.days)
                                   && sh * 60 + sm < eh * 60 + em
  {
    ClockFields(sh, sm);
    ClockFields(eh, em);
  }

  /** Without a ':' the minutes are `undefined`, which `Number.isNaN` does not flag, so the time check passes. */
  lemma ValidateLetsHourOnlyThrough(f: Form)
    requires f.startDate != "" && f.endDate != "" && !DatesReversed(f) && AnyDay(f.days)
    requires f.startTime == "09" && f.endTime == "08"
    ensures Validate(f).None?
  {
    DateText.SplitSinglePiece("09", ':');
    DateText.SplitSinglePiece("08", ':');
  }

  /** The weekday keys in `Object.keys(days)` order (Sunday first) whose toggle is on. */
  function SelectedKeys(days: Days): (keys: seq<DayKey>)
    ensures forall k: DayKey :: k in keys <==> DayOn(days, k)
    ensures forall i :: 0 < i < |keys| ==> keys[i - 1] < keys[i]
  {
    SelectedFrom(days, 0)
  }

  function SelectedFrom(days: Days, k: nat): (keys: seq<DayKey>)
    requires k <= 7
    ensures forall j: DayKey :: j in keys <==> k <= j && DayOn(days, j)
    ensures forall i :: 0 <= i < |keys| ==> k <= keys[i]
    ensures forall i :: 0 < i < |keys| ==> keys[i - 1] < keys[i]
    decreases 7 - k
  {
    if k == 7 then []
    else (if DayOn(days, k) then [k as DayKey] else []) + SelectedFrom(days, k + 1)
  }

  lemma AnyDayHasKeys(days: Days)
    ensures AnyDay(days) <==> |SelectedKeys(days)| > 0
  {
    if AnyDay(days) {
      var k: DayKey :| DayOn(days, k);
      assert k in SelectedKeys(days);
    }
  }

  /** One slot of the import request, as the client sends it. */
  datatype SlotRequest = SlotRequest(
    course: string, weekday: string, startTime: string, endTime: string,
    fromDate: string, toDate: string, location: string)

  datatype SubmitResult = Rejected(error: FormError) | Posted(slots: seq<SlotRequest>)

  /**
   * `onSubmit`: refuse with the first failing check, or when no day matches
   * the range; otherwise post one slot per selected weekday, each with the
   * form's course, location and dates. The conversion of a local date and
   * time to a UTC "HH:MM" clock is the parameter `utcClock`.
   */
  method Submit(f: Form, course: string, location: string, utcClock: (string, string) -> string)
    returns (r: SubmitResult)
    requires Readable(f.startDate) && Readable(f.endDate)
    ensures Validate(f).Some? ==> r == Rejected(Validate(f).value)
    ensures r.Posted? <==> Validate(f).None? && |MatchingDays(f.days, DateText.LocalDate(f.startDate).value, DateText.LocalDate(f.endDate).value)| > 0
    ensures Validate(f).None? && r.Rejected? ==> r.error == NoMatchingDates
    ensures r.Posted? ==> |r.slots| == |SelectedKeys(f.days)|
    ensures r.Posted? ==> forall i :: 0 <= i < |r.slots| ==>
              r.slots[i] == SlotRequest(course, WeekdayName(SelectedKeys(f.days)[i]),
                                        utcClock(f.startDate, f.startTime), utcClock(f.startDate, f.endTime),
                                        f.startDate, f.endDate, location)
  {
    var err := Validate(f);
    if err.Some? {
      return Rejected(err.value);
    }
    var selectedKeys := SelectedKeys(f.days);
    if |selectedKeys| == 0 {
      AnyDayHasKeys(f.days);
      return Rejected(NoDaySelected);
    }
    var preview := DatesInRange(f.startDate, f.endDate, f.days);
    if |preview| == 0 {
      return Rejected(NoMatchingDates);
    }
    var slots := seq(|selectedKeys|, i requires 0 <= i < |selectedKeys| =>
      SlotRequest(course, WeekdayName(selectedKeys[i]),
                  utcClock(f.startDate, f.startTime), utcClock(f.startDate, f.endTime),
                  f.startDate, f.endDate, location));
    return Posted(slots);
  }

  /**
   * The preview and the server agree: on the same first and last day, the
   * days the server creates lectures on for the posted slots (Monday-first
   * weekday names) are exactly the days the form previews (Sunday-first
   * toggles).
   */
  lemma PreviewIsServerExpansion(days: Days, start: int, end: int, slots: seq<Serializers.Slot>, d: int)
    requires |slots| == |SelectedKeys(days)|
    requires forall i :: 0 <= i < |slots| ==>
               slots[i].weekday == WeekdayName(SelectedKeys(days)[i]) && slots[i].fromDate == start && slots[i].toDate == end
    ensures d in MatchingDays(days, start, end) <==> exists i :: 0 <= i < |slots| && Views.Matches(slots[i], d)
  {
    MatchingDaysMembers(days, start, end, d);
    var keys := SelectedKeys(days);
    if d in MatchingDays(days, start, end) {
      var k := Calendar.JsDay(d);
      var i :| 0 <= i < |keys| && keys[i] == k;
      WeekdayNameAgrees(k, d);
      assert Views.Matches(slots[i], d);
    }
    if i :| 0 <= i < |slots| && Views.Matches(slots[i], d) {
      WeekdayNameAgrees(keys[i], d);
      assert keys[i] in keys;
    }
  }
}
