/**
 * The weekly schedule page of the client: lectures become blocks of whole
 * hours in a Sunday-first week grid, a cell shows the first block covering
 * it, the shown week moves one week at a time within bounds, and the
 * attendance switch of the selected lecture sends a toggle.
 *
 * Times are local minutes since the epoch; the shown week is held as a day
 * number (its time of day never matters here). `now`, and the bounds six
 * months before and after it, are parameters.
 */
module WeeklySchedule {
  import opened Wrappers
  import opened ApiTypes
  import Calendar
  import DateText
  import Dashboard

  /** `GridLecture` (`rawStart` is the start timestamp; `hasNotes` is always false for now). */
  datatype GridLecture = GridLecture(
    id: string, course: string, title: string,
    day: int, startTime: int, endTime: int,
    location: string, attended: bool, hasNotes: bool, hasSummary: bool, rawStart: int)

  /** `date.getHours()` of a local timestamp. */
  function Hour(ts: int): (h: int)
    ensures 0 <= h < 24
  {
    (ts % Calendar.MinutesPerDay) / 60
  }

  /** `getDay(date)` of a local timestamp. */
  function Weekday(ts: int): (d: int)
    ensures 0 <= d < 7
  {
    Calendar.JsDay(Calendar.DateOf(ts))
  }

  /**
   * One lecture as a grid block: it starts at its start hour and ends at
   * the later of the next hour and its end hour; it is shown as attended
   * exactly when its status counts as attended, and as summarized exactly
   * when it is summarized.
   */
  function ToGrid(l: LectureApi): (g: GridLecture)
    ensures 0 <= g.day < 7 && g.day == Weekday(l.startDt)
    ensures g.startTime == Hour(l.startDt) && 0 <= g.startTime < 24
    ensures g.endTime >= g.startTime + 1 && g.endTime >= Hour(l.endDt)
    ensures g.endTime == g.startTime + 1 || g.endTime == Hour(l.endDt)
    ensures g.attended <==> CountsAsAttended(l.status)
    ensures g.hasSummary <==> l.status == Summarized
    ensures g.id == l.id && g.course == l.courseName && g.location == l.location && g.rawStart == l.startDt
  {
    var startHour := Hour(l.startDt);
    var endHour := if startHour + 1 >= Hour(l.endDt) then startHour + 1 else Hour(l.endDt);
    GridLecture(l.id, l.courseName, "Lecture", Weekday(l.startDt), startHour, endHour,
                l.location, l.status == Attended || l.status == Summarized, false, l.status == Summarized, l.startDt)
  }

  /** `gridLectures`: nothing before the lectures arrive, otherwise one block per lecture, in order. */
  function GridLectures(lectures: Option<seq<LectureApi>>): (r: seq<GridLecture>)
    ensures lectures.None? ==> r == []
    ensures lectures.Some? ==> |r| == |lectures.value| && forall i :: 0 <= i < |r| ==> r[i] == ToGrid(lectures.value[i])
  {
    if lectures.None? then []
    else seq(|lectures.value|, i requires 0 <= i < |lectures.value| => ToGrid(lectures.value[i]))
  }

  /** How many of the first `n` blocks are shown as attended. */
  function AttendedBlocks(grid: seq<GridLecture>, n: nat): nat
    requires n <= |grid|
  {
    if n == 0 then 0 else AttendedBlocks(grid, n - 1) + (if grid[n - 1].attended then 1 else 0)
  }

  /** The grid and the dashboard's progress count the same lectures as attended. */
  lemma {:induction false} GridAgreesWithProgress(ls: seq<LectureApi>, n: nat)
    requires n <= |ls|
    ensures AttendedBlocks(GridLectures(Some(ls)), n) == Dashboard.AttendedCount(ls, n)
    decreases n
  {
    if n > 0 {
      GridAgreesWithProgress(ls, n - 1);
    }
  }

  /** The block covers the cell of weekday `day` and hour `hour`. */
  predicate Covers(g: GridLecture, day: int, hour: int)
  {
    g.day == day && g.startTime <= hour < g.endTime
  }

  /** The index of the first block from `i` on that covers the cell. */
  function FirstCovering(grid: seq<GridLecture>, day: int, hour: int, i: nat): (r: Option<nat>)
    requires i <= |grid|
    ensures r.Some? ==> i <= r.value < |grid| && Covers(grid[r.value], day, hour)
    ensures r.Some? ==> forall j :: i <= j < r.value ==> !Covers(grid[j], day, hour)
    ensures r.None? ==> forall j :: i <= j < |grid| ==> !Covers(grid[j], day, hour)
    decreases |grid| - i
  {
    if i == |grid| then None
    else if Covers(grid[i], day, hour) then Some(i)
    else FirstCovering(grid, day, hour, i + 1)
  }

  /** `getLectureForSlot(day, hour)`: the first block covering the cell, or nothing. */
  function GetLectureForSlot(grid: seq<GridLecture>, day: int, hour: int): (r: Option<GridLecture>)
    ensures r.None? <==> forall j :: 0 <= j < |grid| ==> !Covers(grid[j], day, hour)
    ensures r.Some? ==> exists i :: 0 <= i < |grid| && grid[i] == r.value && Covers(grid[i], day, hour)
                                    && forall j :: 0 <= j < i ==> !Covers(grid[j], day, hour)
  {
    match FirstCovering(grid, day, hour, 0)
    case None => None
    case Some(i) => Some(grid[i])
  }

  /**
   * Every lecture of the grid can be opened from the cell of its own weekday
   * and start hour: that cell shows it or an earlier lecture covering it.
   */
  lemma StartCellIsTaken(ls: seq<LectureApi>, i: nat)
    requires i < |ls|
    ensures var grid := GridLectures(Some(ls));
            GetLectureForSlot(grid, grid[i].day, grid[i].startTime).Some?
  {
    var grid := GridLectures(Some(ls));
    assert Covers(grid[i], grid[i].day, grid[i].startTime);
  }

  datatype Direction = Prev | Next

  /** `canNavigatePrev`: the week before does not start before the week of `minWeek`. */
  function CanNavigatePrev(currentWeek: int, minWeek: int): bool
  {
    !(Calendar.StartOfWeek(currentWeek - Calendar.DaysPerWeek) < Calendar.StartOfWeek(minWeek))
  }

  /** `canNavigateNext`: the week after does not start after the week of `maxWeek`. */
  function CanNavigateNext(currentWeek: int, maxWeek: int): bool
  {
    !(Calendar.StartOfWeek(currentWeek + Calendar.DaysPerWeek) > Calendar.StartOfWeek(maxWeek))
  }

  /** The shown week lies between the weeks of the two bounds. */
  predicate InBounds(currentWeek: int, minWeek: int, maxWeek: int)
  {
    Calendar.StartOfWeek(minWeek) <= Calendar.StartOfWeek(currentWeek) <= Calendar.StartOfWeek(maxWeek)
  }

  /**
   * Moving within the bounds: the buttons are enabled exactly when the week
   * one step away starts inside the bounds, so a shown week that starts
   * inside them never leaves them.
   */
  lemma NavigationKeepsBounds(currentWeek: int, minWeek: int, maxWeek: int)
    requires InBounds(currentWeek, minWeek, maxWeek)
    ensures CanNavigatePrev(currentWeek, minWeek) ==> InBounds(currentWeek - Calendar.DaysPerWeek, minWeek, maxWeek)
    ensures CanNavigateNext(currentWeek, maxWeek) ==> InBounds(currentWeek + Calendar.DaysPerWeek, minWeek, maxWeek)
    ensures CanNavigatePrev(currentWeek, minWeek)
            <==> Calendar.StartOfWeek(minWeek) <= Calendar.StartOfWeek(currentWeek) - Calendar.DaysPerWeek
    ensures CanNavigateNext(currentWeek, maxWeek)
            <==> Calendar.StartOfWeek(currentWeek) + Calendar.DaysPerWeek <= Calendar.StartOfWeek(maxWeek)
  {
    Calendar.StartOfWeekShift(currentWeek, -1);
    Calendar.StartOfWeekShift(currentWeek, 1);
  }

  /** `{ lectureId, attended }`, the variables of one attendance toggle. */
  datatype ToggleVars = ToggleVars(lectureId: string, attended: bool)

  /** The page state that the handlers update. */
  class ScheduleView {
    var currentWeek: int
    var selected: Option<GridLecture>

    /** The page opens on the `?week=` date when there is one, otherwise on today. */
    constructor (weekParam: string, today: int)
      requires weekParam != "" ==> DateText.LocalDate(weekParam).Some?
      ensures weekParam == "" ==> currentWeek == today
      ensures weekParam != "" ==> currentWeek == DateText.LocalDate(weekParam).value
      ensures selected == None
    {
      currentWeek := if weekParam != "" then DateText.LocalDate(weekParam).value else today;
      selected := None;
    }

    method HandleLectureClick(lecture: GridLecture)
      modifies this
      ensures selected == Some(lecture) && currentWeek == old(currentWeek)
    {
      selected := Some(lecture);
    }

    /**
     * `handleAttendanceToggle`: without a selection nothing happens; otherwise
     * only the selected lecture's `attended` flag changes, and a toggle for
     * its id is sent.
     */
    method HandleAttendanceToggle(checked: bool) returns (sent: Option<ToggleVars>)
      modifies this
      ensures old(selected).None? ==> selected == None && sent == None
      ensures old(selected).Some? ==> selected == Some(old(selected).value.(attended := checked))
      ensures old(selected).Some? ==> sent == Some(ToggleVars(old(selected).value.id, checked))
      ensures currentWeek == old(currentWeek)
    {
      if selected.None? {
        return None;
      }
      var lecture := selected.value;
      selected := Some(lecture.(attended := checked));
      sent := Some(ToggleVars(lecture.id, checked));
    }

    /**
     * `navigateWeek`: the move is refused exactly when the button for it is
     * disabled; otherwise the shown week moves by one week and the new date
     * is written to the `?week=` parameter (returned here).
     */
    method NavigateWeek(direction: Direction, minWeek: int, maxWeek: int) returns (weekParam: Option<int>)
      modifies this
      ensures direction == Prev ==> (weekParam.Some? <==> CanNavigatePrev(old(currentWeek), minWeek))
      ensures direction == Next ==> (weekParam.Some? <==> CanNavigateNext(old(currentWeek), maxWeek))
      ensures weekParam.None? ==> currentWeek == old(currentWeek)
      ensures weekParam.Some? ==> weekParam.value == currentWeek
      ensures weekParam.Some? && direction == Prev ==> currentWeek == old(currentWeek) - Calendar.DaysPerWeek
      ensures weekParam.Some? && direction == Next ==> currentWeek == old(currentWeek) + Calendar.DaysPerWeek
      ensures selected == old(selected)
    {
      var newWeek := if direction == Prev then currentWeek - Calendar.DaysPerWeek else currentWeek + Calendar.DaysPerWeek;
      if direction == Prev && Calendar.StartOfWeek(newWeek) < Calendar.StartOfWeek(minWeek) {
        return None;
      }
      if direction == Next && Calendar.StartOfWeek(newWeek) > Calendar.StartOfWeek(maxWeek) {
        return None;
      }
      currentWeek := newWeek;
      weekParam := Some(newWeek);
    }
  }
}
