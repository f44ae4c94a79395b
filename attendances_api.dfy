/**
 * The client's lookup of the signed-in user's attendance row for a lecture
 * (`getMyAttendanceForLecture`) and its get-or-create wrapper
 * (`ensureMyAttendance`). The HTTP calls are parameters: the list response
 * of the lookup, and the row the server answers a create with.
 */
module AttendancesApi {
  import opened Wrappers

  /** `Attendance` as the client reads it. */
  datatype Attendance = Attendance(id: string, lecture: string, attended: bool,
                                   noteUpload: Option<string>, summary: Option<string>)

  /** The body of the list response: a plain array, a page whose `results` may be missing, or nothing. */
  datatype ListResponse = Rows(rows: seq<Attendance>) | Page(results: Option<seq<Attendance>>) | NoBody

  /** The array itself, else its `results`, else the empty list. */
  function RowsOf(data: ListResponse): (rows: seq<Attendance>)
    ensures data.Rows? ==> rows == data.rows
    ensures data.Page? && data.results.Some? ==> rows == data.results.value
    ensures data.NoBody? || (data.Page? && data.results.None?) ==> rows == []
  {
    match data
    case Rows(rows) => rows
    case Page(Some(results)) => results
    case _ => []
  }

  /** `rows.find(r => r.lecture === lectureId)` from position `i` on, as an index. */
  function FindRow(rows: seq<Attendance>, lectureId: string, i: nat): (r: Option<nat>)
    requires i <= |rows|
    ensures r.Some? ==> i <= r.value < |rows| && rows[r.value].lecture == lectureId
    ensures r.Some? ==> forall j :: i <= j < r.value ==> rows[j].lecture != lectureId
    ensures r.None? ==> forall j :: i <= j < |rows| ==> rows[j].lecture != lectureId
    decreases |rows| - i
  {
    if i == |rows| then None
    else if rows[i].lecture == lectureId then Some(i)
    else FindRow(rows, lectureId, i + 1)
  }

  /**
   * `match ?? rows[0] ?? null`: the first row for the lecture; failing that,
   * the first row; nothing only when the list is empty.
   */
  function SelectRow(rows: seq<Attendance>, lectureId: string): (r: Option<Attendance>)
    ensures r.None? <==> |rows| == 0
    ensures (exists i :: 0 <= i < |rows| && rows[i].lecture == lectureId) ==>
              exists i :: 0 <= i < |rows| && r == Some(rows[i]) && rows[i].lecture == lectureId
                          && forall j :: 0 <= j < i ==> rows[j].lecture != lectureId
    ensures |rows| > 0 && (forall i :: 0 <= i < |rows| ==> rows[i].lecture != lectureId) ==> r == Some(rows[0])
  {
    match FindRow(rows, lectureId, 0)
    case Some(i) => Some(rows[i])
    case None => if |rows| > 0 then Some(rows[0]) else None
  }

  function GetMyAttendanceForLecture(data: ListResponse, lectureId: string): (r: Option<Attendance>)
    ensures r.None? <==> |RowsOf(data)| == 0
    ensures r.Some? ==> r.value in RowsOf(data)
  {
    SelectRow(RowsOf(data), lectureId)
  }

  /** When the server filtered by lecture, as its list endpoint does, the row found is that lecture's. */
  lemma FilteredListGivesOwnRow(data: ListResponse, lectureId: string)
    requires forall i :: 0 <= i < |RowsOf(data)| ==> RowsOf(data)[i].lecture == lectureId
    ensures GetMyAttendanceForLecture(data, lectureId).Some? ==>
              GetMyAttendanceForLecture(data, lectureId).value.lecture == lectureId
  {
  }

  /** An unfiltered list without the lecture yields another lecture's row. */
  lemma UnfilteredListFallsBack(other: Attendance, lectureId: string)
    requires other.lecture != lectureId
    ensures GetMyAttendanceForLecture(Rows([other]), lectureId) == Some(other)
  {
  }

  datatype Ensured = Existing(row: Attendance) | Created(row: Attendance)

  /**
   * `ensureMyAttendance`: a row found by the lookup is returned and nothing
   * is created; only when the lookup finds none is a row created for the
   * lecture (`create` is the server's answer to that POST).
   */
  function EnsureMyAttendance(data: ListResponse, lectureId: string, create: string -> Attendance): (r: Ensured)
    ensures r.Existing? <==> |RowsOf(data)| > 0
    ensures r.Existing? ==> Some(r.row) == GetMyAttendanceForLecture(data, lectureId)
    ensures r.Created? ==> r.row == create(lectureId)
  {
    var existing := GetMyAttendanceForLecture(data, lectureId);
    if existing.Some? then Existing(existing.value) else Created(create(lectureId))
  }
}
