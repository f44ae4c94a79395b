/**
 * The JSON shapes the client reads from the API. Timestamps are local
 * minutes since 1970-01-01 00:00 (day number * 1440 + minute of day), the
 * parsed form of the ISO 8601 strings the server sends.
 */
module ApiTypes {
  import opened Wrappers

  datatype LectureStatus = Upcoming | Missed | Attended | Summarized

  /** `LectureAPI`: one lecture as listed by the lectures and dashboard endpoints. */
  datatype LectureApi = LectureApi(
    id: string,
    course: string,
    courseName: string,
    startDt: int,
    endDt: int,
    location: string,
    attended: Option<bool>,
    status: LectureStatus)

  /** `CourseDashboardAPI` (the `percentage` field is not read by the pages modelled here). */
  datatype CourseDashboard = CourseDashboard(id: string, name: string, colorHex: string, lectures: seq<LectureApi>)

  datatype DashboardResponse = DashboardResponse(courses: seq<CourseDashboard>)

  /** The statuses that count as attended: the student was there, with or without a summary. */
  predicate CountsAsAttended(s: LectureStatus)
  {
    s == Attended || s == Summarized
  }
}
