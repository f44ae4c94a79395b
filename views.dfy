/**
 * The backend's request handlers over the course, lecture and attendance
 * tables.
 *
 * Each table is a map from the key its `get_or_create` looks rows up by to
 * the rest of the row: courses by (user, name), lectures by (course,
 * start), attendances by (user, lecture). Every row also has a primary key;
 * fresh ones come from the counter `nextId`, which stands for `uuid4`.
 * Timestamps are minutes since the epoch, in UTC.
 */
module Views {
  import opened Wrappers
  import Calendar
  import Serializers

  type UserId = nat
  type Id = nat

  datatype CourseKey = CourseKey(user: UserId, name: string)
  datatype Course = Course(id: Id, colorHex: string)
  datatype LectureKey = LectureKey(course: Id, start: int)
  datatype Lecture = Lecture(id: Id, end: int, location: string)
  datatype AttendanceKey = AttendanceKey(user: UserId, lecture: Id)
  /** An uploaded note file, opaque to the backend except through the text extractor. */
  datatype NoteFile = NoteFile(name: string)
  /** An attendance row; the empty summary stands for both null and "". */
  datatype Attendance = Attendance(id: Id, attended: bool, note: Option<NoteFile>, summary: string)

  /** Colour given to courses the timetable import creates. */
  const ImportColor: string := "#4F46E5"

  /** An attendance row as `get_or_create(..., defaults={"attended": False})` creates it. */
  predicate FreshAttendance(a: Attendance)
  {
    !a.attended && a.note.None? && a.summary == ""
  }

  class Store {
    var courses: map<CourseKey, Course>
    var lectures: map<LectureKey, Lecture>
    var attendances: map<AttendanceKey, Attendance>
    var nextId: Id
    /** Which row holds each primary key, one map per table. */
    ghost var courseAt: map<Id, CourseKey>
    ghost var lectureAt: map<Id, LectureKey>
    ghost var attendanceAt: map<Id, AttendanceKey>

    /**
     * Primary keys are below the counter, and each row's key leads back to
     * that row, so no two rows of a table share a key.
     */
    ghost predicate Valid()
      reads this
    {
      && (forall k :: k in courses ==> courses[k].id < nextId && courses[k].id in courseAt && courseAt[courses[k].id] == k)
      && (forall k :: k in lectures ==> lectures[k].id < nextId && lectures[k].id in lectureAt && lectureAt[lectures[k].id] == k)
      && (forall k :: k in attendances ==> attendances[k].id < nextId && attendances[k].id in attendanceAt && attendanceAt[attendances[k].id] == k)
    }

    /** No two attendance rows share a primary key. */
    lemma AttendanceIdsUnique(k1: AttendanceKey, k2: AttendanceKey)
      requires Valid() && k1 in attendances && k2 in attendances
      requires attendances[k1].id == attendances[k2].id
      ensures k1 == k2
    {
    }

    constructor ()
      ensures Valid()
      ensures courses == map[] && lectures == map[] && attendances == map[]
    {
      courses, lectures, attendances := map[], map[], map[];
      nextId := 0;
      courseAt, lectureAt, attendanceAt := map[], map[], map[];
    }

    /** `Course.objects.get_or_create(user=user, name=name, defaults={"color_hex": color})`. */
    method GetOrCreateCourse(user: UserId, name: string, color: string) returns (id: Id)
      requires Valid()
      modifies this
      ensures Valid()
      ensures CourseKey(user, name) in courses && courses[CourseKey(user, name)].id == id
      ensures CourseKey(user, name) in old(courses) ==> courses == old(courses) && nextId == old(nextId)
      ensures CourseKey(user, name) !in old(courses) ==>
                courses == old(courses)[CourseKey(user, name) := Course(old(nextId), color)]
                && nextId == old(nextId) + 1
      ensures lectures == old(lectures) && attendances == old(attendances)
    {
      var key := CourseKey(user, name);
      if key in courses {
        id := courses[key].id;
      } else {
        id := nextId;
        courses := courses[key := Course(id, color)];
        courseAt := courseAt[id := key];
        nextId := nextId + 1;
      }
    }

    /**
     * `Lecture.objects.get_or_create(course=course, start_dt=start,
     * defaults={"end_dt": end, "location": location})`: the defaults apply
     * only when the row is created.
     */
    method GetOrCreateLecture(course: Id, start: int, end: int, location: string) returns (lecture: Lecture, made: bool)
      requires Valid()
      modifies this
      ensures Valid()
      ensures made <==> LectureKey(course, start) !in old(lectures)
      ensures LectureKey(course, start) in lectures && lectures[LectureKey(course, start)] == lecture
      ensures !made ==> lectures == old(lectures) && nextId == old(nextId)
      ensures made ==> lectures == old(lectures)[LectureKey(course, start) := Lecture(old(nextId), end, location)]
                       && nextId == old(nextId) + 1
      ensures courses == old(courses) && attendances == old(attendances)
    {
      var key := LectureKey(course, start);
      made := key !in lectures;
      if made {
        lecture := Lecture(nextId, end, location);
        lectures := lectures[key := lecture];
        lectureAt := lectureAt[lecture.id := key];
        nextId := nextId + 1;
      } else {
        lecture := lectures[key];
      }
    }

    /** `Attendance.objects.get_or_create(user=user, lecture=lecture, defaults={"attended": False})`. */
    method GetOrCreateAttendance(user: UserId, lecture: Id) returns (row: Attendance, made: bool)
      requires Valid()
      modifies this
      ensures Valid()
      ensures made <==> AttendanceKey(user, lecture) !in old(attendances)
      ensures AttendanceKey(user, lecture) in attendances && attendances[AttendanceKey(user, lecture)] == row
      ensures !made ==> attendances == old(attendances) && nextId == old(nextId)
      ensures made ==> attendances == old(attendances)[AttendanceKey(user, lecture) := Attendance(old(nextId), false, None, "")]
                       && nextId == old(nextId) + 1
      ensures courses == old(courses) && lectures == old(lectures)
    {
      var key := AttendanceKey(user, lecture);
      made := key !in attendances;
      if made {
        row := Attendance(nextId, false, None, "");
        attendances := attendances[key := row];
        attendanceAt := attendanceAt[row.id := key];
        nextId := nextId + 1;
      } else {
        row := attendances[key];
      }
    }
  }

  /** `weekday_idx[name]`, where `weekday_idx = {name: i for i, name in enumerate(WEEKDAYS)}`. */
  function WeekdayIndex(name: string): (r: Option<nat>)
    ensures r.Some? <==> name in Serializers.Weekdays
    ensures r.Some? ==> r.value < 7 && Serializers.Weekdays[r.value] == name
  {
    if name == "Mon" then Some(0)
    else if name == "Tue" then Some(1)
    else if name == "Wed" then Some(2)
    else if name == "Thu" then Some(3)
    else if name == "Fri" then Some(4)
    else if name == "Sat" then Some(5)
    else if name == "Sun" then Some(6)
    else None
  }

  /** The import creates a lecture of slot `s` on day `d`: in range, and on the slot's weekday. */
  predicate Matches(s: Serializers.Slot, d: int)
  {
    s.fromDate <= d <= s.toDate && OnWeekday(s, d)
  }

  /** Day `d` falls on the slot's weekday (Python numbering, Monday first). */
  predicate OnWeekday(s: Serializers.Slot, d: int)
  {
    WeekdayIndex(s.weekday) == Some(Calendar.PyWeekday(d))
  }

  /** Number of days in [lo, hi) on the slot's weekday. */
  function MatchCount(s: Serializers.Slot, lo: int, hi: int): nat
    decreases hi - lo
  {
    if hi <= lo then 0 else MatchCount(s, lo, hi - 1) + (if OnWeekday(s, hi - 1) then 1 else 0)
  }

  /** Number of (slot, day) pairs the first `n` slots match. */
  function TotalMatches(slots: seq<Serializers.Slot>, n: nat): nat
    requires n <= |slots|
  {
    if n == 0 then 0
    else TotalMatches(slots, n - 1) + MatchCount(slots[n - 1], slots[n - 1].fromDate, slots[n - 1].toDate + 1)
  }

  /** The lecture key of slot `s` on day `d`, for the course with id `course`. */
  function SlotLectureKey(course: Id, s: Serializers.Slot, d: int): LectureKey
  {
    LectureKey(course, Calendar.Combine(d, s.startTime))
  }

  /** Every row of `before` is in `after`, unchanged. */
  ghost predicate Extends<K, V>(before: map<K, V>, after: map<K, V>)
  {
    forall k :: k in before ==> k in after && after[k] == before[k]
  }

  /** Every matching day of `s` before `hi` has its lecture and the user's attendance row. */
  ghost predicate Covered(lectures: map<LectureKey, Lecture>, attendances: map<AttendanceKey, Attendance>,
                          user: UserId, course: Id, s: Serializers.Slot, hi: int)
  {
    forall d :: Matches(s, d) && d < hi ==>
      SlotLectureKey(course, s, d) in lectures
      && AttendanceKey(user, lectures[SlotLectureKey(course, s, d)].id) in attendances
  }

  /** Lecture `k` is the one slot `s` creates on a matching day before `hi`. */
  ghost predicate MadeBySlot(lectures: map<LectureKey, Lecture>, k: LectureKey, course: Id, s: Serializers.Slot, hi: int)
    requires k in lectures
  {
    exists d :: Matches(s, d) && d < hi && k == SlotLectureKey(course, s, d)
                && lectures[k].end == Calendar.Combine(d, s.endTime)
                && lectures[k].location == s.location
  }

  lemma MadeBySlotWitness(lectures: map<LectureKey, Lecture>, k: LectureKey, course: Id, s: Serializers.Slot, hi: int, d: int)
    requires k in lectures && Matches(s, d) && d < hi && k == SlotLectureKey(course, s, d)
    requires lectures[k].end == Calendar.Combine(d, s.endTime) && lectures[k].location == s.location
    ensures MadeBySlot(lectures, k, course, s, hi)
  {
  }

  /** Every lecture added since `before` is one that slot `s` creates before day `hi`. */
  ghost predicate OnlySlotLectures(before: map<LectureKey, Lecture>, lectures: map<LectureKey, Lecture>,
                                   course: Id, s: Serializers.Slot, hi: int)
  {
    forall k :: k in lectures && k !in before ==> MadeBySlot(lectures, k, course, s, hi)
  }

  /** Every attendance row added since `before` is a fresh row of `user`. */
  ghost predicate OnlyFreshAttendances(before: map<AttendanceKey, Attendance>, attendances: map<AttendanceKey, Attendance>, user: UserId)
  {
    forall k :: k in attendances && k !in before ==> k.user == user && FreshAttendance(attendances[k])
  }

  /**
   * One day of the loop of `ImportTimetable.post`: on the slot's weekday,
   * get or create the lecture and the user's attendance row for it.
   */
  method VisitDay(db: Store, user: UserId, course: Id, s: Serializers.Slot, day: int) returns (made: bool)
    requires db.Valid() && Serializers.ValidSlot(s) && s.fromDate <= day <= s.toDate
    modifies db
    ensures db.Valid()
    ensures db.courses == old(db.courses) && old(db.nextId) <= db.nextId
    ensures Extends(old(db.lectures), db.lectures) && Extends(old(db.attendances), db.attendances)
    ensures Matches(s, day) ==>
              SlotLectureKey(course, s, day) in db.lectures
              && AttendanceKey(user, db.lectures[SlotLectureKey(course, s, day)].id) in db.attendances
    ensures made ==> Matches(s, day) && SlotLectureKey(course, s, day) !in old(db.lectures)
                     && db.lectures[SlotLectureKey(course, s, day)].end == Calendar.Combine(day, s.endTime)
                     && db.lectures[SlotLectureKey(course, s, day)].location == s.location
                     && db.lectures.Keys == old(db.lectures).Keys + {SlotLectureKey(course, s, day)}
    ensures !made ==> db.lectures == old(db.lectures)
    ensures OnlyFreshAttendances(old(db.attendances), db.attendances, user)
  {
    made := false;
    if Calendar.PyWeekday(day) == WeekdayIndex(s.weekday).value {
      var startDt := Calendar.Combine(day, s.startTime);
      var endDt := Calendar.Combine(day, s.endTime);
      var lecture;
      lecture, made := db.GetOrCreateLecture(course, startDt, endDt, s.location);
      var _, _ := db.GetOrCreateAttendance(user, lecture.id);
    }
  }

  /**
   * The day loop of `ImportTimetable.post` for one slot of course `course`:
   * every matching day gets its lecture and the user's attendance row;
   * nothing that existed is changed; every new lecture is one of the slot's
   * matching days with that day's end time and the slot's location; the
   * count is the number of new lectures and at most the number of matching
   * days.
   */
  method ExpandSlot(db: Store, user: UserId, course: Id, s: Serializers.Slot) returns (created: nat)
    requires db.Valid() && Serializers.ValidSlot(s)
    modifies db
    ensures db.Valid()
    ensures db.courses == old(db.courses) && old(db.nextId) <= db.nextId
    ensures Extends(old(db.lectures), db.lectures) && Extends(old(db.attendances), db.attendances)
    ensures Covered(db.lectures, db.attendances, user, course, s, s.toDate + 1)
    ensures OnlySlotLectures(old(db.lectures), db.lectures, course, s, s.toDate + 1)
    ensures OnlyFreshAttendances(old(db.attendances), db.attendances, user)
    ensures created == |db.lectures.Keys - old(db.lectures).Keys|
    ensures created <= MatchCount(s, s.fromDate, s.toDate + 1)
    ensures AllSlotLectures(old(db.lectures), course, s) ==> created == 0
  {
    var cursor := s.fromDate;
    created := 0;
    while cursor <= s.toDate
      invariant s.fromDate <= cursor <= s.toDate + 1
      invariant db.Valid()
      invariant db.courses == old(db.courses) && old(db.nextId) <= db.nextId
      invariant Extends(old(db.lectures), db.lectures) && Extends(old(db.attendances), db.attendances)
      invariant Covered(db.lectures, db.attendances, user, course, s, cursor)
      invariant OnlySlotLectures(old(db.lectures), db.lectures, course, s, cursor)
      invariant OnlyFreshAttendances(old(db.attendances), db.attendances, user)
      invariant created == |db.lectures.Keys - old(db.lectures).Keys|
    {
      ghost var lectures0, attendances0 := db.lectures, db.attendances;
      var made := VisitDay(db, user, course, s, cursor);
      ExtendsTransitive(old(db.lectures), lectures0, db.lectures);
      ExtendsTransitive(old(db.attendances), attendances0, db.attendances);
      OnlyFreshTransitive(old(db.attendances), attendances0, db.attendances, user);
      CoveredStep(lectures0, attendances0, db.lectures, db.attendances, user, course, s, cursor);
      OnlySlotLecturesStep(old(db.lectures), lectures0, db.lectures, course, s, cursor, made);
      NewKeysStep(old(db.lectures).Keys, lectures0.Keys, db.lectures.Keys, SlotLectureKey(course, s, cursor), made);
      if made {
        created := created + 1;
      }
      cursor := cursor + 1;
    }
    NewLecturesBound(old(db.lectures), db.lectures, course, s);
  }

  lemma ExtendsTransitive<K, V>(m0: map<K, V>, m1: map<K, V>, m2: map<K, V>)
    requires Extends(m0, m1) && Extends(m1, m2)
    ensures Extends(m0, m2)
  {
  }

  lemma OnlyFreshTransitive(a0: map<AttendanceKey, Attendance>, a1: map<AttendanceKey, Attendance>,
                            a2: map<AttendanceKey, Attendance>, user: UserId)
    requires Extends(a0, a1) && Extends(a1, a2)
    requires OnlyFreshAttendances(a0, a1, user) && OnlyFreshAttendances(a1, a2, user)
    ensures OnlyFreshAttendances(a0, a2, user)
  {
  }

  /** Coverage of the days before `day` survives growth and extends to `day`. */
  lemma CoveredStep(l1: map<LectureKey, Lecture>, a1: map<AttendanceKey, Attendance>,
                    l2: map<LectureKey, Lecture>, a2: map<AttendanceKey, Attendance>,
                    user: UserId, course: Id, s: Serializers.Slot, day: int)
    requires Extends(l1, l2) && Extends(a1, a2)
    requires Covered(l1, a1, user, course, s, day)
    requires Matches(s, day) ==>
               SlotLectureKey(course, s, day) in l2 && AttendanceKey(user, l2[SlotLectureKey(course, s, day)].id) in a2
    ensures Covered(l2, a2, user, course, s, day + 1)
  {
  }

  /** New lectures still all come from the slot once one more day is visited. */
  lemma OnlySlotLecturesStep(l0: map<LectureKey, Lecture>, l1: map<LectureKey, Lecture>, l2: map<LectureKey, Lecture>,
                             course: Id, s: Serializers.Slot, day: int, made: bool)
    requires Extends(l1, l2)
    requires OnlySlotLectures(l0, l1, course, s, day)
    requires made ==> Matches(s, day) && l2.Keys == l1.Keys + {SlotLectureKey(course, s, day)}
                      && l2[SlotLectureKey(course, s, day)].end == Calendar.Combine(day, s.endTime)
                      && l2[SlotLectureKey(course, s, day)].location == s.location
    requires !made ==> l2 == l1
    ensures OnlySlotLectures(l0, l2, course, s, day + 1)
  {
    forall k | k in l2 && k !in l0
      ensures MadeBySlot(l2, k, course, s, day + 1)
    {
      if k in l1 {
        assert MadeBySlot(l1, k, course, s, day);
        var d :| Matches(s, d) && d < day && k == SlotLectureKey(course, s, d)
                 && l1[k].end == Calendar.Combine(d, s.endTime) && l1[k].location == s.location;
        MadeBySlotWitness(l2, k, course, s, day + 1, d);
      } else {
        MadeBySlotWitness(l2, k, course, s, day + 1, day);
      }
    }
  }

  /** One more created lecture adds one to the count of new keys. */
  lemma NewKeysStep(l0: set<LectureKey>, l1: set<LectureKey>, l2: set<LectureKey>, key: LectureKey, made: bool)
    requires l0 <= l1
    requires made ==> key !in l1 && l2 == l1 + {key}
    requires !made ==> l2 == l1
    ensures |l2 - l0| == |l1 - l0| + (if made then 1 else 0)
  {
    if made {
      assert l2 - l0 == (l1 - l0) + {key};
    }
  }

  /** The lecture keys slot `s` creates on the matching days in [lo, hi). */
  ghost function SlotKeys(course: Id, s: Serializers.Slot, lo: int, hi: int): (keys: set<LectureKey>)
    ensures |keys| <= MatchCount(s, lo, hi)
    decreases hi - lo
  {
    if hi <= lo then {}
    else SlotKeys(course, s, lo, hi - 1) + (if OnWeekday(s, hi - 1) then {SlotLectureKey(course, s, hi - 1)} else {})
  }

  lemma SlotKeysContains(course: Id, s: Serializers.Slot, lo: int, hi: int, d: int)
    requires lo <= d < hi && OnWeekday(s, d)
    ensures SlotLectureKey(course, s, d) in SlotKeys(course, s, lo, hi)
    decreases hi - lo
  {
    if d < hi - 1 {
      SlotKeysContains(course, s, lo, hi - 1, d);
    }
  }

  lemma {:induction false} SlotKeysExist(lectures: map<LectureKey, Lecture>, course: Id, s: Serializers.Slot, hi: int)
    requires AllSlotLectures(lectures, course, s) && hi <= s.toDate + 1
    ensures SlotKeys(course, s, s.fromDate, hi) <= lectures.Keys
    decreases hi - s.fromDate
  {
    if s.fromDate < hi {
      SlotKeysExist(lectures, course, s, hi - 1);
      if OnWeekday(s, hi - 1) {
        assert Matches(s, hi - 1);
      }
    }
  }

  lemma SubsetCardinality<T>(a: set<T>, b: set<T>)
    requires a <= b
    ensures |a| <= |b|
  {
    assert b == a + (b - a);
  }

  /** The lectures one slot adds are among its matching days' keys. */
  lemma NewLecturesWithin(before: map<LectureKey, Lecture>, after: map<LectureKey, Lecture>, course: Id, s: Serializers.Slot)
    requires OnlySlotLectures(before, after, course, s, s.toDate + 1)
    ensures after.Keys - before.Keys <= SlotKeys(course, s, s.fromDate, s.toDate + 1)
  {
    forall k | k in after.Keys - before.Keys
      ensures k in SlotKeys(course, s, s.fromDate, s.toDate + 1)
    {
      assert MadeBySlot(after, k, course, s, s.toDate + 1);
      var d :| Matches(s, d) && d < s.toDate + 1 && k == SlotLectureKey(course, s, d)
               && after[k].end == Calendar.Combine(d, s.endTime) && after[k].location == s.location;
      SlotKeysContains(course, s, s.fromDate, s.toDate + 1, d);
    }
  }

  /**
   * What one slot's expansion can add: no more lectures than matching days,
   * and none at all when every matching day's lecture exists already.
   */
  lemma NewLecturesBound(before: map<LectureKey, Lecture>, after: map<LectureKey, Lecture>, course: Id, s: Serializers.Slot)
    requires OnlySlotLectures(before, after, course, s, s.toDate + 1)
    ensures |after.Keys - before.Keys| <= MatchCount(s, s.fromDate, s.toDate + 1)
    ensures AllSlotLectures(before, course, s) ==> |after.Keys - before.Keys| == 0
  {
    var all := SlotKeys(course, s, s.fromDate, s.toDate + 1);
    NewLecturesWithin(before, after, course, s);
    SubsetCardinality(after.Keys - before.Keys, all);
    if AllSlotLectures(before, course, s) {
      SlotKeysExist(before, course, s, s.toDate + 1);
      assert after.Keys - before.Keys == {};
    }
  }

  /** Every matching day of `s` already has its lecture in `lectures`. */
  ghost predicate AllSlotLectures(lectures: map<LectureKey, Lecture>, course: Id, s: Serializers.Slot)
  {
    forall d :: Matches(s, d) ==> SlotLectureKey(course, s, d) in lectures
  }

  /** Slot `s` is fully imported for `user`: its course exists and every matching day has its lecture and attendance. */
  ghost predicate Imported(courses: map<CourseKey, Course>, lectures: map<LectureKey, Lecture>,
                           attendances: map<AttendanceKey, Attendance>, user: UserId, s: Serializers.Slot)
  {
    CourseKey(user, s.course) in courses
    && Covered(lectures, attendances, user, courses[CourseKey(user, s.course)].id, s, s.toDate + 1)
  }

  /** The first `n` slots are imported. */
  ghost predicate ImportedUpTo(courses: map<CourseKey, Course>, lectures: map<LectureKey, Lecture>,
                               attendances: map<AttendanceKey, Attendance>, user: UserId,
                               slots: seq<Serializers.Slot>, n: int)
    requires n <= |slots|
  {
    forall j :: 0 <= j < n ==> Imported(courses, lectures, attendances, user, slots[j])
  }

  /** Every course added since `before` is `user`'s, named by one of the first `n` slots, in the import colour. */
  ghost predicate OnlyImportCourses(before: map<CourseKey, Course>, courses: map<CourseKey, Course>,
                                    user: UserId, slots: seq<Serializers.Slot>, n: int)
    requires n <= |slots|
  {
    forall k :: k in courses && k !in before ==>
      k.user == user && courses[k].colorHex == ImportColor && exists j :: 0 <= j < n && slots[j].course == k.name
  }

  /**
   * Lecture `k` is one that one of the first `n` slots makes for its course
   * (looked up in `courses`) on a matching day, with that day's end time and
   * the slot's location.
   */
  ghost predicate MadeByImport(courses: map<CourseKey, Course>, lectures: map<LectureKey, Lecture>, k: LectureKey,
                               user: UserId, slots: seq<Serializers.Slot>, n: nat)
    requires k in lectures && n <= |slots|
  {
    n > 0
    && (MadeByImport(courses, lectures, k, user, slots, n - 1)
        || (CourseKey(user, slots[n - 1].course) in courses
            && MadeBySlot(lectures, k, courses[CourseKey(user, slots[n - 1].course)].id, slots[n - 1], slots[n - 1].toDate + 1)))
  }

  /** Every lecture added since `before` is made by one of the first `n` slots. */
  ghost predicate OnlyImportLectures(before: map<LectureKey, Lecture>, courses: map<CourseKey, Course>,
                                     lectures: map<LectureKey, Lecture>, user: UserId,
                                     slots: seq<Serializers.Slot>, n: nat)
    requires n <= |slots|
  {
    forall k :: k in lectures && k !in before ==> MadeByImport(courses, lectures, k, user, slots, n)
  }

  /** What `MadeByImport` means: some slot among the first `n` made the lecture. */
  lemma {:induction false} MadeByImportWitness(courses: map<CourseKey, Course>, lectures: map<LectureKey, Lecture>,
                                               k: LectureKey, user: UserId, slots: seq<Serializers.Slot>, n: nat)
    requires k in lectures && n <= |slots|
    requires MadeByImport(courses, lectures, k, user, slots, n)
    ensures exists j :: 0 <= j < n && CourseKey(user, slots[j].course) in courses
                        && MadeBySlot(lectures, k, courses[CourseKey(user, slots[j].course)].id, slots[j], slots[j].toDate + 1)
  {
    if MadeByImport(courses, lectures, k, user, slots, n - 1) {
      MadeByImportWitness(courses, lectures, k, user, slots, n - 1);
      var j :| 0 <= j < n - 1 && CourseKey(user, slots[j].course) in courses
               && MadeBySlot(lectures, k, courses[CourseKey(user, slots[j].course)].id, slots[j], slots[j].toDate + 1);
      assert 0 <= j < n;
    } else {
      assert 0 <= n - 1 < n;
    }
  }

  /** A lecture made by the import stays so as the tables grow. */
  lemma {:induction false} MadeByImportGrows(c1: map<CourseKey, Course>, l1: map<LectureKey, Lecture>,
                                             c2: map<CourseKey, Course>, l2: map<LectureKey, Lecture>,
                                             k: LectureKey, user: UserId, slots: seq<Serializers.Slot>, n: nat)
    requires Extends(c1, c2) && Extends(l1, l2) && k in l1 && n <= |slots|
    requires MadeByImport(c1, l1, k, user, slots, n)
    ensures k in l2 && MadeByImport(c2, l2, k, user, slots, n)
  {
    if MadeByImport(c1, l1, k, user, slots, n - 1) {
      MadeByImportGrows(c1, l1, c2, l2, k, user, slots, n - 1);
    } else {
      var key := CourseKey(user, slots[n - 1].course);
      MadeBySlotGrows(l1, l2, k, c1[key].id, slots[n - 1], slots[n - 1].toDate + 1);
      assert c2[key] == c1[key];
    }
  }

  /**
   * What importing one slot does to the tables (c1, l1, a1), giving
   * (c2, l2, a2): nothing is removed or changed; the slot's course exists,
   * in the import colour when it is new, and no other course is added; every
   * new lecture is one the slot makes for that course on a matching day,
   * with that day's end time and the slot's location; the
   * slot is imported; new attendance rows are fresh rows of `user`; `made`
   * counts the new lectures, is at most the number of matching days, and is
   * zero when the slot was imported already.
   */
  ghost predicate SlotImport(c1: map<CourseKey, Course>, l1: map<LectureKey, Lecture>, a1: map<AttendanceKey, Attendance>,
                             c2: map<CourseKey, Course>, l2: map<LectureKey, Lecture>, a2: map<AttendanceKey, Attendance>,
                             user: UserId, s: Serializers.Slot, made: int)
  {
    && Extends(c1, c2) && Extends(l1, l2) && Extends(a1, a2)
    && CourseKey(user, s.course) in c2
    && OnlySlotLectures(l1, l2, c2[CourseKey(user, s.course)].id, s, s.toDate + 1)
    && c2 == c1[CourseKey(user, s.course) := c2[CourseKey(user, s.course)]]
    && (CourseKey(user, s.course) !in c1 ==> c2[CourseKey(user, s.course)].colorHex == ImportColor)
    && Imported(c2, l2, a2, user, s)
    && OnlyFreshAttendances(a1, a2, user)
    && made == |l2.Keys - l1.Keys|
    && made <= MatchCount(s, s.fromDate, s.toDate + 1)
    && (Imported(c1, l1, a1, user, s) ==> made == 0)
  }

  /**
   * The body of the slot loop of `ImportTimetable.post`: get or create the
   * slot's course (in the import colour), then expand the slot over its
   * date range.
   */
  method ImportSlot(db: Store, user: UserId, s: Serializers.Slot) returns (made: nat)
    requires db.Valid() && Serializers.ValidSlot(s)
    modifies db
    ensures db.Valid()
    ensures SlotImport(old(db.courses), old(db.lectures), old(db.attendances),
                       db.courses, db.lectures, db.attendances, user, s, made)
  {
    ghost var key := CourseKey(user, s.course);
    var course := db.GetOrCreateCourse(user, s.course, ImportColor);
    ghost var courses1, lectures1 := db.courses, db.lectures;
    assert courses1 == old(db.courses)[key := courses1[key]] by {
      if key in old(db.courses) {
        assert old(db.courses)[key := old(db.courses)[key]] == old(db.courses);
      }
    }
    made := ExpandSlot(db, user, course, s);
    assert db.courses == courses1 && db.courses[key].id == course;
    if Imported(old(db.courses), old(db.lectures), old(db.attendances), user, s) {
      AlreadyImported(old(db.courses), old(db.lectures), old(db.attendances), courses1, lectures1, user, s);
    }
  }

  /**
   * The loop of `ImportTimetable.post` over the validated slots. Afterwards
   * `ImportProgress` holds for all of them: every slot is imported; rows
   * that existed are unchanged; new courses, lectures and attendance rows
   * are the import's own; the count is the number of new lectures, at most
   * the number of matching (slot, day) pairs, and zero when the same slots
   * were imported before.
   */
  method ImportSlots(db: Store, user: UserId, slots: seq<Serializers.Slot>) returns (created: nat)
    requires db.Valid()
    requires forall i :: 0 <= i < |slots| ==> Serializers.ValidSlot(slots[i])
    modifies db
    ensures db.Valid()
    ensures ImportProgress(old(db.courses), old(db.lectures), old(db.attendances),
                           db.courses, db.lectures, db.attendances, user, slots, |slots|, created)
  {
    ghost var courses, lectures, attendances := db.courses, db.lectures, db.attendances;
    created := 0;
    var i := 0;
    while i < |slots|
      invariant 0 <= i <= |slots|
      invariant db.Valid()
      invariant ImportProgress(courses, lectures, attendances, db.courses, db.lectures, db.attendances, user, slots, i, created)
    {
      ghost var courses0, lectures0, attendances0 := db.courses, db.lectures, db.attendances;
      var made := ImportSlot(db, user, slots[i]);
      ImportProgressStep(courses, lectures, attendances, courses0, lectures0, attendances0,
                         db.courses, db.lectures, db.attendances, user, slots, i, created, made);
      created := created + made;
      i := i + 1;
    }
  }

  /** The loop invariant of `ImportSlots` after the first `n` slots, from tables (c0, l0, a0) to (c, l, a). */
  ghost predicate ImportProgress(c0: map<CourseKey, Course>, l0: map<LectureKey, Lecture>, a0: map<AttendanceKey, Attendance>,
                                 c: map<CourseKey, Course>, l: map<LectureKey, Lecture>, a: map<AttendanceKey, Attendance>,
                                 user: UserId, slots: seq<Serializers.Slot>, n: int, created: int)
    requires 0 <= n <= |slots|
  {
    && Extends(c0, c) && Extends(l0, l) && Extends(a0, a)
    && ImportedUpTo(c, l, a, user, slots, n)
    && OnlyImportCourses(c0, c, user, slots, n)
    && OnlyImportLectures(l0, c, l, user, slots, n)
    && OnlyFreshAttendances(a0, a, user)
    && created == |l.Keys - l0.Keys|
    && created <= TotalMatches(slots, n)
    && (ImportedUpTo(c0, l0, a0, user, slots, |slots|) ==> created == 0)
  }

  /** One slot of the loop keeps `ImportProgress`. */
  lemma ImportProgressStep(c0: map<CourseKey, Course>, l0: map<LectureKey, Lecture>, a0: map<AttendanceKey, Attendance>,
                           c1: map<CourseKey, Course>, l1: map<LectureKey, Lecture>, a1: map<AttendanceKey, Attendance>,
                           c2: map<CourseKey, Course>, l2: map<LectureKey, Lecture>, a2: map<AttendanceKey, Attendance>,
                           user: UserId, slots: seq<Serializers.Slot>, i: int, created: nat, made: nat)
    requires 0 <= i < |slots|
    requires ImportProgress(c0, l0, a0, c1, l1, a1, user, slots, i, created)
    requires SlotImport(c1, l1, a1, c2, l2, a2, user, slots[i], made)
    ensures ImportProgress(c0, l0, a0, c2, l2, a2, user, slots, i + 1, created + made)
  {
    ExtendsTransitive(c0, c1, c2);
    ExtendsTransitive(l0, l1, l2);
    ExtendsTransitive(a0, a1, a2);
    OnlyFreshTransitive(a0, a1, a2, user);
    ImportedStep(c1, l1, a1, c2, l2, a2, user, slots, i);
    CoursesStep(c0, c1, c2, user, slots, i);
    LecturesStep(l0, c1, l1, c2, l2, user, slots, i);
    NewKeysAdd(l0.Keys, l1.Keys, l2.Keys);
    if ImportedUpTo(c0, l0, a0, user, slots, |slots|) {
      assert Imported(c0, l0, a0, user, slots[i]);
      ImportedGrows(c0, l0, a0, c1, l1, a1, user, slots[i]);
    }
  }

  /** Slots imported before stay imported as the tables grow, and the current one joins them. */
  lemma ImportedStep(c1: map<CourseKey, Course>, l1: map<LectureKey, Lecture>, a1: map<AttendanceKey, Attendance>,
                     c2: map<CourseKey, Course>, l2: map<LectureKey, Lecture>, a2: map<AttendanceKey, Attendance>,
                     user: UserId, slots: seq<Serializers.Slot>, i: int)
    requires 0 <= i < |slots|
    requires Extends(c1, c2) && Extends(l1, l2) && Extends(a1, a2)
    requires ImportedUpTo(c1, l1, a1, user, slots, i)
    requires Imported(c2, l2, a2, user, slots[i])
    ensures ImportedUpTo(c2, l2, a2, user, slots, i + 1)
  {
    forall j | 0 <= j < i
      ensures Imported(c2, l2, a2, user, slots[j])
    {
      assert Imported(c1, l1, a1, user, slots[j]);
      CoveredGrows(l1, a1, l2, a2, user, c1[CourseKey(user, slots[j].course)].id, slots[j]);
    }
  }

  /** The course the current slot gets or creates keeps the new courses the import's own. */
  lemma CoursesStep(c0: map<CourseKey, Course>, c1: map<CourseKey, Course>, c2: map<CourseKey, Course>,
                    user: UserId, slots: seq<Serializers.Slot>, i: int)
    requires 0 <= i < |slots|
    requires OnlyImportCourses(c0, c1, user, slots, i)
    requires Extends(c1, c2)
    requires CourseKey(user, slots[i].course) in c2
    requires c2 == c1[CourseKey(user, slots[i].course) := c2[CourseKey(user, slots[i].course)]]
    requires CourseKey(user, slots[i].course) !in c1 ==> c2[CourseKey(user, slots[i].course)].colorHex == ImportColor
    ensures OnlyImportCourses(c0, c2, user, slots, i + 1)
  {
    forall k | k in c2 && k !in c0
      ensures k.user == user && c2[k].colorHex == ImportColor && exists j :: 0 <= j < i + 1 && slots[j].course == k.name
    {
      if k in c1 {
        var j :| 0 <= j < i && slots[j].course == k.name;
        assert 0 <= j < i + 1 && slots[j].course == k.name;
      } else {
        assert 0 <= i < i + 1 && slots[i].course == k.name;
      }
    }
  }

  /** The lectures the current slot adds keep the new lectures the import's own. */
  lemma LecturesStep(l0: map<LectureKey, Lecture>, c1: map<CourseKey, Course>, l1: map<LectureKey, Lecture>,
                     c2: map<CourseKey, Course>, l2: map<LectureKey, Lecture>,
                     user: UserId, slots: seq<Serializers.Slot>, i: int)
    requires 0 <= i < |slots|
    requires Extends(c1, c2) && Extends(l1, l2)
    requires OnlyImportLectures(l0, c1, l1, user, slots, i)
    requires CourseKey(user, slots[i].course) in c2
    requires OnlySlotLectures(l1, l2, c2[CourseKey(user, slots[i].course)].id, slots[i], slots[i].toDate + 1)
    ensures OnlyImportLectures(l0, c2, l2, user, slots, i + 1)
  {
    forall k | k in l2 && k !in l0
      ensures MadeByImport(c2, l2, k, user, slots, i + 1)
    {
      if k in l1 {
        MadeByImportGrows(c1, l1, c2, l2, k, user, slots, i);
      } else {
        assert MadeBySlot(l2, k, c2[CourseKey(user, slots[i].course)].id, slots[i], slots[i].toDate + 1);
      }
    }
  }

  lemma MadeBySlotGrows(l1: map<LectureKey, Lecture>, l2: map<LectureKey, Lecture>, k: LectureKey,
                        course: Id, s: Serializers.Slot, hi: int)
    requires Extends(l1, l2) && k in l1 && MadeBySlot(l1, k, course, s, hi)
    ensures k in l2 && MadeBySlot(l2, k, course, s, hi)
  {
    var d :| Matches(s, d) && d < hi && k == SlotLectureKey(course, s, d)
             && l1[k].end == Calendar.Combine(d, s.endTime) && l1[k].location == s.location;
    MadeBySlotWitness(l2, k, course, s, hi, d);
  }

  /** A slot imported before the request has all its lectures when the loop reaches it. */
  lemma AlreadyImported(c0: map<CourseKey, Course>, l0: map<LectureKey, Lecture>, a0: map<AttendanceKey, Attendance>,
                        c1: map<CourseKey, Course>, l1: map<LectureKey, Lecture>, user: UserId, s: Serializers.Slot)
    requires Extends(c0, c1) && Extends(l0, l1)
    requires Imported(c0, l0, a0, user, s)
    ensures CourseKey(user, s.course) in c1
    ensures AllSlotLectures(l1, c1[CourseKey(user, s.course)].id, s)
  {
    CoveredAll(l0, a0, user, c0[CourseKey(user, s.course)].id, s);
    AllSlotLecturesGrow(l0, l1, c0[CourseKey(user, s.course)].id, s);
  }

  lemma CoveredGrows(l1: map<LectureKey, Lecture>, a1: map<AttendanceKey, Attendance>,
                     l2: map<LectureKey, Lecture>, a2: map<AttendanceKey, Attendance>,
                     user: UserId, course: Id, s: Serializers.Slot)
    requires Extends(l1, l2) && Extends(a1, a2)
    requires Covered(l1, a1, user, course, s, s.toDate + 1)
    ensures Covered(l2, a2, user, course, s, s.toDate + 1)
  {
  }

  lemma CoveredAll(lectures: map<LectureKey, Lecture>, attendances: map<AttendanceKey, Attendance>,
                   user: UserId, course: Id, s: Serializers.Slot)
    requires Covered(lectures, attendances, user, course, s, s.toDate + 1)
    ensures AllSlotLectures(lectures, course, s)
  {
  }

  lemma AllSlotLecturesGrow(l1: map<LectureKey, Lecture>, l2: map<LectureKey, Lecture>, course: Id, s: Serializers.Slot)
    requires Extends(l1, l2) && AllSlotLectures(l1, course, s)
    ensures AllSlotLectures(l2, course, s)
  {
  }

  lemma NewKeysAdd<T>(a: set<T>, b: set<T>, c: set<T>)
    requires a <= b <= c
    ensures |c - a| == |b - a| + |c - b|
  {
    assert c - a == (b - a) + (c - b);
  }

  lemma ImportedGrows(c0: map<CourseKey, Course>, l0: map<LectureKey, Lecture>, a0: map<AttendanceKey, Attendance>,
                      c1: map<CourseKey, Course>, l1: map<LectureKey, Lecture>, a1: map<AttendanceKey, Attendance>,
                      user: UserId, s: Serializers.Slot)
    requires Extends(c0, c1) && Extends(l0, l1) && Extends(a0, a1)
    requires Imported(c0, l0, a0, user, s)
    ensures Imported(c1, l1, a1, user, s)
  {
    CoveredGrows(l0, a0, l1, a1, user, c0[CourseKey(user, s.course)].id, s);
  }

  /** The response of `ImportTimetable.post`: 400 with the per-slot errors, or 201 with the count. */
  datatype ImportResponse = ImportBadRequest(errors: seq<Option<Serializers.SlotError>>) | ImportCreated(created: nat)
  {
    function Status(): (code: int)
      ensures code == 400 || code == 201
      ensures code == 201 <==> this.ImportCreated?
    {
      if ImportBadRequest? then 400 else 201
    }
  }

  /**
   * `ImportTimetable.post`: validate the whole list first; a bad list
   * changes nothing; a good one is imported slot by slot.
   */
  method ImportTimetable(db: Store, user: UserId, inputs: seq<Serializers.SlotInput>) returns (r: ImportResponse)
    requires db.Valid()
    modifies db
    ensures db.Valid()
    ensures Serializers.ValidateMany(inputs).Failure? ==>
              r == ImportBadRequest(Serializers.ValidateMany(inputs).error)
              && db.courses == old(db.courses) && db.lectures == old(db.lectures) && db.attendances == old(db.attendances)
    ensures Serializers.ValidateMany(inputs).Success? ==>
              var slots := Serializers.ValidateMany(inputs).value;
              && r.ImportCreated?
              && Extends(old(db.courses), db.courses)
              && Extends(old(db.lectures), db.lectures) && Extends(old(db.attendances), db.attendances)
              && ImportedUpTo(db.courses, db.lectures, db.attendances, user, slots, |slots|)
              && OnlyImportCourses(old(db.courses), db.courses, user, slots, |slots|)
              && OnlyImportLectures(old(db.lectures), db.courses, db.lectures, user, slots, |slots|)
              && OnlyFreshAttendances(old(db.attendances), db.attendances, user)
              && r.created == |db.lectures.Keys - old(db.lectures).Keys|
              && r.created <= TotalMatches(slots, |slots|)
              && (ImportedUpTo(old(db.courses), old(db.lectures), old(db.attendances), user, slots, |slots|) ==> r.created == 0)
  {
    var validated := Serializers.ValidateMany(inputs);
    if validated.Failure? {
      return ImportBadRequest(validated.error);
    }
    var created := ImportSlots(db, user, validated.value);
    r := ImportCreated(created);
  }

  /**
   * Posting the same timetable twice: the second request creates no
   * lecture and leaves the lecture table as the first one left it
   * (`afterFirst`).
   */
  method ImportTwice(db: Store, user: UserId, inputs: seq<Serializers.SlotInput>)
    returns (first: ImportResponse, second: ImportResponse, ghost afterFirst: map<LectureKey, Lecture>)
    requires db.Valid()
    modifies db
    ensures db.Valid()
    ensures first.ImportCreated? ==> second == ImportCreated(0) && db.lectures == afterFirst
    ensures first.ImportBadRequest? ==> second == first && db.lectures == afterFirst == old(db.lectures)
  {
    first := ImportTimetable(db, user, inputs);
    afterFirst := db.lectures;
    second := ImportTimetable(db, user, inputs);
    if first.ImportCreated? {
      NoNewKeys(afterFirst, db.lectures);
    }
  }

  lemma NoNewKeys<K, V>(before: map<K, V>, after: map<K, V>)
    requires Extends(before, after) && |after.Keys - before.Keys| == 0
    ensures after == before
  {
    assert after.Keys - before.Keys == {};
    assert after.Keys == before.Keys;
  }

  /** Lecture `k` belongs to a course of `user`. */
  predicate OwnsLecture(courses: map<CourseKey, Course>, user: UserId, k: LectureKey)
  {
    exists ck :: ck in courses && ck.user == user && courses[ck].id == k.course
  }

  /** The response of `LectureAttendanceToggle.post`. */
  datatype ToggleResponse = LectureNotFound | AttendedNotBoolean | Toggled(row: Attendance)
  {
    function Status(): (code: int)
      ensures code == 200 <==> this.Toggled?
      ensures code != 200 ==> code == 404
    {
      if Toggled? then 200 else 404
    }
  }

  /**
   * `LectureAttendanceToggle.post(pk)`: the lecture must be one of the
   * user's (else 404), `attended` must be a boolean (`None` when it is
   * missing or of another type; also answered with 404); then the user's
   * attendance row for the lecture is fetched or created with
   * `attended = False`, and its `attended` is set.
   */
  method ToggleAttendance(db: Store, user: UserId, pk: Id, attended: Option<bool>) returns (r: ToggleResponse)
    requires db.Valid()
    modifies db
    ensures db.Valid()
    ensures db.courses == old(db.courses) && db.lectures == old(db.lectures)
    ensures !(exists k :: k in db.lectures && db.lectures[k].id == pk && OwnsLecture(db.courses, user, k)) ==>
              r == LectureNotFound && db.attendances == old(db.attendances)
    ensures (exists k :: k in db.lectures && db.lectures[k].id == pk && OwnsLecture(db.courses, user, k)) && attended.None? ==>
              r == AttendedNotBoolean && db.attendances == old(db.attendances)
    ensures (exists k :: k in db.lectures && db.lectures[k].id == pk && OwnsLecture(db.courses, user, k)) && attended.Some? ==>
              && r.Toggled? && r.row.attended == attended.value
              && db.attendances == old(db.attendances)[AttendanceKey(user, pk) := r.row]
              && (AttendanceKey(user, pk) in old(db.attendances) ==>
                    r.row == old(db.attendances)[AttendanceKey(user, pk)].(attended := attended.value))
              && (AttendanceKey(user, pk) !in old(db.attendances) ==>
                    r.row == Attendance(old(db.nextId), attended.value, None, ""))
  {
    if !exists k :: k in db.lectures && db.lectures[k].id == pk && OwnsLecture(db.courses, user, k) {
      return LectureNotFound;
    }
    if attended.None? {
      return AttendedNotBoolean;
    }
    var row, _ := db.GetOrCreateAttendance(user, pk);
    row := row.(attended := attended.value);
    db.attendances := db.attendances[AttendanceKey(user, pk) := row];
    r := Toggled(row);
  }

  /** The response of `SummarizeNotes.post`. */
  datatype SummaryResponse =
    | AttendanceNotFound
    | CachedSummary(summary: string)
    | NoNoteUploaded
    | UnreadableNote
    | SummarizerFailed
    | NewSummary(summary: string)
  {
    function Status(): (code: int)
      ensures code == 200 <==> this.CachedSummary? || this.NewSummary?
      ensures code == 404 <==> this.AttendanceNotFound? || this.NoNoteUploaded?
      ensures code == 500 <==> this.UnreadableNote? || this.SummarizerFailed?
    {
      match this
      case CachedSummary(_) => 200
      case NewSummary(_) => 200
      case AttendanceNotFound => 404
      case NoNoteUploaded => 404
      case UnreadableNote => 500
      case SummarizerFailed => 500
    }
  }

  /** The attendance row with primary key `id` belongs to `user` and is at `k`. */
  predicate RowOf(attendances: map<AttendanceKey, Attendance>, user: UserId, id: Id, k: AttendanceKey)
  {
    k in attendances && k.user == user && attendances[k].id == id
  }

  /**
   * `SummarizeNotes.post`. `extract` reads a note's text and `summarize`
   * asks the language model for a summary; either answers `None` when it
   * raises. A missing or foreign row is 404; a row with a summary returns
   * it and nothing is called; a row without a note is 404; an unreadable
   * note is 500; a summariser failure propagates as a 500 and stores
   * nothing; otherwise the new summary is stored on the row and returned.
   */
  method SummarizeNotes(db: Store, user: UserId, attendanceId: Option<Id>,
                        extract: NoteFile -> Option<string>, summarize: string -> Option<string>)
    returns (r: SummaryResponse, summarizerCalled: bool)
    requires db.Valid()
    modifies db
    ensures db.Valid()
    ensures db.courses == old(db.courses) && db.lectures == old(db.lectures)
    ensures !r.NewSummary? ==> db.attendances == old(db.attendances)
    ensures r == AttendanceNotFound <==>
              attendanceId.None? || !exists k :: RowOf(old(db.attendances), user, attendanceId.value, k)
    ensures forall k :: attendanceId.Some? && RowOf(old(db.attendances), user, attendanceId.value, k) ==>
              var row := old(db.attendances)[k];
              && (row.summary != "" ==> r == CachedSummary(row.summary) && !summarizerCalled)
              && (row.summary == "" && row.note.None? ==> r == NoNoteUploaded && !summarizerCalled)
              && (row.summary == "" && row.note.Some? && extract(row.note.value).None? ==>
                    r == UnreadableNote && !summarizerCalled)
              && (row.summary == "" && row.note.Some? && extract(row.note.value).Some? ==>
                    summarizerCalled
                    && (summarize(extract(row.note.value).value).None? ==> r == SummarizerFailed)
                    && (summarize(extract(row.note.value).value).Some? ==>
                          r == NewSummary(summarize(extract(row.note.value).value).value)
                          && db.attendances == old(db.attendances)[k := row.(summary := r.summary)]))
  {
    summarizerCalled := false;
    if attendanceId.None? || !exists k :: k in db.attendances && RowOf(db.attendances, user, attendanceId.value, k) {
      return AttendanceNotFound, false;
    }
    var k :| k in db.attendances && RowOf(db.attendances, user, attendanceId.value, k);
    forall k2 | RowOf(db.attendances, user, attendanceId.value, k2)
      ensures k2 == k
    {
      db.AttendanceIdsUnique(k, k2);
    }
    var row := db.attendances[k];
    if row.summary != "" {
      return CachedSummary(row.summary), false;
    }
    if row.note.None? {
      return NoNoteUploaded, false;
    }
    var text := extract(row.note.value);
    if text.None? {
      return UnreadableNote, false;
    }
    summarizerCalled := true;
    var summary := summarize(text.value);
    if summary.None? {
      return SummarizerFailed, true;
    }
    db.attendances := db.attendances[k := row.(summary := summary.value)];
    r := NewSummary(summary.value);
  }

  /**
   * A `from` or `to` query parameter of the lecture list: absent or empty
   * (its filter is skipped), a date the `__date` lookup reads, or text it
   * cannot read.
   */
  datatype QueryParam = NoParam | DateParam(day: int) | BadParam

  /** The lecture list answers the filtered lectures, or a 500 when a lookup raises. */
  datatype ListResponse = Listed(lectures: map<LectureKey, Lecture>) | ListServerError

  /**
   * `LectureViewSet.get_queryset`: the user's lectures, then those whose
   * start date is on or after `from`, then those whose end date is on or
   * before `to`. A parameter the date lookup cannot read raises a
   * `ValidationError` that nothing handles, so the request is a 500.
   */
  function LectureQuery(courses: map<CourseKey, Course>, lectures: map<LectureKey, Lecture>,
                        user: UserId, from: QueryParam, to: QueryParam): (r: ListResponse)
    ensures r.ListServerError? <==> from.BadParam? || to.BadParam?
    ensures r.Listed? ==> forall k :: k in r.lectures <==>
              k in lectures && OwnsLecture(courses, user, k)
              && (from.DateParam? ==> Calendar.DateOf(k.start) >= from.day)
              && (to.DateParam? ==> Calendar.DateOf(lectures[k].end) <= to.day)
    ensures r.Listed? ==> forall k :: k in r.lectures ==> r.lectures[k] == lectures[k]
  {
    var mine := map k | k in lectures && OwnsLecture(courses, user, k) :: lectures[k];
    if from.BadParam? then ListServerError
    else
      var fromFiltered := if from.DateParam? then map k | k in mine && Calendar.DateOf(k.start) >= from.day :: mine[k] else mine;
      if to.BadParam? then ListServerError
      else if to.DateParam? then Listed(map k | k in fromFiltered && Calendar.DateOf(fromFiltered[k].end) <= to.day :: fromFiltered[k])
      else Listed(fromFiltered)
  }

  /** Without `from` and `to` the query is every lecture of the user. */
  lemma LectureQueryUnfiltered(courses: map<CourseKey, Course>, lectures: map<LectureKey, Lecture>, user: UserId)
    ensures LectureQuery(courses, lectures, user, NoParam, NoParam)
            == Listed(map k | k in lectures && OwnsLecture(courses, user, k) :: lectures[k])
  {
  }

  /**
   * Every lecture a slot created is listed by a query of the slot's owner
   * whose window covers the slot's date range.
   */
  lemma {:induction false} SlotLectureListed(courses: map<CourseKey, Course>, lectures: map<LectureKey, Lecture>,
                                             user: UserId, s: Serializers.Slot, k: LectureKey,
                                             from: QueryParam, to: QueryParam)
    requires CourseKey(user, s.course) in courses
    requires k in lectures && MadeBySlot(lectures, k, courses[CourseKey(user, s.course)].id, s, s.toDate + 1)
    requires !from.BadParam? && !to.BadParam?
    requires from.DateParam? ==> from.day <= s.fromDate
    requires to.DateParam? ==> s.toDate <= to.day
    ensures LectureQuery(courses, lectures, user, from, to).Listed?
    ensures k in LectureQuery(courses, lectures, user, from, to).lectures
  {
    var d :| Matches(s, d) && d < s.toDate + 1 && k == SlotLectureKey(courses[CourseKey(user, s.course)].id, s, d)
             && lectures[k].end == Calendar.Combine(d, s.endTime) && lectures[k].location == s.location;
    assert OwnsLecture(courses, user, k) by {
      assert CourseKey(user, s.course) in courses;
    }
    assert Calendar.DateOf(k.start) == d;
    assert Calendar.DateOf(lectures[k].end) == d;
  }
}
