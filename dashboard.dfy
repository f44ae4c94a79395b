/**
 * The dashboard page of the client: the lectures of every course are split
 * into the upcoming, missed and needs-notes sections, each sorted by start
 * time, and each course gets its attended and total counts.
 */
module Dashboard {
  import opened Wrappers
  import opened ApiTypes

  /** The statuses the page shows; the server's "attended" is shown as "needs-notes". */
  datatype UiStatus = UiUpcoming | UiMissed | UiAttended | UiSummarized | NeedsNotes

  /** `UILecture` (the title is always "Lecture"; `datetime` is the parsed `start_dt`). */
  datatype UiLecture = UiLecture(id: string, title: string, course: string, datetime: int, location: string, status: UiStatus)

  /** An attended lecture without a summary still needs notes; every other status is shown as it is. */
  function UiStatusOf(s: LectureStatus): (u: UiStatus)
    ensures u == NeedsNotes <==> s == Attended
    ensures u == UiUpcoming <==> s == Upcoming
    ensures u == UiMissed <==> s == Missed
    ensures u == UiSummarized <==> s == Summarized
    ensures u != UiAttended
  {
    match s
    case Upcoming => UiUpcoming
    case Missed => UiMissed
    case Attended => NeedsNotes
    case Summarized => UiSummarized
  }

  function ToUi(l: LectureApi): UiLecture
  {
    UiLecture(l.id, "Lecture", l.courseName, l.startDt, l.location, UiStatusOf(l.status))
  }

  /** `data.courses.flatMap(c => c.lectures)` over the first `n` courses. */
  function AllLectures(courses: seq<CourseDashboard>, n: nat): seq<LectureApi>
    requires n <= |courses|
  {
    if n == 0 then [] else AllLectures(courses, n - 1) + courses[n - 1].lectures
  }

  /** The first `n` lectures whose page status is `u`, as page lectures, in their order. */
  function WithStatus(ls: seq<LectureApi>, u: UiStatus, n: nat): seq<UiLecture>
    requires n <= |ls|
  {
    if n == 0 then []
    else WithStatus(ls, u, n - 1) + (if UiStatusOf(ls[n - 1].status) == u then [ToUi(ls[n - 1])] else [])
  }

  lemma {:induction false} WithStatusMembers(ls: seq<LectureApi>, u: UiStatus, n: nat, x: UiLecture)
    requires n <= |ls|
    ensures x in WithStatus(ls, u, n) <==> exists i :: 0 <= i < n && ToUi(ls[i]) == x && UiStatusOf(ls[i].status) == u
    decreases n
  {
    if n > 0 {
      WithStatusMembers(ls, u, n - 1, x);
      if x in WithStatus(ls, u, n - 1) {
        var i :| 0 <= i < n - 1 && ToUi(ls[i]) == x && UiStatusOf(ls[i].status) == u;
        assert 0 <= i < n;
      }
    }
  }

  predicate SortedByTime(s: seq<UiLecture>)
  {
    forall i :: 0 < i < |s| ==> s[i - 1].datetime <= s[i].datetime
  }

  /** `s` with `x` placed after every element that does not start later than it. */
  function Insert(s: seq<UiLecture>, x: UiLecture): (r: seq<UiLecture>)
    ensures |r| == |s| + 1
    decreases |s|
  {
    if |s| == 0 || s[|s| - 1].datetime <= x.datetime then s + [x]
    else Insert(s[..|s| - 1], x) + [s[|s| - 1]]
  }

  /**
   * What `sort(byTime)` leaves behind: a stable sort, since `Array.prototype.sort`
   * keeps elements that compare equal in their order.
   */
  function SortByTime(s: seq<UiLecture>): (r: seq<UiLecture>)
    ensures |r| == |s|
  {
    if |s| == 0 then [] else Insert(SortByTime(s[..|s| - 1]), s[|s| - 1])
  }

  /** The elements of `s` that start at `t`, in order. */
  function AtTime(s: seq<UiLecture>, t: int): seq<UiLecture>
  {
    if |s| == 0 then []
    else AtTime(s[..|s| - 1], t) + (if s[|s| - 1].datetime == t then [s[|s| - 1]] else [])
  }

  lemma {:induction false} AtTimeAppend(a: seq<UiLecture>, b: seq<UiLecture>, t: int)
    ensures AtTime(a + b, t) == AtTime(a, t) + AtTime(b, t)
    decreases |b|
  {
    if |b| == 0 {
      assert a + b == a;
    } else {
      var ab := a + b;
      assert ab[..|ab| - 1] == a + b[..|b| - 1];
      assert ab[|ab| - 1] == b[|b| - 1];
      AtTimeAppend(a, b[..|b| - 1], t);
    }
  }

  /** The last element of `Insert(s, x)` is `x` or the last element of `s`. */
  lemma InsertLast(s: seq<UiLecture>, x: UiLecture)
    ensures Insert(s, x)[|s|] == x || (|s| > 0 && Insert(s, x)[|s|] == s[|s| - 1])
  {
  }

  lemma {:induction false} InsertSorted(s: seq<UiLecture>, x: UiLecture)
    requires SortedByTime(s)
    ensures SortedByTime(Insert(s, x))
    decreases |s|
  {
    if |s| > 0 && s[|s| - 1].datetime > x.datetime {
      var init := s[..|s| - 1];
      InsertSorted(init, x);
      InsertLast(init, x);
    }
  }

  lemma {:induction false} InsertPermutes(s: seq<UiLecture>, x: UiLecture)
    ensures multiset(Insert(s, x)) == multiset(s) + multiset{x}
    decreases |s|
  {
    if |s| > 0 && s[|s| - 1].datetime > x.datetime {
      var init := s[..|s| - 1];
      assert s == init + [s[|s| - 1]];
      InsertPermutes(init, x);
    }
  }

  /** Inserting keeps the order among equal start times: `x` comes after every element at its time. */
  lemma {:induction false} InsertStable(s: seq<UiLecture>, x: UiLecture, t: int)
    ensures AtTime(Insert(s, x), t) == AtTime(s, t) + AtTime([x], t)
    decreases |s|
  {
    if |s| == 0 || s[|s| - 1].datetime <= x.datetime {
      AtTimeAppend(s, [x], t);
    } else {
      var init := s[..|s| - 1];
      var last := s[|s| - 1];
      assert s == init + [last];
      InsertStable(init, x, t);
      AtTimeAppend(Insert(init, x), [last], t);
      AtTimeAppend(init, [last], t);
      if x.datetime == t {
        assert AtTime([last], t) == [];
      }
    }
  }

  /** The sort's result is ordered by start time and is a permutation of its input. */
  lemma {:induction false} SortByTimeSorts(s: seq<UiLecture>)
    ensures SortedByTime(SortByTime(s))
    ensures multiset(SortByTime(s)) == multiset(s)
    decreases |s|
  {
    if |s| > 0 {
      var init := s[..|s| - 1];
      assert s == init + [s[|s| - 1]];
      SortByTimeSorts(init);
      InsertSorted(SortByTime(init), s[|s| - 1]);
      InsertPermutes(SortByTime(init), s[|s| - 1]);
    }
  }

  /** The sort is stable: the lectures that start at the same time keep their relative order. */
  lemma {:induction false} SortByTimeStable(s: seq<UiLecture>, t: int)
    ensures AtTime(SortByTime(s), t) == AtTime(s, t)
    decreases |s|
  {
    if |s| > 0 {
      var init := s[..|s| - 1];
      assert s == init + [s[|s| - 1]];
      SortByTimeStable(init, t);
      InsertStable(SortByTime(init), s[|s| - 1], t);
      AtTimeAppend(init, [s[|s| - 1]], t);
    }
  }

  /** `Insert` places `x` at the first position after which only later lectures follow. */
  lemma {:induction false} InsertAt(s: seq<UiLecture>, x: UiLecture, j: nat)
    requires j <= |s|
    requires j == 0 || s[j - 1].datetime <= x.datetime
    requires forall k :: j <= k < |s| ==> s[k].datetime > x.datetime
    ensures Insert(s, x) == s[..j] + [x] + s[j..]
    decreases |s|
  {
    if |s| > 0 && s[|s| - 1].datetime > x.datetime {
      var init := s[..|s| - 1];
      InsertAt(init, x, j);
      assert init[..j] == s[..j];
      assert init[j..] + [s[|s| - 1]] == s[j..];
    }
  }

  /** One step of the insertion sort: `a[i]` moves left past the sorted lectures that start later. */
  method InsertInPlace(a: array<UiLecture>, i: nat)
    requires i < a.Length
    modifies a
    ensures a[..i + 1] == Insert(old(a[..i]), old(a[i]))
    ensures a[i + 1..] == old(a[i + 1..])
  {
    ghost var before := a[..];
    ghost var sorted := a[..i];
    var x := a[i];
    var j := i;
    while j > 0 && a[j - 1].datetime > x.datetime
      invariant 0 <= j <= i
      invariant forall k :: 0 <= k < j ==> a[k] == before[k]
      invariant forall k :: j < k <= i ==> a[k] == before[k - 1]
      invariant forall k :: i < k < a.Length ==> a[k] == before[k]
      invariant forall k :: j <= k < i ==> before[k].datetime > x.datetime
    {
      a[j] := a[j - 1];
      j := j - 1;
    }
    a[j] := x;
    InsertAt(sorted, x, j);
    Shifted(before, a[..], i, j, x);
  }

  /** After the shift, the first `i + 1` slots hold `before[..i]` with `x` placed at `j`. */
  lemma Shifted(before: seq<UiLecture>, after: seq<UiLecture>, i: nat, j: nat, x: UiLecture)
    requires j <= i < |before| == |after|
    requires forall k :: 0 <= k < j ==> after[k] == before[k]
    requires after[j] == x
    requires forall k :: j < k <= i ==> after[k] == before[k - 1]
    ensures after[..i + 1] == before[..i][..j] + [x] + before[..i][j..]
  {
  }

  /** `section.sort(byTime)`, in place: an insertion sort. */
  method SortInPlace(a: array<UiLecture>)
    modifies a
    ensures a[..] == SortByTime(old(a[..]))
  {
    ghost var original := a[..];
    for i := 0 to a.Length
      invariant a[..i] == SortByTime(original[..i])
      invariant a[i..] == original[i..]
    {
      assert a[i] == original[i];
      InsertInPlace(a, i);
      assert original[..i + 1] == original[..i] + [original[i]];
    }
    assert original[..a.Length] == original;
  }

  /** The three sections the page shows. */
  datatype Sections = Sections(upcoming: seq<UiLecture>, missed: seq<UiLecture>, needsNotes: seq<UiLecture>)

  /** The section of each status, sorted; summarized lectures are in none of them. */
  function SectionsOf(ls: seq<LectureApi>): Sections
  {
    Sections(SortByTime(WithStatus(ls, UiUpcoming, |ls|)),
             SortByTime(WithStatus(ls, UiMissed, |ls|)),
             SortByTime(WithStatus(ls, NeedsNotes, |ls|)))
  }

  method SortedSection(s: seq<UiLecture>) returns (r: seq<UiLecture>)
    ensures r == SortByTime(s)
  {
    var a := new UiLecture[|s|](i requires 0 <= i < |s| => s[i]);
    assert a[..] == s;
    SortInPlace(a);
    r := a[..];
  }

  /**
   * `sections`: with no data every section is empty; otherwise each lecture
   * of every course is pushed into the section of its page status, and each
   * section is then sorted by start time.
   */
  method ComputeSections(data: Option<DashboardResponse>) returns (r: Sections)
    ensures data.None? ==> r == Sections([], [], [])
    ensures data.Some? ==> r == SectionsOf(AllLectures(data.value.courses, |data.value.courses|))
  {
    if data.None? {
      return Sections([], [], []);
    }
    var all := AllLectures(data.value.courses, |data.value.courses|);
    var upcoming, missed, needsNotes := [], [], [];
    for i := 0 to |all|
      invariant upcoming == WithStatus(all, UiUpcoming, i)
      invariant missed == WithStatus(all, UiMissed, i)
      invariant needsNotes == WithStatus(all, NeedsNotes, i)
    {
      var ui := ToUi(all[i]);
      if ui.status == UiUpcoming {
        upcoming := upcoming + [ui];
      } else if ui.status == UiMissed {
        missed := missed + [ui];
      } else if ui.status == NeedsNotes {
        needsNotes := needsNotes + [ui];
      }
    }
    upcoming := SortedSection(upcoming);
    missed := SortedSection(missed);
    needsNotes := SortedSection(needsNotes);
    return Sections(upcoming, missed, needsNotes);
  }

  /**
   * Each section is sorted by start time and is a permutation of the
   * lectures with its status: the upcoming ones, the missed ones, and the
   * attended ones that still need notes.
   */
  lemma SectionsArePartition(ls: seq<LectureApi>)
    ensures SortedByTime(SectionsOf(ls).upcoming) && SortedByTime(SectionsOf(ls).missed)
         && SortedByTime(SectionsOf(ls).needsNotes)
    ensures multiset(SectionsOf(ls).upcoming) == multiset(WithStatus(ls, UiUpcoming, |ls|))
    ensures multiset(SectionsOf(ls).missed) == multiset(WithStatus(ls, UiMissed, |ls|))
    ensures multiset(SectionsOf(ls).needsNotes) == multiset(WithStatus(ls, NeedsNotes, |ls|))
  {
    SortByTimeSorts(WithStatus(ls, UiUpcoming, |ls|));
    SortByTimeSorts(WithStatus(ls, UiMissed, |ls|));
    SortByTimeSorts(WithStatus(ls, NeedsNotes, |ls|));
  }

  /** A lecture shows up in the section of its status, and a summarized one in no section. */
  lemma SectionOfLecture(ls: seq<LectureApi>, i: nat)
    requires i < |ls|
    ensures ls[i].status == Upcoming ==> ToUi(ls[i]) in SectionsOf(ls).upcoming
    ensures ls[i].status == Missed ==> ToUi(ls[i]) in SectionsOf(ls).missed
    ensures ls[i].status == Attended ==> ToUi(ls[i]) in SectionsOf(ls).needsNotes
    ensures ls[i].status == Summarized ==>
              ToUi(ls[i]) !in SectionsOf(ls).upcoming && ToUi(ls[i]) !in SectionsOf(ls).missed
              && ToUi(ls[i]) !in SectionsOf(ls).needsNotes
  {
    SectionsArePartition(ls);
    var x := ToUi(ls[i]);
    WithStatusMembers(ls, UiUpcoming, |ls|, x);
    WithStatusMembers(ls, UiMissed, |ls|, x);
    WithStatusMembers(ls, NeedsNotes, |ls|, x);
    assert x in SectionsOf(ls).upcoming <==> x in multiset(SectionsOf(ls).upcoming);
    assert x in SectionsOf(ls).missed <==> x in multiset(SectionsOf(ls).missed);
    assert x in SectionsOf(ls).needsNotes <==> x in multiset(SectionsOf(ls).needsNotes);
  }

  /** How many of the first `n` lectures count as attended ("attended" or "summarized"). */
  function AttendedCount(ls: seq<LectureApi>, n: nat): nat
    requires n <= |ls|
  {
    if n == 0 then 0 else AttendedCount(ls, n - 1) + (if CountsAsAttended(ls[n - 1].status) then 1 else 0)
  }

  lemma {:induction false} AttendedAtMostTotal(ls: seq<LectureApi>, n: nat)
    requires n <= |ls|
    ensures AttendedCount(ls, n) <= n
    ensures AttendedCount(ls, n) == n <==> forall i :: 0 <= i < n ==> CountsAsAttended(ls[i].status)
    decreases n
  {
    if n > 0 {
      AttendedAtMostTotal(ls, n - 1);
    }
  }

  /** One entry of the progress list (the code repeats the name). */
  datatype Progress = Progress(id: string, name: string, code: string, attendedLectures: nat, totalLectures: nat, color: string)

  /** The progress entry of one course: every lecture counted once, the attended ones among them. */
  function ProgressOf(c: CourseDashboard): (p: Progress)
    ensures p.id == c.id && p.name == c.name && p.code == c.name && p.color == c.colorHex
    ensures p.totalLectures == |c.lectures|
    ensures p.attendedLectures == AttendedCount(c.lectures, |c.lectures|)
    ensures p.attendedLectures <= p.totalLectures
  {
    AttendedAtMostTotal(c.lectures, |c.lectures|);
    Progress(c.id, c.name, c.name, AttendedCount(c.lectures, |c.lectures|), |c.lectures|, c.colorHex)
  }

  /** `courseProgress`: one entry per course, in the order of the response; none without data. */
  function CourseProgress(data: Option<DashboardResponse>): (r: seq<Progress>)
    ensures data.None? ==> r == []
    ensures data.Some? ==> |r| == |data.value.courses|
    ensures data.Some? ==> forall i :: 0 <= i < |r| ==> r[i] == ProgressOf(data.value.courses[i])
  {
    if data.None? then []
    else
      var courses := data.value.courses;
      seq(|courses|, i requires 0 <= i < |courses| => ProgressOf(courses[i]))
  }
}
