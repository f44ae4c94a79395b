/**
 * Input validation of the timetable import (`SlotSerializer`).
 *
 * A slot asks for one lecture a week: a course name, a weekday name, a start
 * and an end time, and a date range. Field parsing (time and date strings)
 * is taken as done: a field that is missing or does not parse is `None`.
 */
module Serializers {
  import opened Wrappers
  import Calendar

  /** `WEEKDAYS`: the accepted weekday names; position i is Python weekday i (Monday first). */
  const Weekdays: seq<string> := ["Mon", "Tue", "Wed", "Thu", "Fri", "Sat", "Sun"]

  const CourseMaxLength: nat := 100

  /** One slot of the request body, field by field, before validation. */
  datatype SlotInput = SlotInput(
    course: Option<string>,
    weekday: Option<string>,
    startTime: Option<Calendar.TimeOfDay>,
    endTime: Option<Calendar.TimeOfDay>,
    fromDate: Option<int>,
    toDate: Option<int>,
    location: string)

  /** A slot whose fields all parsed. */
  datatype Slot = Slot(
    course: string,
    weekday: string,
    startTime: Calendar.TimeOfDay,
    endTime: Calendar.TimeOfDay,
    fromDate: int,
    toDate: int,
    location: string)

  datatype Field = CourseField | WeekdayField | StartTimeField | EndTimeField | FromDateField | ToDateField

  /** A field-level error names every bad field; the object-level checks raise one message each. */
  datatype SlotError = InvalidFields(fields: set<Field>) | StartAfterEnd | FromAfterTo

  /**
   * The characters Python's `str.strip()` removes: the ASCII controls from
   * tab to carriage return and from U+001C to U+001F, the space, and the
   * Unicode line, paragraph and space separators.
   */
  predicate IsSpace(c: char)
  {
    ('\t' <= c <= '\r') || ('\U{1C}' <= c <= '\U{1F}') || c == ' ' || c == '\U{85}' || c == '\U{A0}'
    || c == '\U{1680}' || ('\U{2000}' <= c <= '\U{200A}') || c == '\U{2028}' || c == '\U{2029}'
    || c == '\U{202F}' || c == '\U{205F}' || c == '\U{3000}'
  }

  /** No whitespace at either end: what `strip()` leaves. */
  predicate Trimmed(s: string)
  {
    s == "" || (!IsSpace(s[0]) && !IsSpace(s[|s| - 1]))
  }

  predicate AllSpace(s: string)
  {
    forall i :: 0 <= i < |s| ==> IsSpace(s[i])
  }

  /** The index of the first non-whitespace character at or after `i` (`|s|` when there is none). */
  function SkipSpaces(s: string, i: nat): (j: nat)
    requires i <= |s|
    ensures i <= j <= |s|
    ensures forall k :: i <= k < j ==> IsSpace(s[k])
    ensures j == |s| || !IsSpace(s[j])
    decreases |s| - i
  {
    if i == |s| || !IsSpace(s[i]) then i else SkipSpaces(s, i + 1)
  }

  /** The end of `s[..j]` once its trailing whitespace is dropped (0 when it is all whitespace). */
  function SkipSpacesBack(s: string, j: nat): (e: nat)
    requires j <= |s|
    ensures e <= j
    ensures forall k :: e <= k < j ==> IsSpace(s[k])
    ensures e == 0 || !IsSpace(s[e - 1])
  {
    if j == 0 || !IsSpace(s[j - 1]) then j else SkipSpacesBack(s, j - 1)
  }

  /**
   * Python's `s.strip()`: the infix of `s` left once the whitespace at both
   * ends is gone; empty exactly when `s` is all whitespace.
   */
  function Strip(s: string): (r: string)
    ensures r == "" <==> AllSpace(s)
    ensures Trimmed(r)
    ensures |r| <= |s|
  {
    var b := SkipSpaces(s, 0);
    if b == |s| then "" else s[b..SkipSpacesBack(s, |s|)]
  }

  /** Whitespace around a trimmed text is all `strip()` removes. */
  lemma StripPadded(front: string, t: string, back: string)
    requires AllSpace(front) && AllSpace(back)
    requires Trimmed(t)
    ensures Strip(front + t + back) == t
  {
    var s := front + t + back;
    if t == "" {
      assert AllSpace(s) by {
        forall k | 0 <= k < |s|
          ensures IsSpace(s[k])
        {
          if k < |front| {
            assert s[k] == front[k];
          } else {
            assert s[k] == back[k - |front|];
          }
        }
      }
    } else {
      var b, e := SkipSpaces(s, 0), SkipSpacesBack(s, |s|);
      var lo, hi := |front|, |front| + |t|;
      assert s[lo] == t[0] && s[hi - 1] == t[|t| - 1];
      assert b == lo && e == hi;
      assert s[lo..hi] == t;
    }
  }

  /** A character that is not whitespace survives stripping. */
  lemma StripKeepsInner(s: string, i: nat)
    requires i < |s| && !IsSpace(s[i])
    ensures s[i] in Strip(s)
  {
    var b, e := SkipSpaces(s, 0), SkipSpacesBack(s, |s|);
    assert b <= i < e;
    assert Strip(s)[i - b] == s[i];
  }

  /** Stripping twice is stripping once. */
  lemma StripIdempotent(s: string)
    ensures Strip(Strip(s)) == Strip(s)
  {
    var t := Strip(s);
    StripPadded("", t, "");
    assert "" + t + "" == t;
  }

  /**
   * `CharField(max_length=100)` with its default `trim_whitespace=True`:
   * required, not blank once stripped, the stripped value at most 100
   * characters, and free of the NUL character that the field's default
   * validators refuse.
   */
  predicate CourseOk(course: Option<string>)
  {
    course.Some? && Strip(course.value) != "" && |Strip(course.value)| <= CourseMaxLength
    && '\0' !in Strip(course.value)
  }

  /** `ChoiceField(choices=WEEKDAYS)`. */
  predicate WeekdayOk(weekday: Option<string>)
  {
    weekday.Some? && weekday.value in Weekdays
  }

  /** The fields that fail their own checks (every one is reported, not just the first). */
  function BadFields(input: SlotInput): (bad: set<Field>)
    ensures CourseField in bad <==> !CourseOk(input.course)
    ensures WeekdayField in bad <==> !WeekdayOk(input.weekday)
    ensures StartTimeField in bad <==> input.startTime.None?
    ensures EndTimeField in bad <==> input.endTime.None?
    ensures FromDateField in bad <==> input.fromDate.None?
    ensures ToDateField in bad <==> input.toDate.None?
  {
    Report(CourseOk(input.course), input)
  }

  /** The fields to report once the course name's check has given its answer. */
  function Report(courseOk: bool, input: SlotInput): (bad: set<Field>)
    ensures CourseField in bad <==> !courseOk
    ensures WeekdayField in bad <==> !WeekdayOk(input.weekday)
    ensures StartTimeField in bad <==> input.startTime.None?
    ensures EndTimeField in bad <==> input.endTime.None?
    ensures FromDateField in bad <==> input.fromDate.None?
    ensures ToDateField in bad <==> input.toDate.None?
  {
    (if courseOk then {} else {CourseField})
    + (if WeekdayOk(input.weekday) then {} else {WeekdayField})
    + (if input.startTime.Some? then {} else {StartTimeField})
    + (if input.endTime.Some? then {} else {EndTimeField})
    + (if input.fromDate.Some? then {} else {FromDateField})
    + (if input.toDate.Some? then {} else {ToDateField})
  }

  /**
   * `SlotSerializer.validate`: a start time after the end time is refused
   * first, then a from date after the to date; equal values pass, and valid
   * data comes back unchanged.
   */
  function Validate(data: Slot): (r: Result<Slot, SlotError>)
    ensures r.Success? <==> data.startTime <= data.endTime && data.fromDate <= data.toDate
    ensures r.Success? ==> r.value == data
    ensures data.startTime > data.endTime ==> r == Failure(StartAfterEnd)
    ensures data.startTime <= data.endTime && data.fromDate > data.toDate ==> r == Failure(FromAfterTo)
  {
    if data.startTime > data.endTime then Failure(StartAfterEnd)
    else if data.fromDate > data.toDate then Failure(FromAfterTo)
    else Success(data)
  }

  /** A slot the serializer lets through. */
  predicate ValidSlot(s: Slot)
  {
    s.course != "" && Trimmed(s.course) && |s.course| <= CourseMaxLength && '\0' !in s.course
    && s.weekday in Weekdays
    && s.startTime <= s.endTime && s.fromDate <= s.toDate
  }

  /** Field checks, then `validate` (which runs only when every field is good). */
  function RunValidation(input: SlotInput): (r: Result<Slot, SlotError>)
    ensures r.Success? ==> ValidSlot(r.value)
    ensures r.Success? ==> input.course.Some? && r.value.course == Strip(input.course.value) && r.value.location == input.location
    ensures r.Success? <==> BadFields(input) == {} && Validate(Parsed(input)).Success?
    ensures BadFields(input) != {} ==> r == Failure(InvalidFields(BadFields(input)))
  {
    var bad := BadFields(input);
    if bad != {} then Failure(InvalidFields(bad))
    else Validate(Parsed(input))
  }

  /** The typed slot of an input whose fields all parsed; the course name is stored stripped. */
  function Parsed(input: SlotInput): Slot
    requires BadFields(input) == {}
  {
    Slot(Strip(input.course.value), input.weekday.value, input.startTime.value, input.endTime.value,
         input.fromDate.value, input.toDate.value, input.location)
  }

  /** Course names that differ only in surrounding whitespace validate to the same slot. */
  lemma PaddedCourseNamesAgree(input: SlotInput, a: string, b: string)
    requires Strip(a) == Strip(b)
    ensures RunValidation(input.(course := Some(a))) == RunValidation(input.(course := Some(b)))
  {
  }

  /** A course name of spaces only is blank, as is the empty one. */
  lemma BlankCourseRefused(input: SlotInput, spaces: string)
    requires AllSpace(spaces)
    ensures CourseField in BadFields(input.(course := Some(spaces)))
    ensures RunValidation(input.(course := Some(spaces))).Failure?
  {
  }

  /** A course name holding a NUL character is reported, wherever the character sits. */
  lemma NullCharacterRefused(input: SlotInput, front: string, back: string)
    ensures CourseField in BadFields(input.(course := Some(front + ['\0'] + back)))
    ensures RunValidation(input.(course := Some(front + ['\0'] + back))).Failure?
  {
    var c := front + ['\0'] + back;
    assert c[|front|] == '\0';
    StripKeepsInner(c, |front|);
  }

  /**
   * `SlotSerializer(data=..., many=True).is_valid()`: every slot is checked;
   * the list is accepted only when all are, and then the validated slots come
   * back in order. On failure each position carries its own error, or None.
   */
  function ValidateMany(inputs: seq<SlotInput>): (r: Result<seq<Slot>, seq<Option<SlotError>>>)
    ensures r.Success? <==> forall i :: 0 <= i < |inputs| ==> RunValidation(inputs[i]).Success?
    ensures r.Success? ==> |r.value| == |inputs|
    ensures r.Success? ==> forall i :: 0 <= i < |inputs| ==> r.value[i] == RunValidation(inputs[i]).value
    ensures r.Failure? ==> |r.error| == |inputs|
    ensures r.Failure? ==> forall i :: 0 <= i < |inputs| ==>
              (r.error[i].Some? <==> RunValidation(inputs[i]).Failure?)
    ensures r.Failure? ==> forall i :: 0 <= i < |inputs| && r.error[i].Some? ==>
              r.error[i].value == RunValidation(inputs[i]).error
  {
    var results := seq(|inputs|, i requires 0 <= i < |inputs| => RunValidation(inputs[i]));
    assert forall i :: 0 <= i < |inputs| ==> results[i] == RunValidation(inputs[i]);
    if forall i :: 0 <= i < |results| ==> results[i].Success? then
      Success(seq(|results|, i requires 0 <= i < |results| => results[i].value))
    else
      Failure(seq(|results|, i requires 0 <= i < |results| =>
        match results[i]
        case Success(_) => None
        case Failure(e) => Some(e)))
  }
}
