/**
 * The text forms of dates the client reads and writes: `"YYYY-MM-DD"`
 * strings from date inputs and the `week` URL parameter, and `"HH:MM"`
 * strings from time inputs.
 *
 * Both pages that read dates (the timetable import form and the weekly
 * schedule) define the same helper `localDate`, which splits the string on
 * "-", converts each piece with `Number` and calls `new Date(y, m - 1, d)`.
 * It is defined once here.
 */
module DateText {
  import opened Wrappers
  import Calendar

  /** A JavaScript number as far as this model needs one: NaN or an integer. */
  datatype Num = NaN | Finite(n: int)

  predicate IsDigit(c: char)
  {
    '0' <= c <= '9'
  }

  predicate AllDigits(s: string)
  {
    forall i :: 0 <= i < |s| ==> IsDigit(s[i])
  }

  /** The value of a string of decimal digits, most significant first. */
  function DecimalValue(s: string): nat
    requires AllDigits(s)
  {
    if s == [] then 0 else 10 * DecimalValue(s[..|s| - 1]) + (s[|s| - 1] as int - '0' as int)
  }

  /**
   * `Number(s)` on the strings that date and time inputs produce: the empty
   * string is 0, a string of decimal digits is its value, anything else NaN.
   */
  function StringToNumber(s: string): Num
  {
    if AllDigits(s) then Finite(DecimalValue(s)) else NaN
  }

  /** `s.split(sep)`: the pieces between separators, in order. */
  function Split(s: string, sep: char): (parts: seq<string>)
    ensures |parts| >= 1
    decreases |s|
  {
    if |s| == 0 then [""]
    else
      var rest := Split(s[1..], sep);
      if s[0] == sep then [""] + rest else [[s[0]] + rest[0]] + rest[1..]
  }

  /** `parts.join(sep)`. */
  function Join(parts: seq<string>, sep: char): string
    requires |parts| >= 1
  {
    if |parts| == 1 then parts[0] else parts[0] + [sep] + Join(parts[1..], sep)
  }

  /** Splitting loses nothing: joining the pieces gives back the string. */
  lemma {:induction false} JoinSplit(s: string, sep: char)
    ensures Join(Split(s, sep), sep) == s
    decreases |s|
  {
    if |s| > 0 {
      var rest := Split(s[1..], sep);
      JoinSplit(s[1..], sep);
      if s[0] == sep {
        assert Split(s, sep) == [""] + rest;
        assert Split(s, sep)[1..] == rest;
      } else {
        var parts := Split(s, sep);
        assert parts == [[s[0]] + rest[0]] + rest[1..];
        if |rest| == 1 {
          assert parts == [[s[0]] + rest[0]];
        } else {
          assert parts[1..] == rest[1..];
          assert Join(rest, sep) == rest[0] + [sep] + Join(rest[1..], sep);
        }
      }
    }
  }

  /** A string without the separator followed by the separator splits off as one piece. */
  lemma {:induction false} SplitAfterPiece(a: string, sep: char, rest: string)
    requires sep !in a
    ensures Split(a + [sep] + rest, sep) == [a] + Split(rest, sep)
    decreases |a|
  {
    if |a| == 0 {
      assert a + [sep] + rest == [sep] + rest;
      assert ([sep] + rest)[1..] == rest;
    } else {
      SplitAfterPiece(a[1..], sep, rest);
      assert (a + [sep] + rest)[1..] == a[1..] + [sep] + rest;
      assert [a[0]] + a[1..] == a;
    }
  }

  /** A string without the separator is a single piece. */
  lemma {:induction false} SplitSinglePiece(a: string, sep: char)
    requires sep !in a
    ensures Split(a, sep) == [a]
    decreases |a|
  {
    if |a| > 0 {
      SplitSinglePiece(a[1..], sep);
      assert [a[0]] + a[1..] == a;
    }
  }

  /** The arguments `new Date(y, m - 1, d)` receives; a missing piece is `undefined`, NaN in arithmetic. */
  datatype DateArgs = DateArgs(year: Num, monthIndex: Num, day: Num)

  function Piece(parts: seq<string>, i: nat): Num
  {
    if i < |parts| then StringToNumber(parts[i]) else NaN
  }

  function MinusOne(x: Num): Num
  {
    match x
    case NaN => NaN
    case Finite(n) => Finite(n - 1)
  }

  /** `const [y, m, d] = s.split("-").map(Number)`, then `(y, m - 1, d)`. */
  function LocalDateArgs(s: string): DateArgs
  {
    var parts := Split(s, '-');
    DateArgs(Piece(parts, 0), MinusOne(Piece(parts, 1)), Piece(parts, 2))
  }

  /**
   * `localDate(s)`: the local date `new Date(y, m - 1, d)` builds, or None for
   * an Invalid Date (some argument is NaN, or the date lies beyond the range
   * a `Date` can hold).
   */
  function LocalDate(s: string): (r: Option<int>)
    ensures var a := LocalDateArgs(s);
            r.Some? <==> a.year.Finite? && a.monthIndex.Finite? && a.day.Finite?
                         && Calendar.InDateRange(Calendar.JsDateDay(a.year.n, a.monthIndex.n, a.day.n))
    ensures r.Some? ==> r.value == Calendar.JsDateDay(LocalDateArgs(s).year.n, LocalDateArgs(s).monthIndex.n, LocalDateArgs(s).day.n)
  {
    match LocalDateArgs(s)
    case DateArgs(Finite(y), Finite(mi), Finite(d)) =>
      var day := Calendar.JsDateDay(y, mi, d);
      if Calendar.InDateRange(day) then Some(day) else None
    case _ => None
  }

  function Pow10(w: nat): nat
  {
    if w == 0 then 1 else 10 * Pow10(w - 1)
  }

  /** `n` written with exactly `w` decimal digits, zero-padded (date-fns `yyyy`, `MM`, `dd`). */
  function Digits(n: nat, w: nat): (s: string)
    ensures |s| == w
  {
    if w == 0 then "" else Digits(n / 10, w - 1) + [(('0' as int) + n % 10) as char]
  }

  /** Reading back a padded number gives the number, provided it fits the width. */
  lemma {:induction false} DigitsValue(n: nat, w: nat)
    requires n < Pow10(w)
    ensures AllDigits(Digits(n, w)) && DecimalValue(Digits(n, w)) == n
    ensures '-' !in Digits(n, w)
  {
    if w > 0 {
      DigitsValue(n / 10, w - 1);
      var s := Digits(n, w);
      assert s[..|s| - 1] == Digits(n / 10, w - 1);
    }
  }

  /** date-fns `format(date, "yyyy-MM-dd")` for the civil date (y, m, d). */
  function FormatYmd(y: nat, m: nat, d: nat): string
  {
    Digits(y, 4) + "-" + Digits(m, 2) + "-" + Digits(d, 2)
  }

  /**
   * Round trip between the two helpers the weekly schedule uses for its `week`
   * URL parameter: `localDate` reads back the civil date `format` wrote.
   */
  lemma LocalDateOfFormat(y: nat, m: nat, d: nat)
    requires y <= 9999 && m <= 99 && d <= 99
    ensures LocalDate(FormatYmd(y, m, d)) == Some(Calendar.JsDateDay(y, m - 1, d))
  {
    var a, b, c := Digits(y, 4), Digits(m, 2), Digits(d, 2);
    DigitsValue(y, 4);
    DigitsValue(m, 2);
    DigitsValue(d, 2);
    assert FormatYmd(y, m, d) == a + ['-'] + (b + ['-'] + c);
    SplitAfterPiece(a, '-', b + ['-'] + c);
    SplitAfterPiece(b, '-', c);
    SplitSinglePiece(c, '-');
    assert Split(FormatYmd(y, m, d), '-') == [a, b, c];
    Calendar.JsDateDayInRange(y, m - 1, d);
  }

  /**
   * The 0..99 rule of the Date constructor reaches `localDate`: a date input
   * holding year 0050 is read as 1950.
   */
  lemma LocalDateTwoDigitYear()
    ensures LocalDate(FormatYmd(50, 3, 1)) == Some(Calendar.JsDateDay(1950, 2, 1))
  {
    LocalDateOfFormat(50, 3, 1);
  }

  /** A six-digit year lies beyond the range of a `Date`: year 300000 is an Invalid Date. */
  lemma LocalDateBeyondRange()
    ensures LocalDate("300000-01-01") == None
  {
    BeyondRangeArgs();
    Calendar.JsDateDayBeyondRange();
  }

  lemma BeyondRangeArgs()
    ensures LocalDateArgs("300000-01-01") == DateArgs(Finite(300000), Finite(0), Finite(1))
  {
    var parts := Split("300000-01-01", '-');
    BeyondRangeSplit();
    YearValue();
    OneValue();
    assert Piece(parts, 0) == Finite(300000);
    assert Piece(parts, 1) == Finite(1);
    assert Piece(parts, 2) == Finite(1);
  }

  lemma BeyondRangeSplit()
    ensures Split("300000-01-01", '-') == ["300000", "01", "01"]
  {
    var a, b := "300000", "01";
    SplitAfterPiece(b, '-', b);
    SplitSinglePiece(b, '-');
    SplitAfterPiece(a, '-', b + ['-'] + b);
    BeyondRangeText();
  }

  lemma BeyondRangeText()
    ensures "300000-01-01" == "300000" + ['-'] + ("01" + ['-'] + "01")
  {
  }

  lemma OneValue()
    ensures AllDigits("01") && DecimalValue("01") == 1
  {
    assert "01"[..1] == "0";
    assert "0"[..0] == "";
  }

  lemma YearValue()
    ensures AllDigits("300000") && DecimalValue("300000") == 300000
  {
    assert DecimalValue("3") == 3;
    assert "30"[..1] == "3";
    assert "300"[..2] == "30";
    assert "3000"[..3] == "300";
    assert "30000"[..4] == "3000";
    assert "300000"[..5] == "30000";
  }

  /** The empty string (an unfilled date input) is an Invalid Date. */
  lemma LocalDateOfEmpty()
    ensures LocalDate("") == None
  {
    assert Split("", '-') == [""];
  }
}
