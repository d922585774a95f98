/**
 * The request models: `CreateEmployee` and the five catalog models, as
 * validators from a dictionary of Python values to either the validated
 * data or pydantic's list of field issues.
 */
module Schemas {
  import opened Wrappers
  import opened Text
  import opened Calendar
  import opened Records

  /** One entry of `ValidationError.errors()`: `loc[0]`, `msg` and `type`. */
  datatype Issue = Issue(field: string, msg: string, kind: string)

  /** A validated `CreateEmployee`, as `model_dump()` returns it. */
  datatype EmployeeData = EmployeeData(
    firstName: string,
    surname: string,
    divisionId: int,
    rankId: int,
    positionId: int,
    departmentId: int,
    salaryBandId: int,
    contactNumber: string,
    startDate: Date,
    lastUpdated: DateTime)

  /** Any one of the field's constraints failing produces exactly one issue. */
  function IssuesOf<T>(r: Result<T, Issue>): (issues: seq<Issue>)
    ensures |issues| <= 1 && (issues == [] <==> r.Ok?)
  {
    if r.Err? then [r.error] else []
  }

  function Missing(field: string): Issue {
    Issue(field, "Field required", "missing")
  }

  /** A `str` field, with `min_length=1` when `nonEmpty`. */
  function StrField(field: string, v: Option<Value>, nonEmpty: bool): (r: Result<string, Issue>)
    ensures r.Ok? <==> v.Some? && v.value.Str? && (nonEmpty ==> v.value.s != "")
    ensures r.Ok? ==> r.value == v.value.s
    ensures r.Err? ==> r.error.field == field
  {
    match v
    case None => Err(Missing(field))
    case Some(Str(s)) =>
      if nonEmpty && s == "" then Err(Issue(field, "String should have at least 1 character", "string_too_short"))
      else Ok(s)
    case Some(_) => Err(Issue(field, "Input should be a valid string", "string_type"))
  }

  /** The characters pydantic strips from integer text, those of Rust's
    * `str::trim` (Unicode `White_Space`): Python's whitespace without the
    * separators U+001C to U+001F. */
  predicate IsUnicodeWhitespace(c: char) {
    IsPyWhitespace(c) && !('\U{001C}' <= c <= '\U{001F}')
  }

  /** Integer text as Rust's `str::parse` reads it: an optional sign, then
    * one or more ASCII digits. */
  function SignedDigits(s: string): (r: Option<int>)
    ensures AllDigits(s) ==> r == (if s == [] then None else Some(ParseDigits(s)))
  {
    if s != [] && (s[0] == '+' || s[0] == '-') then
      var t := s[1..];
      var n: int := if t != [] && AllDigits(t) then ParseDigits(t) else 0;
      if t != [] && AllDigits(t) then Some(if s[0] == '-' then -n else n) else None
    else if s != [] && AllDigits(s) then Some(ParseDigits(s))
    else None
  }

  /** The position of the last `.` in `s`, or -1. */
  function LastDot(s: string): (r: int)
    ensures -1 <= r < |s|
    ensures r >= 0 ==> s[r] == '.'
    ensures forall i :: r < i < |s| ==> s[i] != '.'
  {
    if s == [] then -1 else if s[|s| - 1] == '.' then |s| - 1 else LastDot(s[..|s| - 1])
  }

  /** The text before a last `.` that only zeros follow: `"12"` for `"12.000"`. */
  function StripDecimalZeros(s: string): (r: Option<string>)
    ensures r.Some? <==> exists i :: 0 <= i < |s| && s[i] == '.' && forall k :: i < k < |s| ==> s[k] == '0'
    ensures r.Some? ==> r.value + ['.'] <= s
  {
    var i := LastDot(s);
    if i >= 0 && forall k :: i < k < |s| ==> s[k] == '0' then
      assert s[..i] + ['.'] == s[..i + 1];
      Some(s[..i])
    else None
  }

  /** pydantic's lax reading of text as an integer: surrounding whitespace is
    * stripped, then the text is an optionally signed decimal, or one followed
    * by a point and nothing but zeros. */
  function LaxIntText(s: string): Option<int> {
    var t := Trim(s, IsUnicodeWhitespace);
    match SignedDigits(t)
    case Some(n) => Some(n)
    case None =>
      match StripDecimalZeros(t)
      case Some(u) => SignedDigits(u)
      case None => None
  }

  /** The lax conversion of a value to `int`: integers, booleans and integer
    * text convert. */
  function IntOf(field: string, v: Value): (r: Result<int, Issue>)
    ensures v.Int? ==> r == Ok(v.i)
    ensures v.Str? ==> (r.Ok? <==> LaxIntText(v.s).Some?) && (r.Ok? ==> r.value == LaxIntText(v.s).value)
    ensures r.Err? ==> r.error.field == field
  {
    match v
    case Int(i) => Ok(i)
    case Bool(b) => Ok(if b then 1 else 0)
    case Str(s) =>
      (match LaxIntText(s)
       case Some(n) => Ok(n)
       case None => Err(Issue(field, "Input should be a valid integer, unable to parse string as an integer", "int_parsing")))
    case NaN => Err(Issue(field, "Input should be a finite number", "finite_number"))
    case _ => Err(Issue(field, "Input should be a valid integer", "int_type"))
  }

  /** Text that neither starts nor ends with whitespace is what remains
    * when one space on either side is stripped. */
  lemma TrimOneSpace(s: string)
    requires s != [] && !IsUnicodeWhitespace(s[0]) && !IsUnicodeWhitespace(s[|s| - 1])
    ensures Trim(" " + s + " ", IsUnicodeWhitespace) == s
    ensures Trim(" " + s, IsUnicodeWhitespace) == s
    ensures Trim(s, IsUnicodeWhitespace) == s
  {
    TrimNoop(s, IsUnicodeWhitespace);
    var p := " " + s + " ";
    assert p[1..] == s + " ";
    assert LeadingSpaces(s + " ", IsUnicodeWhitespace) == 0;
    assert (s + " ")[..|s|] == s;
    assert UntrailedLength(s + " ", IsUnicodeWhitespace) == |s|;
    assert (" " + s)[1..] == s;
    assert LeadingSpaces(s, IsUnicodeWhitespace) == 0;
  }

  /** The decimal text of an integer: a sign only when negative, then digits. */
  lemma SignedDigitsOfDecimal(i: int)
    ensures SignedDigits(IntToString(i)) == Some(i)
    ensures forall k :: 0 <= k < |IntToString(i)| ==> IntToString(i)[k] != '.' && !IsUnicodeWhitespace(IntToString(i)[k])
  {
    var n: nat := if i < 0 then -i else i;
    var d := NatToString(n);
    ParseNatToString(n);
    var t := IntToString(i);
    if i < 0 {
      assert t == "-" + d;
      assert t[1..] == d;
      assert SignedDigits(t) == Some(i);
    } else {
      assert t == d;
      assert SignedDigits(t) == Some(i);
    }
    forall k | 0 <= k < |t| ensures t[k] != '.' && !IsUnicodeWhitespace(t[k]) {
      if i < 0 && k > 0 {
        assert t[k] == d[k - 1];
      }
      DecimalCharNotSpace(t[k]);
    }
  }

  /** A sign or a digit is neither a point nor whitespace. */
  lemma DecimalCharNotSpace(c: char)
    requires c == '-' || IsAsciiDigit(c)
    ensures c != '.' && !IsUnicodeWhitespace(c)
  {
  }

  /** Appending `.0` to text without a point gives that text back once the
    * decimal zeros are stripped, and it is then no longer plain integer text. */
  lemma StripPointZero(s: string)
    requires s != [] && forall k :: 0 <= k < |s| ==> s[k] != '.'
    ensures StripDecimalZeros(s + ".0") == Some(s)
    ensures SignedDigits(s + ".0") == None
  {
    var z := s + ".0";
    assert z[|s|] == '.' && z[|s| + 1] == '0';
    assert LastDot(z) == |s|;
    assert z[..|s|] == s;
    assert !IsAsciiDigit(z[|s|]);
    if z[0] == '+' || z[0] == '-' {
      assert z[1..][|s| - 1] == '.';
    }
  }

  /** An integer's decimal text reads back as that integer, with or without
    * surrounding spaces or a trailing `.0`. */
  lemma LaxIntTextOfDecimal(i: int)
    ensures LaxIntText(IntToString(i)) == Some(i)
    ensures LaxIntText(" " + IntToString(i) + " ") == Some(i)
    ensures LaxIntText(IntToString(i) + ".0") == Some(i)
  {
    var s := IntToString(i);
    SignedDigitsOfDecimal(i);
    TrimOneSpace(s);
    PointZeroReads(s, i);
  }

  lemma PointZeroReads(s: string, i: int)
    requires s != [] && SignedDigits(s) == Some(i)
    requires forall k :: 0 <= k < |s| ==> s[k] != '.' && !IsUnicodeWhitespace(s[k])
    ensures LaxIntText(s + ".0") == Some(i)
  {
    StripPointZero(s);
    var z := s + ".0";
    assert !IsUnicodeWhitespace(z[0]) && !IsUnicodeWhitespace(z[|z| - 1]);
    TrimNoop(z, IsUnicodeWhitespace);
  }

  /** Text that pydantic reads as an integer: padded, signed and zero-decimal
    * forms are accepted; another decimal is refused. */
  lemma LaxIntExamples()
    ensures LaxIntText(" 5") == Some(5)
    ensures LaxIntText("+5") == Some(5)
    ensures LaxIntText("5.0") == Some(5)
    ensures LaxIntText("5.5") == None
  {
    PaddedFive();
    SignedFive();
    PointZeroFive();
    NotLaxInt("5.5");
  }

  lemma PointZeroFive()
    ensures LaxIntText("5.0") == Some(5)
  {
    assert SignedDigits("5") == Some(5);
    PointZeroReads("5", 5);
    assert "5" + ".0" == "5.0";
  }

  lemma PaddedFive()
    ensures LaxIntText(" 5") == Some(5)
  {
    TrimOneSpace("5");
    assert SignedDigits("5") == Some(5);
  }

  lemma SignedFive()
    ensures LaxIntText("+5") == Some(5)
  {
    TrimOneSpace("+5");
    assert "+5"[1..] == "5";
  }

  lemma NotLaxInt(h: string)
    requires h == "5.5"
    ensures LaxIntText(h) == None
  {
    TrimOneSpace(h);
    assert h[0] == '5' && h[1] == '.' && h[2] == '5';
    assert !AllDigits(h);
    assert SignedDigits(h) == None;
    assert LastDot(h[..2]) == 1;
    assert LastDot(h) == 1;
    assert StripDecimalZeros(h) == None;
  }

  /** An `int` field with `ge=1`. */
  function PositiveIntField(field: string, v: Option<Value>): (r: Result<int, Issue>)
    ensures r.Ok? ==> r.value >= 1
    ensures r.Err? ==> r.error.field == field
    ensures v.Some? && v.value.Int? ==> (r.Ok? <==> v.value.i >= 1)
    ensures v.None? ==> r.Err?
  {
    match v
    case None => Err(Missing(field))
    case Some(x) =>
      match IntOf(field, x)
      case Err(e) => Err(e)
      case Ok(n) => if n >= 1 then Ok(n) else Err(Issue(field, "Input should be greater than or equal to 1", "greater_than_equal"))
  }

  /** An `int` field given text: refused as unparsable unless pydantic reads
    * the text as an integer, and then refused by `ge=1` unless it is positive. */
  lemma TextIntFieldSpec(field: string, s: string)
    ensures PositiveIntField(field, Some(Str(s))).Ok? <==> LaxIntText(s).Some? && LaxIntText(s).value >= 1
    ensures PositiveIntField(field, Some(Str(s))).Ok? ==> PositiveIntField(field, Some(Str(s))).value == LaxIntText(s).value
    ensures LaxIntText(s).None? ==> PositiveIntField(field, Some(Str(s))).error.kind == "int_parsing"
    ensures LaxIntText(s).Some? && LaxIntText(s).value < 1 ==>
      PositiveIntField(field, Some(Str(s))).error.kind == "greater_than_equal"
  {
    var r := IntOf(field, Str(s));
    assert r.Ok? <==> LaxIntText(s).Some?;
  }

  /** Negative text is refused by the bound `ge=1`, not as unparsable. */
  lemma NegativeTextFailsBound()
    ensures PositiveIntField("rank_id", Some(Str("-3"))) == Err(Issue("rank_id", "Input should be greater than or equal to 1", "greater_than_equal"))
  {
    LaxIntTextOfDecimal(-3);
    assert IntToString(-3) == "-3";
  }

  /** The ten code points from `start` on. */
  predicate DigitRun(x: int, start: int) { start <= x < start + 10 }

  /** The first code point of the run of ten decimal digits (general category
    * Nd) of Unicode 15.1 that holds code point `x`, or -1. The 680 digits
    * come in 68 runs, each counting from zero to nine. */
  function DigitRunStart(x: int): (r: int)
    ensures r == -1 || DigitRun(x, r)
  {
    if DigitRun(x, 0x0030) then 0x0030 else if DigitRun(x, 0x0660) then 0x0660 else if DigitRun(x, 0x06F0) then 0x06F0 else if DigitRun(x, 0x07C0) then 0x07C0 else
    if DigitRun(x, 0x0966) then 0x0966 else if DigitRun(x, 0x09E6) then 0x09E6 else if DigitRun(x, 0x0A66) then 0x0A66 else if DigitRun(x, 0x0AE6) then 0x0AE6 else
    if DigitRun(x, 0x0B66) then 0x0B66 else if DigitRun(x, 0x0BE6) then 0x0BE6 else if DigitRun(x, 0x0C66) then 0x0C66 else if DigitRun(x, 0x0CE6) then 0x0CE6 else
    if DigitRun(x, 0x0D66) then 0x0D66 else if DigitRun(x, 0x0DE6) then 0x0DE6 else if DigitRun(x, 0x0E50) then 0x0E50 else if DigitRun(x, 0x0ED0) then 0x0ED0 else
    if DigitRun(x, 0x0F20) then 0x0F20 else if DigitRun(x, 0x1040) then 0x1040 else if DigitRun(x, 0x1090) then 0x1090 else if DigitRun(x, 0x17E0) then 0x17E0 else
    if DigitRun(x, 0x1810) then 0x1810 else if DigitRun(x, 0x1946) then 0x1946 else if DigitRun(x, 0x19D0) then 0x19D0 else if DigitRun(x, 0x1A80) then 0x1A80 else
    if DigitRun(x, 0x1A90) then 0x1A90 else if DigitRun(x, 0x1B50) then 0x1B50 else if DigitRun(x, 0x1BB0) then 0x1BB0 else if DigitRun(x, 0x1C40) then 0x1C40 else
    if DigitRun(x, 0x1C50) then 0x1C50 else if DigitRun(x, 0xA620) then 0xA620 else if DigitRun(x, 0xA8D0) then 0xA8D0 else if DigitRun(x, 0xA900) then 0xA900 else
    if DigitRun(x, 0xA9D0) then 0xA9D0 else if DigitRun(x, 0xA9F0) then 0xA9F0 else if DigitRun(x, 0xAA50) then 0xAA50 else if DigitRun(x, 0xABF0) then 0xABF0 else
    if DigitRun(x, 0xFF10) then 0xFF10 else if DigitRun(x, 0x104A0) then 0x104A0 else if DigitRun(x, 0x10D30) then 0x10D30 else if DigitRun(x, 0x11066) then 0x11066 else
    if DigitRun(x, 0x110F0) then 0x110F0 else if DigitRun(x, 0x11136) then 0x11136 else if DigitRun(x, 0x111D0) then 0x111D0 else if DigitRun(x, 0x112F0) then 0x112F0 else
    if DigitRun(x, 0x11450) then 0x11450 else if DigitRun(x, 0x114D0) then 0x114D0 else if DigitRun(x, 0x11650) then 0x11650 else if DigitRun(x, 0x116C0) then 0x116C0 else
    if DigitRun(x, 0x11730) then 0x11730 else if DigitRun(x, 0x118E0) then 0x118E0 else if DigitRun(x, 0x11950) then 0x11950 else if DigitRun(x, 0x11C50) then 0x11C50 else
    if DigitRun(x, 0x11D50) then 0x11D50 else if DigitRun(x, 0x11DA0) then 0x11DA0 else if DigitRun(x, 0x11F50) then 0x11F50 else if DigitRun(x, 0x16A60) then 0x16A60 else
    if DigitRun(x, 0x16AC0) then 0x16AC0 else if DigitRun(x, 0x16B50) then 0x16B50 else if DigitRun(x, 0x1D7CE) then 0x1D7CE else if DigitRun(x, 0x1D7D8) then 0x1D7D8 else
    if DigitRun(x, 0x1D7E2) then 0x1D7E2 else if DigitRun(x, 0x1D7EC) then 0x1D7EC else if DigitRun(x, 0x1D7F6) then 0x1D7F6 else if DigitRun(x, 0x1E140) then 0x1E140 else
    if DigitRun(x, 0x1E2F0) then 0x1E2F0 else if DigitRun(x, 0x1E4F0) then 0x1E4F0 else if DigitRun(x, 0x1E950) then 0x1E950 else if DigitRun(x, 0x1FBF0) then 0x1FBF0 else
    -1
  }

  /** `\d` in a pattern without the ASCII flag, in pydantic's default Rust
    * engine as in Python's `re`: any Unicode decimal digit. */
  predicate IsDecimalDigit(c: char) {
    DigitRunStart(c as int) >= 0
  }

  /** The value of a decimal digit, as Python's `int` reads it. */
  function DecimalValue(c: char): (d: int)
    requires IsDecimalDigit(c)
    ensures 0 <= d < 10
  {
    c as int - DigitRunStart(c as int)
  }

  /** The ASCII digits are decimal digits, and so are the Arabic-Indic ones;
    * letters and the plus sign are not. */
  lemma DecimalDigitCases(c: char)
    ensures IsAsciiDigit(c) ==> IsDecimalDigit(c) && DecimalValue(c) == DigitValue(c)
    ensures '\U{0660}' <= c <= '\U{0669}' ==> IsDecimalDigit(c) && DecimalValue(c) == c as int - 0x0660
    ensures 'a' <= c <= 'z' || c == '+' ==> !IsDecimalDigit(c)
  {
  }

  /** The regular expression `(\+|0)\d+` matches somewhere in `s`; pydantic
    * searches for the pattern rather than matching the whole string. */
  predicate ContactPattern(s: string) {
    exists i | 0 <= i < |s| - 1 :: (s[i] == '+' || s[i] == '0') && IsDecimalDigit(s[i + 1])
  }

  /** `contact_number: str = Field(..., pattern=r"(\+|0)\d+")`. */
  function ContactField(v: Option<Value>): (r: Result<string, Issue>)
    ensures r.Ok? <==> v.Some? && v.value.Str? && ContactPattern(v.value.s)
    ensures r.Ok? ==> r.value == v.value.s
    ensures r.Err? ==> r.error.field == "contact_number"
  {
    match StrField("contact_number", v, false)
    case Err(e) => Err(e)
    case Ok(s) =>
      if ContactPattern(s) then Ok(s)
      else Err(Issue("contact_number", "String should match pattern '(\\+|0)\\d+'", "string_pattern_mismatch"))
  }

  /** `YYYY-MM-DD`: four, two and two decimal digits separated by hyphens. */
  function IsoDate(s: string): Option<Date> {
    if |s| == 10 && s[4] == '-' && s[7] == '-' && AllDigits(s[..4]) && AllDigits(s[5..7]) && AllDigits(s[8..]) then
      var d := Date(ParseDigits(s[..4]), ParseDigits(s[5..7]), ParseDigits(s[8..]));
      if ValidDate(d) then Some(d) else None
    else None
  }

  /** `HH:MM` or `HH:MM:SS`: the seconds since midnight, when in range. */
  function ClockTime(s: string): (r: Option<nat>)
    ensures r.Some? ==> r.value < 86400
  {
    if (|s| == 5 || |s| == 8) && s[2] == ':' && AllDigits(s[..2]) && AllDigits(s[3..5])
       && (|s| == 8 ==> s[5] == ':' && AllDigits(s[6..])) then
      var h, m := ParseDigits(s[..2]), ParseDigits(s[3..5]);
      var sec := if |s| == 8 then ParseDigits(s[6..]) else 0;
      if h < 24 && m < 60 && sec < 60 then Some(3600 * h + 60 * m + sec) else None
    else None
  }

  /** The separators accepted between the date and the time of a datetime text. */
  predicate DateTimeSeparator(c: char) {
    c == 'T' || c == 't' || c == '_' || c == ' '
  }

  /** A datetime text: an ISO date, a separator and a clock time. */
  function IsoDateTime(s: string): Option<(Date, nat)> {
    if |s| > 11 && DateTimeSeparator(s[10]) then
      match IsoDate(s[..10])
      case None => None
      case Some(d) =>
        match ClockTime(s[11..])
        case None => None
        case Some(secs) => Some((d, secs))
    else None
  }

  /** `start_date: date`: a timestamp at midnight, an ISO date text, or a
    * datetime text at midnight. A date text is never also a datetime text. */
  function DateField(field: string, v: Option<Value>): (r: Result<Date, Issue>)
    ensures r.Err? ==> r.error.field == field
    ensures v.Some? && v.value.Stamp? ==> (r.Ok? <==> v.value.t.micros == 0)
    ensures v.Some? && v.value.Stamp? && r.Ok? ==> r.value == v.value.t.date
    ensures v.Some? && v.value.Str? ==>
      (r.Ok? <==> IsoDate(v.value.s).Some? || (IsoDateTime(v.value.s).Some? && IsoDateTime(v.value.s).value.1 == 0))
  {
    match v
    case None => Err(Missing(field))
    case Some(Stamp(t)) =>
      if t.micros == 0 then Ok(t.date)
      else Err(Issue(field, InexactMessage, "date_from_datetime_inexact"))
    case Some(Str(s)) =>
      (match IsoDate(s)
       case Some(d) => Ok(d)
       case None =>
         match IsoDateTime(s)
         case Some((d, secs)) => if secs == 0 then Ok(d) else Err(Issue(field, InexactMessage, "date_from_datetime_inexact"))
         case None => Err(Issue(field, "Input should be a valid date or datetime, invalid date format", "date_from_datetime_parsing")))
    case Some(_) => Err(Issue(field, "Input should be a valid date", "date_type"))
  }

  const InexactMessage := "Datetimes provided to dates should have zero time - e.g. be exact dates"

  /** A date text followed by a separator and a time is accepted as that date
    * exactly when the time is midnight. */
  lemma DateTimeTextSpec(field: string, d: string, sep: char, time: string)
    requires IsoDate(d).Some? && DateTimeSeparator(sep) && ClockTime(time).Some?
    ensures var r := DateField(field, Some(Str(d + [sep] + time)));
      && (ClockTime(time).value == 0 ==> r == Ok(IsoDate(d).value))
      && (ClockTime(time).value != 0 ==> r == Err(Issue(field, InexactMessage, "date_from_datetime_inexact")))
  {
    var s := d + [sep] + time;
    assert s[..10] == d && s[10] == sep && s[11..] == time;
  }

  /** The field names of `CreateEmployee`, in declaration order. */
  const FirstNameKey := "first_name"
  const SurnameKey := "surname"
  const DivisionIdKey := "division_id"
  const RankIdKey := "rank_id"
  const PositionIdKey := "position_id"
  const DepartmentIdKey := "department_id"
  const SalaryBandIdKey := "salary_band_id"
  const ContactNumberKey := "contact_number"
  const StartDateKey := "start_date"
  const LastUpdatedKey := "last_updated"
  const EmployeeFields: seq<string> := [
    FirstNameKey, SurnameKey, DivisionIdKey, RankIdKey, PositionIdKey,
    DepartmentIdKey, SalaryBandIdKey, ContactNumberKey, StartDateKey, LastUpdatedKey]

  /** The issues of the nine checked fields, in declaration order. */
  function FieldIssues(record: Dict, divisionId: int): (issues: seq<Issue>)
    ensures |issues| <= 9
  {
    IssuesOf(StrField(FirstNameKey, Get(record, FirstNameKey), true))
      + IssuesOf(StrField(SurnameKey, Get(record, SurnameKey), true))
      + IssuesOf(PositiveIntField(DivisionIdKey, Some(Int(divisionId))))
      + IssuesOf(PositiveIntField(RankIdKey, Get(record, RankIdKey)))
      + IssuesOf(PositiveIntField(PositionIdKey, Get(record, PositionIdKey)))
      + IssuesOf(PositiveIntField(DepartmentIdKey, Get(record, DepartmentIdKey)))
      + IssuesOf(PositiveIntField(SalaryBandIdKey, Get(record, SalaryBandIdKey)))
      + IssuesOf(ContactField(Get(record, ContactNumberKey)))
      + IssuesOf(DateField(StartDateKey, Get(record, StartDateKey)))
  }

  /** `CreateEmployee(**record, division_id=divisionId, last_updated=dt)`:
    * each field is checked and the issues are reported in declaration order.
    * Keys of `record` that are not fields are ignored. */
  function ValidateEmployee(record: Dict, divisionId: int, dt: DateTime): Result<EmployeeData, seq<Issue>> {
    var issues := FieldIssues(record, divisionId);
    if issues != [] then Err(issues)
    else
      EmployeeFromChecks(record, divisionId, dt)
  }

  /** The validated data once every field check has passed. */
  function EmployeeFromChecks(record: Dict, divisionId: int, dt: DateTime): Result<EmployeeData, seq<Issue>>
    requires FieldIssues(record, divisionId) == []
  {
    NoIssuesMeansAllPass(record, divisionId);
    Ok(EmployeeData(
      StrField(FirstNameKey, Get(record, FirstNameKey), true).value,
      StrField(SurnameKey, Get(record, SurnameKey), true).value,
      divisionId,
      PositiveIntField(RankIdKey, Get(record, RankIdKey)).value,
      PositiveIntField(PositionIdKey, Get(record, PositionIdKey)).value,
      PositiveIntField(DepartmentIdKey, Get(record, DepartmentIdKey)).value,
      PositiveIntField(SalaryBandIdKey, Get(record, SalaryBandIdKey)).value,
      ContactField(Get(record, ContactNumberKey)).value,
      DateField(StartDateKey, Get(record, StartDateKey)).value,
      dt))
  }

  /** There are no issues iff every field check passes. */
  lemma NoIssuesMeansAllPass(record: Dict, divisionId: int)
    ensures FieldIssues(record, divisionId) == [] <==>
      && StrField(FirstNameKey, Get(record, FirstNameKey), true).Ok?
      && StrField(SurnameKey, Get(record, SurnameKey), true).Ok?
      && divisionId >= 1
      && PositiveIntField(RankIdKey, Get(record, RankIdKey)).Ok?
      && PositiveIntField(PositionIdKey, Get(record, PositionIdKey)).Ok?
      && PositiveIntField(DepartmentIdKey, Get(record, DepartmentIdKey)).Ok?
      && PositiveIntField(SalaryBandIdKey, Get(record, SalaryBandIdKey)).Ok?
      && ContactField(Get(record, ContactNumberKey)).Ok?
      && DateField(StartDateKey, Get(record, StartDateKey)).Ok?
  {
    var d := PositiveIntField(DivisionIdKey, Some(Int(divisionId)));
    assert d.Ok? <==> divisionId >= 1;
  }

  /** A validated employee satisfies every field constraint: non-empty names,
    * identifiers of at least 1, a contact number with the pattern, the given
    * division and ingestion time, and text fields taken verbatim. */
  lemma ValidEmployeeConstraints(record: Dict, divisionId: int, dt: DateTime)
    ensures var r := ValidateEmployee(record, divisionId, dt);
      r.Ok? ==>
        && r.value.firstName != "" && r.value.surname != ""
        && Get(record, FirstNameKey) == Some(Str(r.value.firstName))
        && Get(record, SurnameKey) == Some(Str(r.value.surname))
        && r.value.divisionId == divisionId && r.value.lastUpdated == dt
        && r.value.rankId >= 1 && r.value.positionId >= 1 && r.value.departmentId >= 1
        && r.value.salaryBandId >= 1 && r.value.divisionId >= 1
        && Get(record, ContactNumberKey) == Some(Str(r.value.contactNumber))
        && ContactPattern(r.value.contactNumber)
  {
    if FieldIssues(record, divisionId) == [] {
      NoIssuesMeansAllPass(record, divisionId);
      var r := EmployeeFromChecks(record, divisionId, dt);
      assert ValidateEmployee(record, divisionId, dt) == r;
      assert r.value.rankId == PositiveIntField(RankIdKey, Get(record, RankIdKey)).value;
    }
  }

  /** Validation fails iff some field check fails, and then it reports at
    * least one and at most one issue per checked field. */
  lemma ValidationFailureSpec(record: Dict, divisionId: int, dt: DateTime)
    ensures var r := ValidateEmployee(record, divisionId, dt);
      && (r.Err? <==>
        || StrField(FirstNameKey, Get(record, FirstNameKey), true).Err?
        || StrField(SurnameKey, Get(record, SurnameKey), true).Err?
        || divisionId < 1
        || PositiveIntField(RankIdKey, Get(record, RankIdKey)).Err?
        || PositiveIntField(PositionIdKey, Get(record, PositionIdKey)).Err?
        || PositiveIntField(DepartmentIdKey, Get(record, DepartmentIdKey)).Err?
        || PositiveIntField(SalaryBandIdKey, Get(record, SalaryBandIdKey)).Err?
        || ContactField(Get(record, ContactNumberKey)).Err?
        || DateField(StartDateKey, Get(record, StartDateKey)).Err?)
      && (r.Err? ==> r.error != [] && |r.error| <= 9)
  {
    NoIssuesMeansAllPass(record, divisionId);
  }

  /** An empty first name is reported against `first_name`. */
  lemma EmptyFirstNameRejected(record: Dict, divisionId: int, dt: DateTime)
    requires Get(record, FirstNameKey) == Some(Str(""))
    ensures var r := ValidateEmployee(record, divisionId, dt);
      r.Err? && Issue(FirstNameKey, "String should have at least 1 character", "string_too_short") in r.error
  {
    assert ValidateEmployee(record, divisionId, dt).error[0].field == FirstNameKey;
  }

  /** A contact number in which no '+' or '0' is followed by a decimal digit
    * is rejected. */
  lemma ContactWithoutPatternRejected(record: Dict, divisionId: int, dt: DateTime, s: string)
    requires Get(record, ContactNumberKey) == Some(Str(s))
    requires forall i :: 0 <= i < |s| - 1 ==> (s[i] == '+' || s[i] == '0') ==> !IsDecimalDigit(s[i + 1])
    ensures ValidateEmployee(record, divisionId, dt).Err?
  {
    assert !ContactPattern(s);
    assert ContactField(Get(record, ContactNumberKey)).Err?;
    NoIssuesMeansAllPass(record, divisionId);
  }

  /** A '+' followed by an Arabic-Indic digit passes the pattern, and
    * `0a` does not. */
  lemma ContactFieldExamples()
    ensures ContactField(Some(Str("+\U{0663}"))) == Ok("+\U{0663}")
    ensures ContactField(Some(Str("0a"))).Err?
  {
    DecimalDigitCases('\U{0663}');
    var p := "+\U{0663}";
    assert p[0] == '+' && p[1] == '\U{0663}';
    assert ContactPattern(p);
    DecimalDigitCases('a');
    var q := "0a";
    assert q[1] == 'a';
    assert !ContactPattern(q);
  }

  /** `CreateDivision` and `CreateSalaryBand`: `id: int = Field(..., ge=1)`. */
  function ValidateIdModel(body: Dict): (r: Result<int, Issue>)
    ensures r.Ok? ==> r.value >= 1
  {
    PositiveIntField("id", Get(body, "id"))
  }

  /** `CreateRank`, `CreatePosition` and `CreateDepartment`: a required `name`
    * string, which may be empty. */
  function ValidateNameModel(body: Dict): (r: Result<string, Issue>)
    ensures r.Ok? <==> exists s :: Get(body, "name") == Some(Str(s))
  {
    StrField("name", Get(body, "name"), false)
  }

  /** A catalog name has no length constraint, while identifier 0 is refused. */
  lemma CatalogConstraints(body: Dict)
    ensures Get(body, "name") == Some(Str("")) ==> ValidateNameModel(body) == Ok("")
    ensures Get(body, "id") == Some(Int(0)) ==> ValidateIdModel(body).Err?
    ensures Get(body, "id") == None ==> ValidateIdModel(body) == Err(Missing("id"))
  {
  }
}
