/**
 * Python's naive `datetime`: its fields, its ordering, `datetime.min`, and
 * `isoformat()`. Reading the wall clock is not modelled; callers pass the
 * instant the clock would have returned.
 */
module Clock {
  import opened Wrappers
  import opened Text

  datatype Fields = Fields(year: int, month: int, day: int,
                           hour: int, minute: int, second: int, microsecond: int)

  predicate IsLeap(y: int) {
    y % 4 == 0 && (y % 100 != 0 || y % 400 == 0)
  }

  function DaysInMonth(y: int, m: int): int {
    if m == 2 then (if IsLeap(y) then 29 else 28)
    else if m == 4 || m == 6 || m == 9 || m == 11 then 30
    else 31
  }

  /** The ranges the datetime constructor enforces. */
  predicate ValidFields(f: Fields) {
    && 1 <= f.year <= 9999
    && 1 <= f.month <= 12
    && 1 <= f.day <= DaysInMonth(f.year, f.month)
    && 0 <= f.hour < 24
    && 0 <= f.minute < 60
    && 0 <= f.second < 60
    && 0 <= f.microsecond < 1000000
  }

  type DateTime = f: Fields | ValidFields(f) witness Fields(1, 1, 1, 0, 0, 0, 0)

  /** datetime.min */
  const Min: DateTime := Fields(1, 1, 1, 0, 0, 0, 0)

  /** a >= b for naive datetimes: the fields compared from the year down. */
  predicate AtLeast(a: DateTime, b: DateTime) {
    if a.year != b.year then a.year > b.year
    else if a.month != b.month then a.month > b.month
    else if a.day != b.day then a.day > b.day
    else if a.hour != b.hour then a.hour > b.hour
    else if a.minute != b.minute then a.minute > b.minute
    else if a.second != b.second then a.second > b.second
    else a.microsecond >= b.microsecond
  }

  /** datetime.min is at most every datetime. */
  lemma MinIsLeast(d: DateTime)
    ensures AtLeast(d, Min)
    ensures AtLeast(Min, d) <==> d == Min
  {
  }

  /** Any two datetimes are comparable, and >= both ways means equal. */
  lemma AtLeastTotal(a: DateTime, b: DateTime)
    ensures AtLeast(a, b) || AtLeast(b, a)
    ensures AtLeast(a, b) && AtLeast(b, a) ==> a == b
  {
  }

  /**
   * d.isoformat(sep): "YYYY-MM-DD", sep, "HH:MM:SS", and ".ffffff" only
   * when the microsecond is not zero. str(d) is IsoFormat(d, ' ').
   */
  function IsoFormat(d: DateTime, sep: char): (s: string)
    ensures |s| == if d.microsecond == 0 then 19 else 26
  {
    DatePart(d) + [sep] + TimePart(d) + FractionPart(d)
  }

  /** "YYYY-MM-DD" */
  function DatePart(d: DateTime): (s: string)
    ensures |s| == 10
  {
    Digits(d.year, 4) + "-" + Digits(d.month, 2) + "-" + Digits(d.day, 2)
  }

  /** "HH:MM:SS" */
  function TimePart(d: DateTime): (s: string)
    ensures |s| == 8
  {
    Digits(d.hour, 2) + ":" + Digits(d.minute, 2) + ":" + Digits(d.second, 2)
  }

  /** ".ffffff", or nothing when the microsecond is zero. */
  function FractionPart(d: DateTime): (s: string)
    ensures |s| == if d.microsecond == 0 then 0 else 7
  {
    if d.microsecond == 0 then "" else "." + Digits(d.microsecond, 6)
  }

  function Field(s: string, from: nat, width: nat): Option<int>
    requires from + width <= |s|
  {
    var t := s[from..from + width];
    if AllDigits(t) then Some(ValueOf(t)) else None
  }

  /** Reads back the text IsoFormat writes with separator 'T'; None for any other text. */
  function ParseIso(s: string): (r: Option<DateTime>)
    ensures r.Some? ==> |s| == 19 || |s| == 26
  {
    if !(|s| == 19 || |s| == 26) then None
    else if s[4] != '-' || s[7] != '-' || s[10] != 'T' || s[13] != ':' || s[16] != ':' then None
    else if |s| == 26 && s[19] != '.' then None
    else
      var y, mo, d := Field(s, 0, 4), Field(s, 5, 2), Field(s, 8, 2);
      var h, mi, se := Field(s, 11, 2), Field(s, 14, 2), Field(s, 17, 2);
      var us := if |s| == 19 then Some(0) else Field(s, 20, 6);
      if y.None? || mo.None? || d.None? || h.None? || mi.None? || se.None? || us.None? then None
      else
        var f := Fields(y.value, mo.value, d.value, h.value, mi.value, se.value, us.value);
        if !ValidFields(f) then None
        else if |s| == 26 && f.microsecond == 0 then None
        else Some(f)
  }

  lemma FieldOfDigits(s: string, from: nat, n: nat, width: nat)
    requires from + width <= |s| && s[from..from + width] == Digits(n, width)
    requires n < Pow10(width)
    ensures Field(s, from, width) == Some(n)
  {
    var p := Pow10(width);
    DigitsValue(n, width);
    ModUnique(n, p, 0, n);
    assert ValueOf(s[from..from + width]) == n;
  }

  lemma DateLayout(d: DateTime)
    ensures var s := DatePart(d);
      |s| == 10 && s[0..4] == Digits(d.year, 4) && s[4] == '-'
      && s[5..7] == Digits(d.month, 2) && s[7] == '-' && s[8..10] == Digits(d.day, 2)
  {
  }

  lemma TimeLayout(d: DateTime)
    ensures var s := TimePart(d);
      |s| == 8 && s[0..2] == Digits(d.hour, 2) && s[2] == ':'
      && s[3..5] == Digits(d.minute, 2) && s[5] == ':' && s[6..8] == Digits(d.second, 2)
  {
  }

  /** Where each field of IsoFormat(d, 'T') sits in the text. */
  lemma IsoLayout(d: DateTime)
    ensures var s := IsoFormat(d, 'T');
      && s[0..4] == Digits(d.year, 4) && s[4] == '-'
      && s[5..7] == Digits(d.month, 2) && s[7] == '-'
      && s[8..10] == Digits(d.day, 2) && s[10] == 'T'
      && s[11..13] == Digits(d.hour, 2) && s[13] == ':'
      && s[14..16] == Digits(d.minute, 2) && s[16] == ':'
      && s[17..19] == Digits(d.second, 2)
      && (|s| == 26 ==> s[19] == '.' && s[20..26] == Digits(d.microsecond, 6))
  {
    var s := IsoFormat(d, 'T');
    var date, time, frac := DatePart(d), TimePart(d), FractionPart(d);
    DateLayout(d);
    TimeLayout(d);
    assert s[..10] == date;
    assert s[11..19] == time;
    assert s[19..] == frac;
    assert s[0..4] == date[0..4] && s[5..7] == date[5..7] && s[8..10] == date[8..10];
    assert s[11..13] == time[0..2] && s[14..16] == time[3..5] && s[17..19] == time[6..8];
  }

  /** Text laid out as IsoFormat(d, 'T') lays it out. */
  predicate LaidOut(s: string, d: DateTime) {
    && |s| == (if d.microsecond == 0 then 19 else 26)
    && s[0..4] == Digits(d.year, 4) && s[4] == '-'
    && s[5..7] == Digits(d.month, 2) && s[7] == '-'
    && s[8..10] == Digits(d.day, 2) && s[10] == 'T'
    && s[11..13] == Digits(d.hour, 2) && s[13] == ':'
    && s[14..16] == Digits(d.minute, 2) && s[16] == ':'
    && s[17..19] == Digits(d.second, 2)
    && (|s| == 26 ==> s[19] == '.' && s[20..26] == Digits(d.microsecond, 6))
  }

  lemma ParseLaidOut(s: string, d: DateTime)
    requires LaidOut(s, d)
    ensures ParseIso(s) == Some(d)
  {
    assert Pow10(2) == 100 && Pow10(4) == 10000 && Pow10(6) == 1000000;
    FieldOfDigits(s, 0, d.year, 4);
    FieldOfDigits(s, 5, d.month, 2);
    FieldOfDigits(s, 8, d.day, 2);
    FieldOfDigits(s, 11, d.hour, 2);
    FieldOfDigits(s, 14, d.minute, 2);
    FieldOfDigits(s, 17, d.second, 2);
    if d.microsecond != 0 {
      FieldOfDigits(s, 20, d.microsecond, 6);
    }
  }

  /** isoformat() loses nothing: the datetime can be read back from its text. */
  lemma IsoRoundTrip(d: DateTime)
    ensures ParseIso(IsoFormat(d, 'T')) == Some(d)
  {
    IsoLayout(d);
    ParseLaidOut(IsoFormat(d, 'T'), d);
  }

  /** Distinct datetimes have distinct isoformat() text, whatever the separator. */
  lemma IsoFormatInjective(a: DateTime, b: DateTime, sep: char)
    requires IsoFormat(a, sep) == IsoFormat(b, sep)
    ensures a == b
  {
    SameSeparator(a, b, sep);
    IsoRoundTrip(a);
    IsoRoundTrip(b);
  }

  /** Two isoformat texts with one separator agree exactly when they agree with 'T'. */
  lemma SameSeparator(a: DateTime, b: DateTime, sep: char)
    requires IsoFormat(a, sep) == IsoFormat(b, sep)
    ensures IsoFormat(a, 'T') == IsoFormat(b, 'T')
  {
    SplitAtSeparator(a, sep);
    SplitAtSeparator(b, sep);
    SplitAtSeparator(a, 'T');
    SplitAtSeparator(b, 'T');
    Around(DatePart(a), TimePart(a) + FractionPart(a), DatePart(b), TimePart(b) + FractionPart(b), sep);
  }

  lemma SplitAtSeparator(d: DateTime, sep: char)
    ensures IsoFormat(d, sep) == DatePart(d) + [sep] + (TimePart(d) + FractionPart(d))
  {
  }

  /** Text split around one character at the same place splits into equal halves. */
  lemma Around(x: string, y: string, x': string, y': string, c: char)
    requires |x| == |x'| && x + [c] + y == x' + [c] + y'
    ensures x == x' && y == y'
  {
    var s := x + [c] + y;
    assert s == x' + [c] + y';
    assert x == s[..|x|] == x';
    assert y == s[|x| + 1..] == y';
  }
}
