/**
 * The already-resolved local date-time an entry carries, and its rendering
 * with the chrono pattern "%Y-%m-%d %H:%M:%S". Time-zone resolution is not
 * modelled: the fields are the ones chrono reports for the local zone.
 */
module DateTimeFormat {
  import opened Wrappers
  import opened Decimal
  import opened Text

  datatype DateTime = DateTime(year: int, month: nat, day: nat, hour: nat, minute: nat, second: nat)

  /** The ranges chrono's accessors report (second 60 is how `%S` writes a leap second). */
  predicate WellFormed(t: DateTime) {
    1 <= t.month <= 12 && 1 <= t.day <= 31 && t.hour < 24 && t.minute < 60 && t.second <= 60
  }

  /**
   * `%Y`: years 0 through 9999 as four zero-padded digits; any other year
   * with an explicit sign followed by at least four digits.
   */
  function FormatYear(y: int): (s: string)
    ensures |s| >= 4 && SingleLine(s)
    ensures 0 <= y <= 9999 ==> |s| == 4 && AllDigits(s) && DigitsValue(s) == y
  {
    assert Pow10(4) == 10000 by { assert Pow10(2) == 100; }
    ZeroPadRoundTrip(if y < 0 then -y else y, 4);
    DigitsSingleLine(ZeroPad(if y < 0 then -y else y, 4));
    if 0 <= y <= 9999 then ZeroPad(y, 4)
    else if y < 0 then "-" + ZeroPad(-y, 4)
    else "+" + ZeroPad(y, 4)
  }

  /** "%Y-%m-%d %H:%M:%S": each of month, day, hour, minute and second as two zero-padded digits. */
  function Format(t: DateTime): (s: string)
    ensures SingleLine(s)
  {
    FormatDate(t) + " " + FormatTime(t)
  }

  /** "%Y-%m-%d" */
  function FormatDate(t: DateTime): (s: string)
    ensures SingleLine(s)
  {
    DigitsSingleLine(ZeroPad(t.month, 2));
    DigitsSingleLine(ZeroPad(t.day, 2));
    FormatYear(t.year) + "-" + ZeroPad(t.month, 2) + "-" + ZeroPad(t.day, 2)
  }

  /** "%H:%M:%S" */
  function FormatTime(t: DateTime): (s: string)
    ensures SingleLine(s)
  {
    DigitsSingleLine(ZeroPad(t.hour, 2));
    DigitsSingleLine(ZeroPad(t.minute, 2));
    DigitsSingleLine(ZeroPad(t.second, 2));
    ZeroPad(t.hour, 2) + ":" + ZeroPad(t.minute, 2) + ":" + ZeroPad(t.second, 2)
  }

  /** Digits are never a line break. */
  lemma DigitsSingleLine(s: string)
    requires AllDigits(s)
    ensures SingleLine(s)
  {
  }

  /** Three digit fields of widths `w`, 2 and 2 joined by `sep`, read as numbers. */
  function ParseFields(s: string, sep: char, w: nat): (r: Option<(nat, nat, nat)>)
    ensures r.Some? ==> |s| == w + 6 && r.value.0 < Pow10(w) && r.value.1 < 100 && r.value.2 < 100
  {
    if |s| == w + 6 && s[w] == sep && s[w + 3] == sep
       && AllDigits(s[..w]) && AllDigits(s[w + 1..w + 3]) && AllDigits(s[w + 4..])
    then
      assert Pow10(2) == 100;
      DigitsBound(s[..w]);
      DigitsBound(s[w + 1..w + 3]);
      DigitsBound(s[w + 4..]);
      Some((DigitsValue(s[..w]), DigitsValue(s[w + 1..w + 3]), DigitsValue(s[w + 4..])))
    else None
  }

  /** A reader for "YYYY-MM-DD HH:MM:SS", independent of `Format`. */
  function Parse(s: string): (r: Option<DateTime>)
    ensures r.Some? ==> |s| == 19 && 0 <= r.value.year <= 9999 && r.value.hour < 100
  {
    if |s| != 19 || s[10] != ' ' then None
    else
      assert Pow10(4) == 10000 by { assert Pow10(2) == 100; }
      match (ParseFields(s[..10], '-', 4), ParseFields(s[11..], ':', 2))
      case (Some((y, mo, d)), Some((h, mi, se))) => Some(DateTime(y, mo, d, h, mi, se))
      case _ => None
  }

  lemma {:induction false} DigitsBound(s: string)
    requires AllDigits(s)
    ensures DigitsValue(s) < Pow10(|s|)
    decreases |s|
  {
    if s != [] {
      DigitsBound(s[..|s| - 1]);
    }
  }

  /** Where the three parts of `x sep y sep z` sit. */
  lemma JoinSlices(x: string, y: string, z: string, sep: char)
    ensures var s := x + [sep] + y + [sep] + z;
      |s| == |x| + |y| + |z| + 2 && s[..|x|] == x && s[|x|] == sep && s[|x| + 1..|x| + 1 + |y|] == y
      && s[|x| + 1 + |y|] == sep && s[|x| + 2 + |y|..] == z
  {
  }

  /** Joining three zero-padded fields and reading them back gives the fields. */
  lemma FieldsRoundTrip(a: nat, b: nat, c: nat, sep: char, w: nat)
    requires 1 <= w && a < Pow10(w) && b < 100 && c < 100
    ensures ParseFields(ZeroPad(a, w) + [sep] + ZeroPad(b, 2) + [sep] + ZeroPad(c, 2), sep, w)
         == Some((a, b, c))
  {
    assert Pow10(2) == 100;
    ZeroPadRoundTrip(a, w);
    ZeroPadRoundTrip(b, 2);
    ZeroPadRoundTrip(c, 2);
    JoinSlices(ZeroPad(a, w), ZeroPad(b, 2), ZeroPad(c, 2), sep);
  }

  /**
   * For a four-digit year, the rendering is exactly 19 characters and reads
   * back as the same date-time: the timestamp line loses nothing.
   */
  lemma FormatParseRoundTrip(t: DateTime)
    requires WellFormed(t) && 0 <= t.year <= 9999
    ensures |Format(t)| == 19
    ensures Parse(Format(t)) == Some(t)
  {
    assert Pow10(4) == 10000 by { assert Pow10(2) == 100; }
    FieldsRoundTrip(t.year, t.month, t.day, '-', 4);
    FieldsRoundTrip(t.hour, t.minute, t.second, ':', 2);
    var date, time := FormatDate(t), FormatTime(t);
    assert date == ZeroPad(t.year, 4) + ['-'] + ZeroPad(t.month, 2) + ['-'] + ZeroPad(t.day, 2);
    assert time == ZeroPad(t.hour, 2) + [':'] + ZeroPad(t.minute, 2) + [':'] + ZeroPad(t.second, 2);
    var s := Format(t);
    assert s[..10] == date && s[10] == ' ' && s[11..] == time;
  }

  /** Distinct well-formed date-times with four-digit years render differently. */
  lemma FormatInjective(t: DateTime, u: DateTime)
    requires WellFormed(t) && 0 <= t.year <= 9999
    requires WellFormed(u) && 0 <= u.year <= 9999
    ensures Format(t) == Format(u) ==> t == u
  {
    FormatParseRoundTrip(t);
    FormatParseRoundTrip(u);
  }

  /** Below 100, two-digit zero padding writes the tens digit, then the units digit. */
  lemma ZeroPadTwo(n: nat)
    requires n < 100
    ensures ZeroPad(n, 2) == [DigitChar(n / 10), DigitChar(n % 10)]
  {
    if n >= 10 {
      assert NatToString(n) == NatToString(n / 10) + [DigitChar(n % 10)];
    }
  }

  lemma YearExample()
    ensures FormatYear(2025) == "2025"
  {
    assert NatToString(20) == [DigitChar(2), DigitChar(0)];
    assert NatToString(202) == NatToString(20) + [DigitChar(2)];
    assert NatToString(2025) == NatToString(202) + [DigitChar(5)];
  }

  /** The date half of the reference example. */
  lemma DateExample()
    ensures FormatDate(DateTime(2025, 1, 15, 14, 30, 0)) == "2025-01-15"
  {
    YearExample();
    ZeroPadTwo(1);
    ZeroPadTwo(15);
  }

  /** The time half of the reference example. */
  lemma TimeExample()
    ensures FormatTime(DateTime(2025, 1, 15, 14, 30, 0)) == "14:30:00"
  {
    ZeroPadTwo(14);
    ZeroPadTwo(30);
    ZeroPadTwo(0);
  }

  /** The instant used as the reference example, rendered with zero padding. */
  lemma FormatExample()
    ensures Format(DateTime(2025, 1, 15, 14, 30, 0)) == "2025-01-15 14:30:00"
  {
    DateExample();
    TimeExample();
  }
}
