/**
 * Commit creation times. The generator cuts a commit timestamp at its first
 * '+' and parses the rest with `datetime.strptime(..., "%Y-%m-%dT%H:%M:%S.%f")`.
 * This module models the fixed-width form of that format (four-digit year,
 * two-digit month, day, hour, minute and second, one to six fraction digits),
 * with the calendar checks `datetime` applies, and proves that it is the
 * inverse of writing a valid date-time in that layout.
 */
module Timestamps {
  import opened Wrappers
  import opened Text

  /** A naive `datetime.datetime`: no time zone. */
  datatype DateTime = DateTime(
    year: int, month: int, day: int,
    hour: int, minute: int, second: int, microsecond: int)

  predicate IsLeapYear(y: int)
  {
    y % 4 == 0 && (y % 100 != 0 || y % 400 == 0)
  }

  function DaysInMonth(y: int, m: int): (d: int)
    requires 1 <= m <= 12
    ensures 28 <= d <= 31
  {
    if m == 2 then (if IsLeapYear(y) then 29 else 28)
    else if m == 4 || m == 6 || m == 9 || m == 11 then 30
    else 31
  }

  /** The values `datetime.datetime` accepts. */
  predicate Valid(dt: DateTime)
  {
    && 1 <= dt.year <= 9999
    && 1 <= dt.month <= 12
    && 1 <= dt.day <= DaysInMonth(dt.year, dt.month)
    && 0 <= dt.hour <= 23
    && 0 <= dt.minute <= 59
    && 0 <= dt.second <= 59
    && 0 <= dt.microsecond <= 999999
  }

  /**
   * The shape "YYYY-MM-DDTHH:MM:SS.f" with one to six fraction digits. The
   * 'T' may be lower case: the format is matched ignoring case.
   */
  predicate WellFormed(s: string)
  {
    && 21 <= |s| <= 26
    && AllDigits(s[0..4]) && s[4] == '-'
    && AllDigits(s[5..7]) && s[7] == '-'
    && AllDigits(s[8..10]) && (s[10] == 'T' || s[10] == 't')
    && AllDigits(s[11..13]) && s[13] == ':'
    && AllDigits(s[14..16]) && s[16] == ':'
    && AllDigits(s[17..19]) && s[19] == '.'
    && AllDigits(s[20..])
  }

  /** The numeric fields of a well-formed string; the fraction is padded on the right to microseconds. */
  function Fields(s: string): DateTime
    requires WellFormed(s)
  {
    DateTime(
      DigitsValue(s[0..4]), DigitsValue(s[5..7]), DigitsValue(s[8..10]),
      DigitsValue(s[11..13]), DigitsValue(s[14..16]), DigitsValue(s[17..19]),
      DigitsValue(s[20..] + Zeros(26 - |s|)))
  }

  /**
   * `datetime.strptime(s, "%Y-%m-%dT%H:%M:%S.%f")` on fixed-width input:
   * `None` where Python raises `ValueError`.
   */
  function ParseTimestamp(s: string): (r: Option<DateTime>)
    ensures r.Some? ==> Valid(r.value)
    ensures r.Some? ==> WellFormed(s)
  {
    if WellFormed(s) && Valid(Fields(s)) then Some(Fields(s)) else None
  }

  /** The date half of the layout, "YYYY-MM-DD". */
  function DatePart(dt: DateTime): (s: string)
    requires Valid(dt)
    ensures |s| == 10
  {
    ZeroPad(dt.year, 4) + "-" + ZeroPad(dt.month, 2) + "-" + ZeroPad(dt.day, 2)
  }

  /** The time half of the layout, "HH:MM:SS.ffffff". */
  function TimePart(dt: DateTime): (s: string)
    requires Valid(dt)
    ensures |s| == 15
  {
    ZeroPad(dt.hour, 2) + ":" + ZeroPad(dt.minute, 2) + ":" + ZeroPad(dt.second, 2) + "." + ZeroPad(dt.microsecond, 6)
  }

  /** `dt.strftime("%Y-%m-%dT%H:%M:%S.%f")`: the layout the parser reads, with six fraction digits. */
  function FormatTimestamp(dt: DateTime): (s: string)
    requires Valid(dt)
    ensures |s| == 26
  {
    DatePart(dt) + "T" + TimePart(dt)
  }

  lemma DateSlices(dt: DateTime)
    requires Valid(dt)
    ensures var s := DatePart(dt);
      && s[0..4] == ZeroPad(dt.year, 4) && s[4] == '-'
      && s[5..7] == ZeroPad(dt.month, 2) && s[7] == '-'
      && s[8..10] == ZeroPad(dt.day, 2)
  {
  }

  lemma TimeSlices(dt: DateTime)
    requires Valid(dt)
    ensures var s := TimePart(dt);
      && s[0..2] == ZeroPad(dt.hour, 2) && s[2] == ':'
      && s[3..5] == ZeroPad(dt.minute, 2) && s[5] == ':'
      && s[6..8] == ZeroPad(dt.second, 2) && s[8] == '.'
      && s[9..] == ZeroPad(dt.microsecond, 6)
  {
  }

  /** The slices the parser reads out of a formatted date-time are the padded fields. */
  lemma FormatSlices(dt: DateTime)
    requires Valid(dt)
    ensures var s := FormatTimestamp(dt);
      && s[0..4] == ZeroPad(dt.year, 4) && s[4] == '-'
      && s[5..7] == ZeroPad(dt.month, 2) && s[7] == '-'
      && s[8..10] == ZeroPad(dt.day, 2) && s[10] == 'T'
      && s[11..13] == ZeroPad(dt.hour, 2) && s[13] == ':'
      && s[14..16] == ZeroPad(dt.minute, 2) && s[16] == ':'
      && s[17..19] == ZeroPad(dt.second, 2) && s[19] == '.'
      && s[20..] == ZeroPad(dt.microsecond, 6)
  {
    var s, d, t := FormatTimestamp(dt), DatePart(dt), TimePart(dt);
    DateSlices(dt);
    TimeSlices(dt);
    assert s[..10] == d && s[11..] == t;
    assert s[0..4] == d[0..4] && s[5..7] == d[5..7] && s[8..10] == d[8..10];
    assert s[11..13] == t[0..2] && s[14..16] == t[3..5] && s[17..19] == t[6..8] && s[20..] == t[9..];
  }

  /** Every valid date-time written in the layout parses back to itself. */
  lemma ParseFormatRoundTrip(dt: DateTime)
    requires Valid(dt)
    ensures ParseTimestamp(FormatTimestamp(dt)) == Some(dt)
  {
    var s := FormatTimestamp(dt);
    FormatSlices(dt);
    assert WellFormed(s);
    assert s[20..] + Zeros(0) == s[20..];
    ZeroPadRoundTrip(dt.year, 4);
    ZeroPadRoundTrip(dt.month, 2);
    ZeroPadRoundTrip(dt.day, 2);
    ZeroPadRoundTrip(dt.hour, 2);
    ZeroPadRoundTrip(dt.minute, 2);
    ZeroPadRoundTrip(dt.second, 2);
    ZeroPadRoundTrip(dt.microsecond, 6);
    assert Fields(s) == dt;
  }

  /** The date half of a well-formed string is how its parsed date is written. */
  lemma ParsedDate(s: string)
    requires WellFormed(s) && Valid(Fields(s))
    ensures DatePart(Fields(s)) == s[..10]
  {
    DigitsZeroPadRoundTrip(s[0..4]);
    DigitsZeroPadRoundTrip(s[5..7]);
    DigitsZeroPadRoundTrip(s[8..10]);
    assert s[..10] == s[0..4] + "-" + s[5..7] + "-" + s[8..10];
  }

  /** With six fraction digits, the time half of a well-formed string is how its parsed time is written. */
  lemma ParsedTime(s: string)
    requires WellFormed(s) && Valid(Fields(s)) && |s| == 26
    ensures TimePart(Fields(s)) == s[11..]
  {
    DigitsZeroPadRoundTrip(s[11..13]);
    DigitsZeroPadRoundTrip(s[14..16]);
    DigitsZeroPadRoundTrip(s[17..19]);
    assert s[20..] + Zeros(0) == s[20..];
    DigitsZeroPadRoundTrip(s[20..]);
    var t := s[11..];
    assert t[..9] == s[11..13] + ":" + s[14..16] + ":" + s[17..19] + ".";
    assert t == t[..9] + s[20..];
  }

  /**
   * Conversely, a string that parses and already has the canonical shape
   * (upper-case 'T', six fraction digits) is exactly how its value is written.
   */
  lemma FormatParseRoundTrip(s: string)
    requires ParseTimestamp(s).Some? && |s| == 26 && s[10] == 'T'
    ensures FormatTimestamp(ParseTimestamp(s).value) == s
  {
    ParsedDate(s);
    ParsedTime(s);
    assert s == s[..10] + "T" + s[11..];
  }

  /** The fraction field of the layout is the microseconds in six digits. */
  lemma FractionSlice(dt: DateTime)
    requires Valid(dt)
    ensures FormatTimestamp(dt)[20..] == ZeroPad(dt.microsecond, 6)
  {
    TimeSlices(dt);
    assert FormatTimestamp(dt)[20..] == TimePart(dt)[9..];
  }

  /** Fraction digits that are trailing zeros can be left out: the parsed fields stay the same. */
  lemma TrailingZerosKeepFields(s: string, n: nat)
    requires WellFormed(s) && 21 <= n <= |s| && s[n..] == Zeros(|s| - n)
    ensures WellFormed(s[..n]) && Fields(s[..n]) == Fields(s)
  {
    var t := s[..n];
    assert t[0..4] == s[0..4] && t[5..7] == s[5..7] && t[8..10] == s[8..10];
    assert t[11..13] == s[11..13] && t[14..16] == s[14..16] && t[17..19] == s[17..19];
    assert s[20..] == t[20..] + s[n..];
    assert Zeros(|s| - n) + Zeros(26 - |s|) == Zeros(26 - n);
    assert t[20..] + Zeros(26 - n) == s[20..] + Zeros(26 - |s|);
  }

  /**
   * Shorter fractions: a date-time whose microseconds are a multiple of
   * 10^(6-k), written with only the first `k` fraction digits (so that
   * 12.5 seconds is "12.5" rather than "12.500000"), parses back to itself.
   */
  lemma ShortFractionRoundTrip(dt: DateTime, k: nat)
    requires Valid(dt) && 1 <= k <= 6 && dt.microsecond % Pow10(6 - k) == 0
    ensures ParseTimestamp(FormatTimestamp(dt)[..20 + k]) == Some(dt)
  {
    var s := FormatTimestamp(dt);
    FractionSlice(dt);
    ZeroPadOfMultiple(dt.microsecond, k, 6 - k);
    assert s[20 + k..] == Zeros(6 - k) by {
      assert s[20 + k..] == s[20..][k..];
    }
    ParseFormatRoundTrip(dt);
    TrailingZerosKeepFields(s, 20 + k);
  }

  /**
   * `%f` reads one to six digits as a fraction of a second: the digits are
   * padded on the right, so ".5" is 500000 microseconds.
   */
  lemma FractionIsPaddedOnTheRight(s: string)
    requires ParseTimestamp(s).Some?
    ensures AllDigits(s[20..])
    ensures ParseTimestamp(s).value.microsecond == DigitsValue(s[20..]) * Pow10(26 - |s|)
  {
    DigitsValueShift(s[20..], 26 - |s|);
  }

  /**
   * `re.sub(r'\+.*', '', raw)`: the commit time with everything from a '+'
   * to the end of its line removed.
   */
  function StripOffset(raw: string): string
  {
    ReplaceToLineEnd(raw, "+", "")
  }

  /** On one line, the offset strip keeps exactly the text before the first '+'. */
  lemma StripOffsetKeepsPrefix(raw: string)
    requires '\n' !in raw
    ensures StripOffset(raw) == match FirstIndex(raw, "+") case None => raw case Some(i) => raw[..i]
    ensures '+' !in StripOffset(raw)
  {
    ReplaceToLineEndOnOneLine(raw, "+", "");
    match FirstIndex(raw, "+")
    case None =>
    case Some(i) =>
      assert raw[..i] + "" == raw[..i];
  }

  /** The creation time of a commit: its timestamp without offset, parsed. */
  function ParseCreatedAt(raw: string): Option<DateTime>
  {
    ParseTimestamp(StripOffset(raw))
  }

  /** A formatted date-time is digits and the separators "-T:." only. */
  lemma FormatHasNoOffsetOrBreak(dt: DateTime)
    requires Valid(dt)
    ensures '+' !in FormatTimestamp(dt) && '\n' !in FormatTimestamp(dt)
  {
    var base := FormatTimestamp(dt);
    FormatSlices(dt);
    forall k | 0 <= k < |base| ensures base[k] != '+' && base[k] != '\n' {
      if k < 4 { assert base[k] == base[0..4][k]; }
      else if 5 <= k < 7 { assert base[k] == base[5..7][k - 5]; }
      else if 8 <= k < 10 { assert base[k] == base[8..10][k - 8]; }
      else if 11 <= k < 13 { assert base[k] == base[11..13][k - 11]; }
      else if 14 <= k < 16 { assert base[k] == base[14..16][k - 14]; }
      else if 17 <= k < 19 { assert base[k] == base[17..19][k - 17]; }
      else if 20 <= k { assert base[k] == base[20..][k - 20]; }
    }
  }

  /**
   * A commit time written as the service writes it, "<date-time>+<offset>",
   * parses to the date-time and nothing of the offset: "+01:00" and "+00:00"
   * give the same value.
   */
  lemma PositiveOffsetIsDiscarded(dt: DateTime, offset: string)
    requires Valid(dt) && '\n' !in offset
    ensures ParseCreatedAt(FormatTimestamp(dt) + "+" + offset) == Some(dt)
  {
    var base := FormatTimestamp(dt);
    var raw := base + "+" + offset;
    FormatHasNoOffsetOrBreak(dt);
    assert '\n' !in raw by {
      forall k | 0 <= k < |raw| ensures raw[k] != '\n' {
        if k < |base| { assert raw[k] == base[k]; }
        else if k > |base| { assert raw[k] == offset[k - |base| - 1]; }
      }
    }
    assert OccursAt(raw, "+", |base|);
    forall j | 0 <= j < |base| ensures !OccursAt(raw, "+", j) {
      assert raw[j] == base[j];
    }
    assert FirstIndex(raw, "+") == Some(|base|);
    StripOffsetKeepsPrefix(raw);
    assert raw[..|base|] == base;
    ParseFormatRoundTrip(dt);
  }

  /**
   * Only '+' offsets are cut: a time with a negative offset keeps it and
   * does not parse.
   */
  lemma NegativeOffsetDoesNotParse(dt: DateTime, offset: string)
    requires Valid(dt) && '+' !in offset && '\n' !in offset
    ensures ParseCreatedAt(FormatTimestamp(dt) + "-" + offset) == None
  {
    var base := FormatTimestamp(dt);
    var raw := base + "-" + offset;
    FormatHasNoOffsetOrBreak(dt);
    assert '\n' !in raw && '+' !in raw by {
      forall k | 0 <= k < |raw| ensures raw[k] != '\n' && raw[k] != '+' {
        if k < |base| { assert raw[k] == base[k]; }
        else if k > |base| { assert raw[k] == offset[k - |base| - 1]; }
      }
    }
    StripOffsetKeepsPrefix(raw);
  }
}
