/** The two readings of the local clock the handler makes: the date in the default caption
    (`strftime('%d/%m/%Y')`) and the timestamp in the download name (`strftime("%Y%m%d_%H%M%S")`).
    The clock itself is an input; each format has a parser proved to be its inverse. */
module Clock {
  import opened Options
  import opened Digits

  datatype DateTime = DateTime(year: nat, month: nat, day: nat, hour: nat, minute: nat, second: nat)

  /** The field ranges of a Python `datetime`. */
  predicate Valid(t: DateTime) {
    && 1 <= t.year <= 9999
    && 1 <= t.month <= 12
    && 1 <= t.day <= 31
    && t.hour < 24
    && t.minute < 60
    && t.second < 60
  }

  /** `t.strftime('%d/%m/%Y')`. */
  function DayMonthYear(t: DateTime): (s: string)
    ensures Valid(t) ==> |s| == 10 && s[2] == '/' && s[5] == '/'
  {
    ZeroPad(t.day, 2) + "/" + ZeroPad(t.month, 2) + "/" + ZeroPad(t.year, 4)
  }

  /** `t.strftime('%Y%m%d_%H%M%S')`. */
  function Timestamp(t: DateTime): (s: string)
    ensures Valid(t) ==> |s| == 15 && s[8] == '_'
  {
    ZeroPad(t.year, 4) + ZeroPad(t.month, 2) + ZeroPad(t.day, 2) + "_"
    + ZeroPad(t.hour, 2) + ZeroPad(t.minute, 2) + ZeroPad(t.second, 2)
  }

  /** Reads a `DD/MM/YYYY` date back as (day, month, year). */
  function ParseDayMonthYear(s: string): Option<(nat, nat, nat)> {
    if |s| == 10 && s[2] == '/' && s[5] == '/'
       && AllDigits(s[0..2]) && AllDigits(s[3..5]) && AllDigits(s[6..10])
    then Some((Value(s[0..2]), Value(s[3..5]), Value(s[6..10])))
    else None
  }

  /** Reads a `YYYYMMDD_HHMMSS` timestamp back. */
  function ParseTimestamp(s: string): Option<DateTime> {
    if |s| == 15 && s[8] == '_'
       && AllDigits(s[0..4]) && AllDigits(s[4..6]) && AllDigits(s[6..8])
       && AllDigits(s[9..11]) && AllDigits(s[11..13]) && AllDigits(s[13..15])
    then Some(DateTime(Value(s[0..4]), Value(s[4..6]), Value(s[6..8]),
                       Value(s[9..11]), Value(s[11..13]), Value(s[13..15])))
    else None
  }

  /** Where each field of an assembled `DD/MM/YYYY` string lies. */
  lemma DayMonthYearSlices(d: string, m: string, y: string)
    requires |d| == 2 && |m| == 2 && |y| == 4
    ensures var s := d + "/" + m + "/" + y;
            && |s| == 10 && s[2] == '/' && s[5] == '/'
            && s[0..2] == d && s[3..5] == m && s[6..10] == y
  {
  }

  /** Where each field of an assembled `YYYYMMDD_HHMMSS` string lies. */
  lemma TimestampSlices(y: string, mo: string, d: string, h: string, mi: string, se: string)
    requires |y| == 4 && |mo| == 2 && |d| == 2 && |h| == 2 && |mi| == 2 && |se| == 2
    ensures var s := y + mo + d + "_" + h + mi + se;
            && |s| == 15 && s[8] == '_'
            && s[0..4] == y && s[4..6] == mo && s[6..8] == d
            && s[9..11] == h && s[11..13] == mi && s[13..15] == se
  {
  }

  /** Parsing a `DD/MM/YYYY` string assembled from digit fields of the right widths reads
      each field back. */
  lemma ParseDayMonthYearFields(d: string, m: string, y: string)
    requires |d| == 2 && |m| == 2 && |y| == 4
    requires AllDigits(d) && AllDigits(m) && AllDigits(y)
    ensures ParseDayMonthYear(d + "/" + m + "/" + y) == Some((Value(d), Value(m), Value(y)))
  {
    DayMonthYearSlices(d, m, y);
  }

  /** Parsing a `YYYYMMDD_HHMMSS` string assembled from digit fields of the right widths reads
      each field back. */
  lemma ParseTimestampFields(y: string, mo: string, d: string, h: string, mi: string, se: string)
    requires |y| == 4 && |mo| == 2 && |d| == 2 && |h| == 2 && |mi| == 2 && |se| == 2
    requires AllDigits(y) && AllDigits(mo) && AllDigits(d)
    requires AllDigits(h) && AllDigits(mi) && AllDigits(se)
    ensures ParseTimestamp(y + mo + d + "_" + h + mi + se)
            == Some(DateTime(Value(y), Value(mo), Value(d), Value(h), Value(mi), Value(se)))
  {
    TimestampSlices(y, mo, d, h, mi, se);
  }

  lemma DayMonthYearRoundTrip(t: DateTime)
    requires Valid(t)
    ensures ParseDayMonthYear(DayMonthYear(t)) == Some((t.day, t.month, t.year))
  {
    ParseDayMonthYearFields(ZeroPad(t.day, 2), ZeroPad(t.month, 2), ZeroPad(t.year, 4));
    ZeroPadRoundTrip(t.day, 2);
    ZeroPadRoundTrip(t.month, 2);
    ZeroPadRoundTrip(t.year, 4);
  }

  lemma TimestampRoundTrip(t: DateTime)
    requires Valid(t)
    ensures ParseTimestamp(Timestamp(t)) == Some(t)
  {
    ParseTimestampFields(ZeroPad(t.year, 4), ZeroPad(t.month, 2), ZeroPad(t.day, 2),
                         ZeroPad(t.hour, 2), ZeroPad(t.minute, 2), ZeroPad(t.second, 2));
    ZeroPadRoundTrip(t.year, 4);
    ZeroPadRoundTrip(t.month, 2);
    ZeroPadRoundTrip(t.day, 2);
    ZeroPadRoundTrip(t.hour, 2);
    ZeroPadRoundTrip(t.minute, 2);
    ZeroPadRoundTrip(t.second, 2);
  }

}
