/**
 * The two renderings of datetime.now() that the registry stores: the
 * second-resolution default version id and the ISO-8601 creation time.
 */
module Clock {

  /** A clock reading, field by field as Python's datetime holds it. */
  datatype DateTime = DateTime(year: nat, month: nat, day: nat, hour: nat, minute: nat, second: nat, microsecond: nat)

  /** The readings datetime.now() can give (four-digit years). */
  predicate Valid(t: DateTime) {
    && 1000 <= t.year <= 9999 && 1 <= t.month <= 12 && 1 <= t.day <= 31
    && t.hour < 24 && t.minute < 60 && t.second < 60 && t.microsecond < 1000000
  }

  /** The reading with its sub-second part dropped: what a second-resolution clock sees. */
  function ToSecond(t: DateTime): DateTime {
    t.(microsecond := 0)
  }

  function Pow10(n: nat): nat {
    if n == 0 then 1 else 10 * Pow10(n - 1)
  }

  predicate IsDigit(c: char) {
    '0' <= c <= '9'
  }

  function Digit(d: nat): (c: char)
    requires d < 10
    ensures IsDigit(c)
  {
    ('0' as int + d) as char
  }

  predicate AllDigits(s: string) {
    forall i :: 0 <= i < |s| ==> IsDigit(s[i])
  }

  /** The last `width` decimal digits of n, zero-padded on the left (%02d, %04d, %06d). */
  function Pad(n: nat, width: nat): (s: string)
    ensures |s| == width && AllDigits(s)
  {
    if width == 0 then [] else Pad(n / 10, width - 1) + [Digit(n % 10)]
  }

  /** Reads a run of decimal digits back as a number. */
  function ParseDigits(s: string): nat
    requires AllDigits(s)
  {
    if s == [] then 0 else 10 * ParseDigits(s[..|s| - 1]) + (s[|s| - 1] as int - '0' as int)
  }

  /** Zero-padding loses nothing for numbers that fit in the width. */
  lemma {:induction false} PadRoundTrip(n: nat, width: nat)
    requires n < Pow10(width)
    ensures ParseDigits(Pad(n, width)) == n
  {
    if width > 0 {
      assert n / 10 < Pow10(width - 1);
      PadRoundTrip(n / 10, width - 1);
      var s := Pad(n, width);
      assert s[..|s| - 1] == Pad(n / 10, width - 1);
    }
  }

  /** strftime("%Y%m%d_%H%M%S"): the version id given to a model saved without one. */
  function VersionStamp(t: DateTime): (s: string)
    ensures |s| == 15 && s[8] == '_'
    ensures AllDigits(s[..8]) && AllDigits(s[9..])
  {
    var date := Pad(t.year, 4) + Pad(t.month, 2) + Pad(t.day, 2);
    var time := Pad(t.hour, 2) + Pad(t.minute, 2) + Pad(t.second, 2);
    assert (date + "_" + time)[..8] == date && (date + "_" + time)[9..] == time;
    date + "_" + time
  }

  /** The three fields of a date or a time are recovered from their concatenation. */
  lemma SplitFields(a: string, b: string, c: string)
    requires |b| == 2 && |c| == 2
    ensures (a + b + c)[..|a|] == a && (a + b + c)[|a|..|a| + 2] == b && (a + b + c)[|a| + 2..] == c
  {
  }

  /** Reads a version stamp back as the second it names. */
  function ParseStamp(s: string): DateTime
    requires |s| == 15 && AllDigits(s[..8]) && AllDigits(s[9..])
  {
    var date := s[..8];
    var time := s[9..];
    DateTime(ParseDigits(date[..4]), ParseDigits(date[4..6]), ParseDigits(date[6..]),
             ParseDigits(time[..2]), ParseDigits(time[2..4]), ParseDigits(time[4..]), 0)
  }

  /** The version stamp records the reading exactly, down to the second. */
  lemma StampRoundTrip(t: DateTime)
    requires Valid(t)
    ensures ParseStamp(VersionStamp(t)) == ToSecond(t)
  {
    var date := Pad(t.year, 4) + Pad(t.month, 2) + Pad(t.day, 2);
    var time := Pad(t.hour, 2) + Pad(t.minute, 2) + Pad(t.second, 2);
    var s := VersionStamp(t);
    assert s[..8] == date && s[9..] == time;
    SplitFields(Pad(t.year, 4), Pad(t.month, 2), Pad(t.day, 2));
    SplitFields(Pad(t.hour, 2), Pad(t.minute, 2), Pad(t.second, 2));
    PadRoundTrip(t.year, 4);
    PadRoundTrip(t.month, 2);
    PadRoundTrip(t.day, 2);
    PadRoundTrip(t.hour, 2);
    PadRoundTrip(t.minute, 2);
    PadRoundTrip(t.second, 2);
  }

  /**
   * Two default version ids coincide exactly when the readings fall in the
   * same second: distinct seconds never collide, and two saves within one
   * second always do.
   */
  lemma StampCollidesIffSameSecond(a: DateTime, b: DateTime)
    requires Valid(a) && Valid(b)
    ensures VersionStamp(a) == VersionStamp(b) <==> ToSecond(a) == ToSecond(b)
  {
    if VersionStamp(a) == VersionStamp(b) {
      StampRoundTrip(a);
      StampRoundTrip(b);
    }
  }

  /** datetime.isoformat(): the fraction ".ffffff" is printed only when the microseconds are non-zero. */
  function IsoFormat(t: DateTime): (s: string)
    ensures |s| == if t.microsecond == 0 then 19 else 26
    ensures s[4] == '-' && s[7] == '-' && s[10] == 'T' && s[13] == ':' && s[16] == ':'
  {
    Pad(t.year, 4) + "-" + Pad(t.month, 2) + "-" + Pad(t.day, 2) + "T"
    + Pad(t.hour, 2) + ":" + Pad(t.minute, 2) + ":" + Pad(t.second, 2)
    + (if t.microsecond == 0 then "" else "." + Pad(t.microsecond, 6))
  }
}
