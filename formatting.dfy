/** Zero-padded decimal formatting of clock readings: the timestamp that
    prefixes every logged line, the name of a new log file, and the
    "YYYY-MM-DD HH:MM:SS" text the serial commands print and accept. */
module Formatting {

  /** A reading of the real-time clock, field by field. */
  datatype DateTime = DateTime(year: nat, month: nat, day: nat, hour: nat, minute: nat, second: nat)

  /** Every field fits the width its format gives it (4 digits for the year,
      2 for the others); a clock in normal operation always reads so. */
  predicate Fits(t: DateTime) {
    t.year < 10000 && t.month < 100 && t.day < 100 &&
    t.hour < 100 && t.minute < 100 && t.second < 100
  }

  function Pow10(k: nat): (r: nat)
    ensures r >= 1
  {
    if k == 0 then 1 else 10 * Pow10(k - 1)
  }

  predicate IsDigit(c: char) { '0' <= c <= '9' }

  predicate AllDigits(s: string) { forall i :: 0 <= i < |s| ==> IsDigit(s[i]) }

  function DigitChar(d: nat): (c: char)
    requires d < 10
    ensures IsDigit(c)
  {
    ('0' as int + d) as char
  }

  function DigitValue(c: char): (d: nat)
    requires IsDigit(c)
    ensures d < 10 && DigitChar(d) == c
  {
    c as int - '0' as int
  }

  /** The `width` lowest decimal digits of `n`, most significant first. */
  function Fixed(n: nat, width: nat): (s: string)
    ensures |s| == width && AllDigits(s)
  {
    if width == 0 then [] else Fixed(n / 10, width - 1) + [DigitChar(n % 10)]
  }

  /** How many digits `n` has when written without leading zeros. */
  function NumDigits(n: nat): (k: nat)
    ensures k >= 1
  {
    if n < 10 then 1 else 1 + NumDigits(n / 10)
  }

  /** `printf`'s "%0<width>d" of a non-negative value: all of its digits,
      left-filled with zeros up to `width`. */
  function Pad(n: nat, width: nat): (s: string)
    ensures AllDigits(s)
    ensures |s| == if NumDigits(n) > width then NumDigits(n) else width
  {
    Fixed(n, if NumDigits(n) > width then NumDigits(n) else width)
  }

  /** The value of a string of decimal digits (leading zeros allowed). */
  function ParseDecimal(s: string): nat
    requires AllDigits(s)
  {
    if s == [] then 0 else 10 * ParseDecimal(s[..|s| - 1]) + DigitValue(s[|s| - 1])
  }

  lemma {:induction false} ParseFixed(n: nat, width: nat)
    requires n < Pow10(width)
    ensures ParseDecimal(Fixed(n, width)) == n
  {
    if width > 0 {
      var s := Fixed(n, width);
      assert s[..|s| - 1] == Fixed(n / 10, width - 1);
      assert s[|s| - 1] == DigitChar(n % 10);
      assert DigitValue(DigitChar(n % 10)) == n % 10;
      assert Pow10(width) == 10 * Pow10(width - 1);
      assert n / 10 < Pow10(width - 1);
      ParseFixed(n / 10, width - 1);
      assert n == 10 * (n / 10) + n % 10;
    }
  }

  lemma {:induction false} FixedParse(s: string)
    requires AllDigits(s)
    ensures Fixed(ParseDecimal(s), |s|) == s
  {
    if s != [] {
      var init := s[..|s| - 1];
      var p := ParseDecimal(s);
      assert p / 10 == ParseDecimal(init) && p % 10 == DigitValue(s[|s| - 1]);
      FixedParse(init);
      assert s == init + [s[|s| - 1]];
    }
  }

  lemma {:induction false} NumDigitsBound(n: nat)
    ensures n < Pow10(NumDigits(n))
  {
    if n >= 10 {
      NumDigitsBound(n / 10);
    }
  }

  lemma {:induction false} Pow10Monotone(i: nat, j: nat)
    requires i <= j
    ensures Pow10(i) <= Pow10(j)
  {
    if i < j {
      Pow10Monotone(i, j - 1);
    }
  }

  /** Reading back a zero-padded number gives the number. */
  lemma ParsePad(n: nat, width: nat)
    ensures ParseDecimal(Pad(n, width)) == n
  {
    var w := if NumDigits(n) > width then NumDigits(n) else width;
    NumDigitsBound(n);
    Pow10Monotone(NumDigits(n), w);
    ParseFixed(n, w);
  }

  /** A value that fits its width is printed in exactly that many digits. */
  lemma PadFits(n: nat, width: nat)
    requires 1 <= width && n < Pow10(width)
    ensures Pad(n, width) == Fixed(n, width)
    ensures |Pad(n, width)| == width
  {
  }

  /** Printing the value of a digit field back at the field's width gives
      the field as it was written, leading zeros included. */
  lemma PadParse(s: string)
    requires AllDigits(s) && |s| >= 1
    ensures Pad(ParseDecimal(s), |s|) == s
  {
    FixedParse(s);
    FixedValueBound(s);
    PadFits(ParseDecimal(s), |s|);
  }

  lemma {:induction false} FixedValueBound(s: string)
    requires AllDigits(s)
    ensures ParseDecimal(s) < Pow10(|s|)
  {
    if s != [] {
      FixedValueBound(s[..|s| - 1]);
    }
  }

  const NoRtcTimestamp := "[NO_RTC]"
  const FallbackLogFile := "/usb_log.txt"

  /** getTimeString: "[DD.MM.YYYY HH:MM:SS]" from the clock, or the fixed
      marker when no clock was found at start-up. */
  function TimeString(rtcWorking: bool, now: DateTime): (r: string)
    ensures !rtcWorking ==> r == NoRtcTimestamp
  {
    if !rtcWorking then NoRtcTimestamp
    else
      "[" + Pad(now.day, 2) + "." + Pad(now.month, 2) + "." + Pad(now.year, 4) + " " +
      Pad(now.hour, 2) + ":" + Pad(now.minute, 2) + ":" + Pad(now.second, 2) + "]"
  }

  /** createLogFileName: "/log_YYYYMMDD_HHMMSS.txt" from the clock, or a
      fixed name when no clock was found at start-up. */
  function LogFileName(rtcWorking: bool, now: DateTime): (r: string)
    ensures !rtcWorking ==> r == FallbackLogFile
  {
    if !rtcWorking then FallbackLogFile
    else
      "/log_" + Pad(now.year, 4) + Pad(now.month, 2) + Pad(now.day, 2) + "_" +
      Pad(now.hour, 2) + Pad(now.minute, 2) + Pad(now.second, 2) + ".txt"
  }

  /** "%04d-%02d-%02d %02d:%02d:%02d": the text the clock commands print,
      and the form in which the host-side script sends a time to set. */
  function IsoText(t: DateTime): (r: string)
  {
    Pad(t.year, 4) + "-" + Pad(t.month, 2) + "-" + Pad(t.day, 2) + " " +
    Pad(t.hour, 2) + ":" + Pad(t.minute, 2) + ":" + Pad(t.second, 2)
  }

  lemma FitsPads(t: DateTime)
    requires Fits(t)
    ensures Pad(t.year, 4) == Fixed(t.year, 4) && Pad(t.month, 2) == Fixed(t.month, 2)
    ensures Pad(t.day, 2) == Fixed(t.day, 2) && Pad(t.hour, 2) == Fixed(t.hour, 2)
    ensures Pad(t.minute, 2) == Fixed(t.minute, 2) && Pad(t.second, 2) == Fixed(t.second, 2)
  {
    PadFits(t.year, 4);
    PadFits(t.month, 2);
    PadFits(t.day, 2);
    PadFits(t.hour, 2);
    PadFits(t.minute, 2);
    PadFits(t.second, 2);
  }

  /** A timestamp is 21 characters, "[DD.MM.YYYY HH:MM:SS]", and every
      field can be read back from its place. */
  lemma TimeStringReadBack(now: DateTime)
    requires Fits(now)
    ensures var r := TimeString(true, now);
      |r| == 21 && r[0] == '[' && r[3] == '.' && r[6] == '.' && r[11] == ' ' &&
      r[14] == ':' && r[17] == ':' && r[20] == ']' &&
      AllDigits(r[1..3]) && ParseDecimal(r[1..3]) == now.day &&
      AllDigits(r[4..6]) && ParseDecimal(r[4..6]) == now.month &&
      AllDigits(r[7..11]) && ParseDecimal(r[7..11]) == now.year &&
      AllDigits(r[12..14]) && ParseDecimal(r[12..14]) == now.hour &&
      AllDigits(r[15..17]) && ParseDecimal(r[15..17]) == now.minute &&
      AllDigits(r[18..20]) && ParseDecimal(r[18..20]) == now.second
  {
    FitsPads(now);
    TimeLayout(Pad(now.day, 2), Pad(now.month, 2), Pad(now.year, 4),
               Pad(now.hour, 2), Pad(now.minute, 2), Pad(now.second, 2));
    ParsePad(now.day, 2);
    ParsePad(now.month, 2);
    ParsePad(now.year, 4);
    ParsePad(now.hour, 2);
    ParsePad(now.minute, 2);
    ParsePad(now.second, 2);
  }

  /** With a clock, a timestamp never looks like the no-clock marker. */
  lemma TimeStringNotMarker(now: DateTime)
    ensures TimeString(true, now) != NoRtcTimestamp
  {
  }

  /** A log-file name is 24 characters, "/log_YYYYMMDD_HHMMSS.txt", and
      every field can be read back from its place. */
  lemma LogFileNameReadBack(now: DateTime)
    requires Fits(now)
    ensures var r := LogFileName(true, now);
      |r| == 24 && r[..5] == "/log_" && r[13] == '_' && r[20..] == ".txt" &&
      AllDigits(r[5..9]) && ParseDecimal(r[5..9]) == now.year &&
      AllDigits(r[9..11]) && ParseDecimal(r[9..11]) == now.month &&
      AllDigits(r[11..13]) && ParseDecimal(r[11..13]) == now.day &&
      AllDigits(r[14..16]) && ParseDecimal(r[14..16]) == now.hour &&
      AllDigits(r[16..18]) && ParseDecimal(r[16..18]) == now.minute &&
      AllDigits(r[18..20]) && ParseDecimal(r[18..20]) == now.second
  {
    FitsPads(now);
    FileNameLayout(Pad(now.year, 4), Pad(now.month, 2), Pad(now.day, 2),
                   Pad(now.hour, 2), Pad(now.minute, 2), Pad(now.second, 2));
    ParsePad(now.year, 4);
    ParsePad(now.month, 2);
    ParsePad(now.day, 2);
    ParsePad(now.hour, 2);
    ParsePad(now.minute, 2);
    ParsePad(now.second, 2);
  }

  /** Two clock readings that differ in any field give two different log
      files, so a new log never reuses the name of one started at another
      second. */
  lemma LogFileNameInjective(a: DateTime, b: DateTime)
    requires Fits(a) && Fits(b)
    requires LogFileName(true, a) == LogFileName(true, b)
    ensures a == b
  {
    LogFileNameReadBack(a);
    LogFileNameReadBack(b);
  }

  /** With a clock, a log-file name is never the no-clock fallback name. */
  lemma LogFileNameNotFallback(now: DateTime)
    ensures LogFileName(true, now) != FallbackLogFile
  {
  }

  /** The 19-character "YYYY-MM-DD HH:MM:SS" text, read back field by field
      at the fixed offsets the settime command uses. */
  lemma IsoTextReadBack(t: DateTime)
    requires Fits(t)
    ensures var r := IsoText(t);
      |r| == 19 && r[4] == '-' && r[7] == '-' && r[10] == ' ' && r[13] == ':' && r[16] == ':' &&
      AllDigits(r[0..4]) && ParseDecimal(r[0..4]) == t.year &&
      AllDigits(r[5..7]) && ParseDecimal(r[5..7]) == t.month &&
      AllDigits(r[8..10]) && ParseDecimal(r[8..10]) == t.day &&
      AllDigits(r[11..13]) && ParseDecimal(r[11..13]) == t.hour &&
      AllDigits(r[14..16]) && ParseDecimal(r[14..16]) == t.minute &&
      AllDigits(r[17..19]) && ParseDecimal(r[17..19]) == t.second
  {
    FitsPads(t);
    IsoLayout(Pad(t.year, 4), Pad(t.month, 2), Pad(t.day, 2),
              Pad(t.hour, 2), Pad(t.minute, 2), Pad(t.second, 2));
    ParsePad(t.year, 4);
    ParsePad(t.month, 2);
    ParsePad(t.day, 2);
    ParsePad(t.hour, 2);
    ParsePad(t.minute, 2);
    ParsePad(t.second, 2);
  }

  /** Where each field sits in "[DD.MM.YYYY HH:MM:SS]". */
  lemma TimeLayout(d: string, mo: string, y: string, h: string, mi: string, se: string)
    requires |d| == 2 && |mo| == 2 && |y| == 4 && |h| == 2 && |mi| == 2 && |se| == 2
    ensures var r := "[" + d + "." + mo + "." + y + " " + h + ":" + mi + ":" + se + "]";
      |r| == 21 && r[0] == '[' && r[3] == '.' && r[6] == '.' && r[11] == ' ' &&
      r[14] == ':' && r[17] == ':' && r[20] == ']' &&
      r[1..3] == d && r[4..6] == mo && r[7..11] == y &&
      r[12..14] == h && r[15..17] == mi && r[18..20] == se
  {
    var r := "[" + d + "." + mo + "." + y + " " + h + ":" + mi + ":" + se + "]";
    FieldAt(r, 1, d);
    FieldAt(r, 4, mo);
    FieldAt(r, 7, y);
    FieldAt(r, 12, h);
    FieldAt(r, 15, mi);
    FieldAt(r, 18, se);
  }

  /** Where each field sits in "/log_YYYYMMDD_HHMMSS.txt". */
  lemma FileNameLayout(y: string, mo: string, d: string, h: string, mi: string, se: string)
    requires |y| == 4 && |mo| == 2 && |d| == 2 && |h| == 2 && |mi| == 2 && |se| == 2
    ensures var r := "/log_" + y + mo + d + "_" + h + mi + se + ".txt";
      |r| == 24 && r[..5] == "/log_" && r[13] == '_' && r[20..] == ".txt" &&
      r[5..9] == y && r[9..11] == mo && r[11..13] == d &&
      r[14..16] == h && r[16..18] == mi && r[18..20] == se
  {
    var r := "/log_" + y + mo + d + "_" + h + mi + se + ".txt";
    FieldAt(r, 0, "/log_");
    FieldAt(r, 5, y);
    FieldAt(r, 9, mo);
    FieldAt(r, 11, d);
    FieldAt(r, 14, h);
    FieldAt(r, 16, mi);
    FieldAt(r, 18, se);
    FieldAt(r, 20, ".txt");
  }

  /** Where each field sits in "YYYY-MM-DD HH:MM:SS". */
  lemma IsoLayout(y: string, mo: string, d: string, h: string, mi: string, se: string)
    requires |y| == 4 && |mo| == 2 && |d| == 2 && |h| == 2 && |mi| == 2 && |se| == 2
    ensures var r := y + "-" + mo + "-" + d + " " + h + ":" + mi + ":" + se;
      |r| == 19 && r[4] == '-' && r[7] == '-' && r[10] == ' ' && r[13] == ':' && r[16] == ':' &&
      r[0..4] == y && r[5..7] == mo && r[8..10] == d &&
      r[11..13] == h && r[14..16] == mi && r[17..19] == se
  {
    var r := y + "-" + mo + "-" + d + " " + h + ":" + mi + ":" + se;
    FieldAt(r, 0, y);
    FieldAt(r, 5, mo);
    FieldAt(r, 8, d);
    FieldAt(r, 11, h);
    FieldAt(r, 14, mi);
    FieldAt(r, 17, se);
  }

  /** A field sits at offset `k` when each of its characters does. */
  lemma FieldAt(r: string, k: nat, f: string)
    requires k + |f| <= |r|
    requires forall i :: 0 <= i < |f| ==> r[k + i] == f[i]
    ensures r[k..k + |f|] == f
  {
  }
}
