/** Candidate-time generation and the date/time formatting helpers (utils.ts). */
module Utils {
  import opened JsText
  import opened Types

  /** The closed window of seconds-of-day a candidate time is drawn from. */
  datatype Window = Window(start: nat, end: nat) {
    function Width(): nat {
      if end >= start then end - start + 1 else 0
    }
  }

  /** Check-in 08:13:00-08:29:59, check-out 17:33:00-18:14:59. */
  function WindowFor(k: CheckType): (w: Window)
    ensures w.start <= w.end < 86400
    ensures k == In ==> w.start == 29580 && w.end == 30599 && w.Width() == 1020
    ensures k == Out ==> w.start == 63180 && w.end == 65699 && w.Width() == 2520
  {
    if k == In then Window(8 * 3600 + 13 * 60, 8 * 3600 + 29 * 60 + 59)
    else Window(17 * 3600 + 33 * 60, 18 * 3600 + 14 * 60 + 59)
  }

  /** A second-of-day rendered as `HH:MM:SS`, each field padded to two digits. */
  function FormatClock(t: nat): string {
    Join([Pad2(t / 3600), Pad2(t % 3600 / 60), Pad2(t % 60)], ':')
  }

  /** The second-of-day a generated time stands for, given the random draw
      `offset` (the value of `Math.floor(Math.random() * width)`). */
  function DrawnSecond(k: CheckType, offset: nat): (t: nat)
    requires offset < WindowFor(k).Width()
    ensures WindowFor(k).start <= t <= WindowFor(k).end
    ensures t - WindowFor(k).start == offset
  {
    offset + WindowFor(k).start
  }

  /** `generateRandomTime` with its random draw made explicit. */
  function GenerateRandomTime(k: CheckType, offset: nat): string
    requires offset < WindowFor(k).Width()
  {
    FormatClock(DrawnSecond(k, offset))
  }

  /** `formatPayloadDate`: the pieces of `date` between dashes, reordered to day-month-year,
      then a space and the time. A piece that is missing renders as `undefined`,
      as JavaScript's template string does with it. */
  function FormatPayloadDate(date: string, time: string): string {
    var parts := Split(date, '-');
    var year := parts[0];
    var month := Piece(parts, 1);
    var day := Piece(parts, 2);
    day + "-" + month + "-" + year + " " + time
  }

  /** The i-th destructured piece, or what an absent one prints as. */
  function Piece(parts: seq<string>, i: nat): string {
    if i < |parts| then parts[i] else "undefined"
  }

  /** The formatting part of `getTodayString`: year unpadded, month index plus one and
      day of month both padded to two digits, joined by dashes. */
  function GetTodayString(year: int, monthIndex: int, day: int): string {
    IntToString(year) + "-" + Pad2(monthIndex + 1) + "-" + Pad2(day)
  }

  // ---------------------------------------------------------------------------
  // Properties

  /** The two decimal digits of a number below 100. */
  function TwoDigits(n: int): string
    requires 0 <= n < 100
  {
    [DigitChar(n / 10), DigitChar(n % 10)]
  }

  lemma ClockFieldBounds(t: nat)
    requires t < 86400
    ensures t / 3600 < 24 && t % 3600 / 60 < 60 && t % 60 < 60
  {
  }

  /** Below one day, the clock text is three two-digit fields joined by colons,
      with hours at most 23 and minutes and seconds at most 59. */
  lemma ClockShape(t: nat)
    requires t < 86400
    ensures t / 3600 < 24 && t % 3600 / 60 < 60 && t % 60 < 60
    ensures FormatClock(t) == TwoDigits(t / 3600) + [':'] + TwoDigits(t % 3600 / 60) + [':'] + TwoDigits(t % 60)
  {
    ClockFieldBounds(t);
    var h, m, x := t / 3600, t % 3600 / 60, t % 60;
    Pad2Digits(h);
    Pad2Digits(m);
    Pad2Digits(x);
    Join3(Pad2(h), Pad2(m), Pad2(x), ':');
  }

  /** Every draw lands in the kind's window, and the window is exactly the draws' range. */
  lemma DrawInWindow(k: CheckType, t: nat)
    requires WindowFor(k).start <= t <= WindowFor(k).end
    ensures exists offset: nat :: offset < WindowFor(k).Width() && DrawnSecond(k, offset) == t
  {
    var offset := t - WindowFor(k).start;
    assert DrawnSecond(k, offset) == t;
  }

  /** With exactly two dashes, `formatPayloadDate` copies day, month and year verbatim. */
  lemma FormatPayloadDateReorders(y: string, m: string, d: string, time: string)
    requires '-' !in y && '-' !in m && '-' !in d
    ensures FormatPayloadDate(y + "-" + m + "-" + d, time) == d + "-" + m + "-" + y + " " + time
  {
    SplitThree(y, m, d, '-');
  }

  /** A date without any dash lands in the year slot; month and day print as `undefined`. */
  lemma FormatPayloadDateWithoutDash(date: string, time: string)
    requires '-' !in date
    ensures FormatPayloadDate(date, time) == "undefined-undefined-" + date + " " + time
  {
    SplitNoSep(date, '-');
  }

  /** The output of `getTodayString` splits into year, month and day, and each piece reads
      back as the number it was made from. */
  lemma TodayStringParts(year: int, monthIndex: int, day: int)
    requires year >= 0 && 0 <= monthIndex <= 11 && 1 <= day <= 31
    ensures var parts := Split(GetTodayString(year, monthIndex, day), '-');
      parts == [IntToString(year), Pad2(monthIndex + 1), Pad2(day)] &&
      |parts[1]| == 2 && |parts[2]| == 2 &&
      NumberOf(parts[0]) == Num(year) &&
      NumberOf(parts[1]) == Num(monthIndex + 1) &&
      NumberOf(parts[2]) == Num(day)
  {
    NoDashInNumber(Num(year));
    NoDashInNumber(Num(monthIndex + 1));
    NoDashInNumber(Num(day));
    Pad2Digits(monthIndex + 1);
    Pad2Digits(day);
    SplitThree(IntToString(year), Pad2(monthIndex + 1), Pad2(day), '-');
  }

  lemma FourDigitYear(year: int)
    requires 1000 <= year <= 9999
    ensures |IntToString(year)| == 4
  {
    var a, b, c := year / 10, year / 100, year / 1000;
    assert 100 <= a && b == a / 10 && c == b / 10 && 1 <= c < 10;
    assert |NatToString(b)| == 2;
    assert |NatToString(a)| == 3;
  }

  lemma DateLayout(y: string, mm: string, dd: string)
    requires |y| == 4 && |mm| == 2 && |dd| == 2
    ensures var s := y + "-" + mm + "-" + dd;
      |s| == 10 && s[4] == '-' && s[7] == '-' && s[..4] == y && s[5..7] == mm && s[8..] == dd
  {
    var s := y + "-" + mm + "-" + dd;
    assert s[..4] == y;
    assert s[5..7] == mm;
    assert s[8..] == dd;
  }

  /** For a four-digit year the result is exactly `YYYY-MM-DD`. */
  lemma TodayStringShape(year: int, monthIndex: int, day: int)
    requires 1000 <= year <= 9999 && 0 <= monthIndex <= 11 && 1 <= day <= 31
    ensures var s := GetTodayString(year, monthIndex, day);
      |s| == 10 && s[4] == '-' && s[7] == '-' && AllDigits(s[..4]) &&
      s[5..7] == TwoDigits(monthIndex + 1) && s[8..] == TwoDigits(day)
  {
    FourDigitYear(year);
    IntToStringValue(year);
    var m := monthIndex + 1;
    Pad2Digits(m);
    Pad2Digits(day);
    var y := IntToString(year);
    var mm, dd := TwoDigits(m), TwoDigits(day);
    DateLayout(y, mm, dd);
  }
}
