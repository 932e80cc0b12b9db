/** The two clock-time helpers of the frontend. `formatTime` turns a stored 24-hour
    "HH:MM" into the 12-hour form shown in tables ("h:MM AM"); `convertTo24Hour` turns a
    12-hour time back into "HH:MM" for the edit form. The admin page's `formatTime`
    reads the hour with `parseInt(hours, 10)`, the bookings page's with `parseInt(hours)`,
    which also reads a `0x` prefix; the radix is a parameter. */
module TimeFormat {
  import opened Common
  import opened JsString

  predicate IsMeridiemLetter(c: char) {
    c == 'A' || c == 'a' || c == 'P' || c == 'p'
  }

  predicate IsM(c: char) {
    c == 'M' || c == 'm'
  }

  /** `/AM|PM/i.test(s)`: "am" or "pm" in any case somewhere in `s`. */
  predicate HasMeridiem(s: string) {
    exists i :: 0 <= i < |s| - 1 && IsMeridiemLetter(s[i]) && IsM(s[i + 1])
  }

  /** A string of digits and colons contains no "am" or "pm". */
  lemma NoMeridiemInClockDigits(s: string)
    requires forall i :: 0 <= i < |s| ==> IsDigit(s[i]) || s[i] == ':'
    ensures !HasMeridiem(s)
  {
  }

  /** `formatTime` (the radix says which page's version). */
  function FormatTime(s: string, radix: Radix): (r: string)
    ensures s == "" ==> r == ""
    ensures s != "" && HasMeridiem(s) ==> r == s
  {
    if s == "" then ""
    else if HasMeridiem(s) then s
    else
      var pieces := Split(s, ':');
      // `const [hours, minutes] = ...`: a missing piece renders as "undefined".
      var minutes := if |pieces| >= 2 then pieces[1] else "undefined";
      match ParseInt(pieces[0], radix)
      case None => "NaN:" + minutes + " AM"
      case Some(hour) =>
        var period := if hour >= 12 then "PM" else "AM";
        var shown := if hour == 0 then 12 else if hour > 12 then hour - 12 else hour;
        IntToString(shown) + ":" + minutes + " " + period
  }

  /** The hour a 24-hour clock value shows on a 12-hour clock, and its half of the day. */
  function TwelveHour(hour: nat): (h: nat)
    ensures hour <= 23 ==> 1 <= h <= 12
  {
    if hour == 0 then 12 else if hour > 12 then hour - 12 else hour
  }

  function Period(hour: nat): string {
    if hour >= 12 then "PM" else "AM"
  }

  lemma SplitPair(a: string, b: string)
    requires ':' !in a && ':' !in b
    ensures Split(a + ":" + b, ':') == [a, b]
  {
    assert a + ":" + b == a + [':'] + b;
    SplitAtSeparator(a, b, ':');
    SplitNoSeparator(b, ':');
  }

  /** On "HH:MM" both versions show the hour as a 12-hour clock does: 0 becomes 12 AM, 1
      to 11 stay AM, 12 is 12 PM, and later hours lose 12 and are PM; the minutes are
      copied as they are. */
  lemma FormatClockTime(t: string, radix: Radix)
    requires |t| == 5 && IsDigit(t[0]) && IsDigit(t[1]) && t[2] == ':' && IsDigit(t[3]) && IsDigit(t[4])
    ensures var hour := DigitsValue(t[..2]);
      FormatTime(t, radix) == NatToString(TwelveHour(hour)) + ":" + t[3..] + " " + Period(hour)
  {
    var hh, mm := t[..2], t[3..];
    assert t == hh + ":" + mm;
    assert !HasMeridiem(hh + ":" + mm) by { NoMeridiemInClockDigits(t); }
    FormatDigitPair(hh, mm, radix);
  }

  lemma FormatDigitPair(hh: string, mm: string, radix: Radix)
    requires |hh| == 2 && AllDigits(hh) && AllDigits(mm)
    requires !HasMeridiem(hh + ":" + mm)
    ensures var hour := DigitsValue(hh);
      FormatTime(hh + ":" + mm, radix) == NatToString(TwelveHour(hour)) + ":" + mm + " " + Period(hour)
  {
    assert ':' !in hh && ':' !in mm by {
      assert forall i :: 0 <= i < |hh| ==> IsDigit(hh[i]);
      assert forall i :: 0 <= i < |mm| ==> IsDigit(mm[i]);
    }
    assert ParseInt(hh, radix) == Some(DigitsValue(hh)) by { ParseIntOfDigits(hh, radix); }
    FormatPieces(hh, mm, radix, DigitsValue(hh));
  }

  // ----------------------------------------------------------- convertTo24Hour

  /** `/^\d{2}:\d{2}$/`. */
  predicate IsClockShape(s: string) {
    |s| == 5 && IsDigit(s[0]) && IsDigit(s[1]) && s[2] == ':' && IsDigit(s[3]) && IsDigit(s[4])
  }

  datatype Meridiem = AM | PM

  /** The captured groups of `/(\d+):(\d+)\s*(AM|PM)/i`, the hours already read with
      `parseInt(hours, 10)`. */
  datatype ClockMatch = ClockMatch(hours: nat, minutes: string, period: Meridiem)

  /** The match starting exactly at the start of `s`. Each of `\d+`, `\d+` and `\s*` can
      only succeed by taking its longest run (a shorter run would leave a digit or a space
      where the next part needs ':' or a letter), so no backtracking is needed. */
  function MatchHere(s: string): Option<ClockMatch> {
    var h := LeadingDigits(s);
    if h == [] || |h| == |s| || s[|h|] != ':' then None
    else MatchMinutes(DigitsValue(h), s[|h| + 1..])
  }

  /** The rest of the match once the hour digits and ':' are taken. */
  function MatchMinutes(hours: nat, t: string): Option<ClockMatch> {
    var mins := LeadingDigits(t);
    if mins == [] then None
    else MatchPeriod(hours, mins, TrimStart(t[|mins|..]))
  }

  /** The period once the spaces are skipped. */
  function MatchPeriod(hours: nat, minutes: string, u: string): Option<ClockMatch> {
    if |u| >= 2 && IsMeridiemLetter(u[0]) && IsM(u[1]) then
      Some(ClockMatch(hours, minutes, if u[0] == 'A' || u[0] == 'a' then AM else PM))
    else None
  }

  /** `s.match(...)`: the leftmost match. */
  function FindClock(s: string): Option<ClockMatch>
    decreases |s|
  {
    if s == [] then None
    else if MatchHere(s).Some? then MatchHere(s)
    else FindClock(s[1..])
  }

  /** The 24-hour value of a 12-hour reading. */
  function TwentyFourHour(hours: nat, period: Meridiem): nat {
    if period == PM && hours != 12 then hours + 12
    else if period == AM && hours == 12 then 0
    else hours
  }

  /** `convertTo24Hour`. */
  function ConvertTo24Hour(s: string): (r: string)
    ensures IsClockShape(s) ==> r == s
    ensures !IsClockShape(s) && FindClock(s).None? ==> r == s
  {
    if IsClockShape(s) then s
    else
      match FindClock(s)
      case None => s
      case Some(ClockMatch(hours, m, period)) =>
        PadStart2(NatToString(TwentyFourHour(hours, period))) + ":" + m
  }

  lemma {:induction false} LeadingDigitsOf(d: string, rest: string)
    requires AllDigits(d)
    requires rest == [] || !IsDigit(rest[0])
    ensures LeadingDigits(d + rest) == d
  {
    if d == [] {
      assert d + rest == rest;
    } else {
      assert (d + rest)[1..] == d[1..] + rest;
      LeadingDigitsOf(d[1..], rest);
      assert [d[0]] + d[1..] == d;
    }
  }

  /** The 12-hour text "h:MM AM" or "h:MM PM" with one or two hour digits. */
  function TwelveHourText(h: nat, minutes: string, period: Meridiem): string {
    NatToString(h) + ":" + minutes + " " + PeriodText(period)
  }

  function PeriodText(period: Meridiem): string {
    if period == AM then "AM" else "PM"
  }

  /** The match at the start of "<digits>:<digits> AM" (or PM) captures both runs of
      digits and the period. */
  lemma {:induction false} PeriodAfterSpace(hd: nat, minutes: string, period: Meridiem)
    ensures MatchPeriod(hd, minutes, TrimStart(" " + PeriodText(period)))
            == Some(ClockMatch(hd, minutes, period))
  {
    var p := PeriodText(period);
    assert (" " + p)[1..] == p;
    assert !IsJsSpace(p[0]);
    assert TrimStart(" " + p) == p;
  }

  lemma {:induction false} MinutesThenRest(hd: nat, minutes: string, tail: string)
    requires minutes != [] && AllDigits(minutes)
    requires tail == [] || !IsDigit(tail[0])
    ensures MatchMinutes(hd, minutes + tail) == MatchPeriod(hd, minutes, TrimStart(tail))
  {
    LeadingDigitsOf(minutes, tail);
    assert (minutes + tail)[|minutes|..] == tail;
  }

  lemma {:induction false} HoursThenRest(hd: string, rest: string)
    requires hd != [] && AllDigits(hd)
    requires rest != [] && rest[0] == ':'
    ensures MatchHere(hd + rest) == MatchMinutes(DigitsValue(hd), rest[1..])
  {
    var s := hd + rest;
    assert LeadingDigits(s) == hd by {
      LeadingDigitsOf(hd, rest);
    }
    assert s[|hd| + 1..] == rest[1..];
  }

  lemma {:induction false} MatchHereClockText(hd: string, minutes: string, period: Meridiem)
    requires hd != [] && AllDigits(hd) && minutes != [] && AllDigits(minutes)
    ensures MatchHere(hd + ":" + minutes + " " + PeriodText(period))
            == Some(ClockMatch(DigitsValue(hd), minutes, period))
  {
    var tail := " " + PeriodText(period);
    var rest := ":" + (minutes + tail);
    assert hd + ":" + minutes + " " + PeriodText(period) == hd + rest;
    HoursThenRest(hd, rest);
    assert rest[1..] == minutes + tail;
    MinutesThenRest(DigitsValue(hd), minutes, tail);
    PeriodAfterSpace(DigitsValue(hd), minutes, period);
  }

  lemma MatchTwelveHourText(h: nat, minutes: string, period: Meridiem)
    requires minutes != [] && AllDigits(minutes)
    ensures FindClock(TwelveHourText(h, minutes, period)) == Some(ClockMatch(h, minutes, period))
  {
    MatchHereClockText(NatToString(h), minutes, period);
    assert TwelveHourText(h, minutes, period) == NatToString(h) + ":" + minutes + " " + PeriodText(period);
  }

  /** On the 12-hour form it shows, `convertTo24Hour` adds 12 to a PM hour other than
      12, turns 12 AM into 0, and zero-pads the hour to two digits; the minutes are
      copied as they are. */
  lemma ConvertTwelveHour(h: nat, minutes: string, period: Meridiem)
    requires minutes != [] && AllDigits(minutes)
    ensures ConvertTo24Hour(TwelveHourText(h, minutes, period))
            == PadStart2(NatToString(TwentyFourHour(h, period))) + ":" + minutes
  {
    var s := TwelveHourText(h, minutes, period);
    assert |s| > 5;
    MatchTwelveHourText(h, minutes, period);
  }

  /** Round trip: a stored "HH:MM" with HH from 00 to 23, shown with either
      `formatTime` and read back with `convertTo24Hour`, is the original time. */
  lemma ClockRoundTrip(t: string, radix: Radix)
    requires IsClockShape(t) && DigitsValue(t[..2]) <= 23
    ensures ConvertTo24Hour(FormatTime(t, radix)) == t
  {
    var hh, mm := t[..2], t[3..];
    var hour := DigitsValue(hh);
    assert AllDigits(hh) && AllDigits(mm);
    var period := if hour >= 12 then PM else AM;
    assert FormatTime(t, radix) == TwelveHourText(TwelveHour(hour), mm, period) by {
      FormatClockTime(t, radix);
    }
    assert ConvertTo24Hour(TwelveHourText(TwelveHour(hour), mm, period))
           == PadStart2(NatToString(hour)) + ":" + mm by {
      ConvertTwelveHour(TwelveHour(hour), mm, period);
      TwelveHourBack(hour);
    }
    assert PadStart2(NatToString(hour)) == hh by {
      TwoDigitsRoundTrip(hh);
    }
    ClockPieces(t);
  }

  /** A 24-hour value turned into a 12-hour one with its period converts back to itself. */
  lemma TwelveHourBack(hour: nat)
    requires hour <= 23
    ensures TwentyFourHour(TwelveHour(hour), if hour >= 12 then PM else AM) == hour
  {
  }

  lemma ClockPieces(t: string)
    requires |t| == 5 && t[2] == ':'
    ensures t == t[..2] + ":" + t[3..]
  {
  }

  /** The other direction: a 12-hour text with hour 1 to 12 and two-digit minutes, read
      as "HH:MM" and shown again, is the original text. */
  lemma {:induction false} TwelveHourRoundTrip(h: nat, minutes: string, period: Meridiem, radix: Radix)
    requires 1 <= h <= 12 && |minutes| == 2 && AllDigits(minutes)
    ensures FormatTime(ConvertTo24Hour(TwelveHourText(h, minutes, period)), radix)
            == TwelveHourText(h, minutes, period)
  {
    var x := TwelveHourText(h, minutes, period);
    var hour := TwentyFourHour(h, period);
    var hh := PadStart2(NatToString(hour));
    var t := hh + ":" + minutes;
    assert ConvertTo24Hour(x) == t by {
      ConvertTwelveHour(h, minutes, period);
    }
    assert FormatTime(t, radix) == x by {
      PaddedHour(hour);
      ClockText(hh, minutes);
      FormatClockTime(t, radix);
      assert TwelveHour(hour) == h && Period(hour) == PeriodText(period);
    }
  }

  lemma {:induction false} ClockText(hh: string, mm: string)
    requires |hh| == 2 && AllDigits(hh) && |mm| == 2 && AllDigits(mm)
    ensures var t := hh + ":" + mm;
      IsClockShape(t) && t[..2] == hh && t[3..] == mm
  {
    var t := hh + ":" + mm;
    assert t[0] == hh[0] && t[1] == hh[1] && t[3] == mm[0] && t[4] == mm[1];
  }

  /** An hour below 100, zero-padded, is two digits that read back as the hour. */
  lemma PaddedHour(hour: nat)
    requires hour < 100
    ensures var hh := PadStart2(NatToString(hour));
      |hh| == 2 && AllDigits(hh) && DigitsValue(hh) == hour
  {
    var d := NatToString(hour);
    assert |d| <= 2 by {
      if hour >= 10 {
        assert |NatToString(hour / 10)| == 1;
      }
    }
    PadKeepsValue(d);
  }

  /** Zero padding does not change the value of a string of at most two digits. */
  lemma PadKeepsValue(s: string)
    requires 1 <= |s| <= 2 && AllDigits(s)
    ensures |PadStart2(s)| == 2 && AllDigits(PadStart2(s)) && DigitsValue(PadStart2(s)) == DigitsValue(s)
  {
    var p := PadStart2(s);
    if |s| == 1 {
      assert p == ['0'] + s;
      assert p[..1] == ['0'] && p[..1][..0] == [];
      assert DigitsValue(p[..1]) == 0;
      assert s[..0] == [];
    }
  }

  /** `formatTime` on "<a>:<b>" without "am"/"pm" when the hour piece reads as `v`. */
  lemma {:induction false} FormatPieces(a: string, b: string, radix: Radix, v: int)
    requires ':' !in a && ':' !in b && a != []
    requires !HasMeridiem(a + ":" + b)
    requires ParseInt(a, radix) == Some(v)
    ensures FormatTime(a + ":" + b, radix)
            == IntToString(if v == 0 then 12 else if v > 12 then v - 12 else v) + ":" + b + " "
               + (if v >= 12 then "PM" else "AM")
  {
    SplitPair(a, b);
  }

  lemma HexHourDecimal()
    ensures ParseInt("0x10", Decimal) == Some(0)
  {
    assert TrimStart("0x10") == "0x10";
    assert "0x10" == "0" + "x10";
    LeadingDigitsOf("0", "x10");
  }

  lemma HexHourInferred()
    ensures ParseInt("0x10", Inferred) == Some(16)
  {
    assert TrimStart("0x10") == "0x10";
    assert "0x10"[2..] == "10";
    assert LeadingHexDigits("10") == "10";
    assert HexValue("10") == 16 by {
      assert "10"[..1] == "1";
      assert "1"[..0] == "";
    }
  }

  lemma NoMeridiemInHexTime(minutes: string)
    requires AllDigits(minutes)
    ensures !HasMeridiem("0x10" + ":" + minutes)
  {
    var s := "0x10" + ":" + minutes;
    forall i | 0 <= i < |s| - 1
      ensures !(IsMeridiemLetter(s[i]) && IsM(s[i + 1]))
    {
      if i >= 5 {
        assert s[i] == minutes[i - 5];
      }
    }
  }

  lemma TwelveText()
    ensures IntToString(12) == "12"
  {
    assert NatToString(1) == "1";
    assert NatToString(12) == NatToString(1) + [DigitChar(2)];
  }

  /** The two versions part on an hour written in hexadecimal: the admin page reads
      "0x10:MM" as midnight, the bookings page as four in the afternoon. */
  lemma RadixMatters(minutes: string)
    requires AllDigits(minutes)
    ensures FormatTime("0x10" + ":" + minutes, Decimal) == "12" + ":" + minutes + " " + "AM"
    ensures FormatTime("0x10" + ":" + minutes, Inferred) == "4" + ":" + minutes + " " + "PM"
  {
    NoMeridiemInHexTime(minutes);
    assert ':' !in minutes;
    HexHourDecimal();
    HexHourInferred();
    HexTimeDecimal("0x10", minutes);
    HexTimeInferred("0x10", minutes);
  }

  /** `formatTime` on an hour piece that reads as 0. */
  lemma HexTimeDecimal(hours: string, minutes: string)
    requires ':' !in hours && hours != [] && ':' !in minutes
    requires !HasMeridiem(hours + ":" + minutes)
    requires ParseInt(hours, Decimal) == Some(0)
    ensures FormatTime(hours + ":" + minutes, Decimal) == "12" + ":" + minutes + " " + "AM"
  {
    FormatPieces(hours, minutes, Decimal, 0);
    TwelveText();
  }

  /** `formatTime` on an hour piece that reads as 16. */
  lemma HexTimeInferred(hours: string, minutes: string)
    requires ':' !in hours && hours != [] && ':' !in minutes
    requires !HasMeridiem(hours + ":" + minutes)
    requires ParseInt(hours, Inferred) == Some(16)
    ensures FormatTime(hours + ":" + minutes, Inferred) == "4" + ":" + minutes + " " + "PM"
  {
    FormatPieces(hours, minutes, Inferred, 16);
    FourText();
  }

  lemma FourText()
    ensures IntToString(4) == "4"
  {
  }
}
