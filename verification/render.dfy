/**
 * How the chat export writes its timestamps: `D/M/YY, H:MM p.` with day,
 * month and hour unpadded and year and minute on two digits. Used to state
 * that the matchers recognise, and read back, what the export writes.
 */
module Render {
  import opened Wrappers
  import opened Chars
  import opened Patterns

  function DigitChar(d: nat): (c: char)
    requires d <= 9
    ensures IsDigit(c) && DigitValue(c) == d
  {
    ('0' as int + d) as char
  }

  /** `str(n)` for `n < 100`. */
  function Show(n: nat): (s: string)
    requires n <= 99
    ensures 1 <= |s| <= 2 && forall k :: 0 <= k < |s| ==> IsDigit(s[k])
  {
    if n < 10 then [DigitChar(n)] else [DigitChar(n / 10), DigitChar(n % 10)]
  }

  /** `'%02d' % n` for `n < 100`. */
  function Show2(n: nat): (s: string)
    requires n <= 99
    ensures |s| == 2 && IsDigit(s[0]) && IsDigit(s[1]) && TwoDigits(s[0], s[1]) == n
  {
    [DigitChar(n / 10), DigitChar(n % 10)]
  }

  /** A header as the export writes it, with or without the comma and the space before the marker. */
  function HeaderText(day: nat, month: nat, year: nat, hour: nat, minute: nat,
                      comma: bool, space: bool, pm: bool): string
    requires day <= 99 && month <= 99 && year <= 99 && hour <= 99 && minute <= 99
  {
    DateText(day, month, year) + (if comma then ", " else " ") + ClockText(hour, minute, space, pm)
  }

  /** `D/M/YY` */
  function DateText(day: nat, month: nat, year: nat): string
    requires day <= 99 && month <= 99 && year <= 99
  {
    Show(day) + "/" + Show(month) + "/" + Show2(year)
  }

  /** `H:MM a.` or `H:MM p.`, the space before the marker being optional. */
  function ClockText(hour: nat, minute: nat, space: bool, pm: bool): string
    requires hour <= 99 && minute <= 99
  {
    Show(hour) + ":" + Show2(minute) + (if space then " " else "") + (if pm then "p." else "a.")
  }

  /** Reading an unpadded number followed by a non-digit gives its value back. */
  lemma {:induction false} ShowValue(n: nat)
    requires n <= 99
    ensures |Show(n)| == 1 ==> DigitValue(Show(n)[0]) == n
    ensures |Show(n)| == 2 ==> TwoDigits(Show(n)[0], Show(n)[1]) == n
  {
  }

  /** The time pattern reads back the hour and minute the export wrote, whatever follows. */
  lemma {:induction false} TimeRoundTrip(hour: nat, minute: nat, rest: string)
    requires hour <= 99 && minute <= 99
    ensures TimeStart(Show(hour) + ":" + Show2(minute) + rest) == Some(ClockFields(hour, minute))
  {
    var t := Show(hour) + ":" + Show2(minute) + rest;
    var h := Show(hour);
    ShowValue(hour);
    if |h| == 1 {
      assert t[1..] == ":" + Show2(minute) + rest;
      assert !DigitAt(t, 1);
    } else {
      assert t[2..] == ":" + Show2(minute) + rest;
    }
  }

  /** The date pattern reads back the day, month and two-digit year the export wrote. */
  lemma {:induction false} DateRoundTrip(day: nat, month: nat, year: nat, rest: string)
    requires day <= 99 && month <= 99 && year <= 99
    ensures DateStart(Show(day) + "/" + Show(month) + "/" + Show2(year) + rest) == Some(DateFields(day, month, year))
  {
    var tail := "/" + Show(month) + "/" + Show2(year) + rest;
    var t := Show(day) + tail;
    ShowValue(day);
    ShowValue(month);
    var m := Show(month);
    var yearTail := "/" + Show2(year) + rest;
    assert tail == "/" + m + yearTail;
    if |m| == 1 {
      assert tail[2..] == yearTail;
      assert MonthPart(day, tail) == Some(DateFields(day, month, year));
    } else {
      assert tail[3..] == yearTail;
      assert MonthPart(day, tail) == Some(DateFields(day, month, year));
    }
    if |Show(day)| == 1 {
      assert t[1..] == tail;
      assert !DigitAt(t, 1);
    } else {
      assert t[2..] == tail;
    }
  }

  lemma {:induction false} MarkerRecognised(space: bool, pm: bool, after: string)
    ensures MarkerStart((if space then " " else "") + (if pm then "p." else "a.") + after)
  {
    var ap := (if pm then "p." else "a.") + after;
    assert AmPm(ap);
    if space {
      var m := " " + ap;
      assert m[1..] == ap;
      assert IsSpace(m[0]);
    } else {
      assert "" + ap == ap;
    }
  }

  /** `\d{1,2}` followed by something the rest of a pattern accepts, in either digit count. */
  lemma {:induction false} UnpaddedRecognised(n: nat, tail: string)
    requires n <= 99
    ensures |Show(n)| == 1 ==> DigitAt(Show(n) + tail, 0) && (Show(n) + tail)[1..] == tail
    ensures |Show(n)| == 2 ==> DigitAt(Show(n) + tail, 0) && DigitAt(Show(n) + tail, 1) && (Show(n) + tail)[2..] == tail
  {
  }

  lemma {:induction false} ClockRecognised(hour: nat, minute: nat, space: bool, pm: bool, after: string)
    requires hour <= 99 && minute <= 99
    ensures HourStart(ClockText(hour, minute, space, pm) + after)
  {
    var marker := (if space then " " else "") + (if pm then "p." else "a.") + after;
    MarkerRecognised(space, pm, after);
    var afterHour := ":" + Show2(minute) + marker;
    assert afterHour[3..] == marker;
    assert AfterHour(afterHour);
    var t := Show(hour) + afterHour;
    assert t == ClockText(hour, minute, space, pm) + after;
    UnpaddedRecognised(hour, afterHour);
  }

  lemma {:induction false} YearRecognised(year: nat, comma: bool, clock: string)
    requires year <= 99
    requires HourStart(clock)
    ensures AfterMonth("/" + (Show2(year) + (if comma then ", " else " ") + clock))
  {
    var afterComma := " " + clock;
    assert afterComma[1..] == clock;
    assert AfterComma(afterComma);
    var afterYear := (if comma then "," else "") + afterComma;
    if comma {
      assert afterYear[1..] == afterComma;
    } else {
      assert afterYear == afterComma;
    }
    assert AfterYear(afterYear);
    var afterMonth := "/" + Show2(year) + afterYear;
    assert afterMonth[3..] == afterYear;
    assert afterMonth == "/" + (Show2(year) + (if comma then ", " else " ") + clock);
  }

  lemma {:induction false} DateRecognised(day: nat, month: nat, year: nat, comma: bool, clock: string)
    requires day <= 99 && month <= 99 && year <= 99
    requires HourStart(clock)
    ensures HeaderStart(Show(day) + "/" + Show(month) + "/" + (Show2(year) + (if comma then ", " else " ") + clock))
  {
    var afterMonth := "/" + (Show2(year) + (if comma then ", " else " ") + clock);
    YearRecognised(year, comma, clock);
    var monthStart := Show(month) + afterMonth;
    UnpaddedRecognised(month, afterMonth);
    assert MonthStart(monthStart);
    var afterDay := "/" + monthStart;
    assert afterDay[1..] == monthStart;
    assert AfterDay(afterDay);
    var t := Show(day) + afterDay;
    UnpaddedRecognised(day, afterDay);
    assert HeaderStart(t);
    Regroup(Show(day), Show(month), Show2(year) + (if comma then ", " else " ") + clock);
  }

  lemma {:induction false} Regroup(a: string, b: string, c: string)
    ensures a + "/" + b + "/" + c == a + ("/" + (b + ("/" + c)))
  {
  }

  /** Whatever precedes and follows it, a header written by the export is recognised. */
  lemma {:induction false} HeaderRecognised(day: nat, month: nat, year: nat, hour: nat, minute: nat,
                         comma: bool, space: bool, pm: bool, before: string, after: string)
    requires day <= 99 && month <= 99 && year <= 99 && hour <= 99 && minute <= 99
    ensures HasHeader(before + HeaderText(day, month, year, hour, minute, comma, space, pm) + after)
  {
    var clock := ClockText(hour, minute, space, pm) + after;
    ClockRecognised(hour, minute, space, pm, after);
    DateRecognised(day, month, year, comma, clock);
    var sep := if comma then ", " else " ";
    var c := Show2(year) + sep + clock;
    Regroup(Show(day), Show(month), c);
    var t := Show(day) + ("/" + (Show(month) + ("/" + c)));
    assert HeaderStart(t);
    var line := before + HeaderText(day, month, year, hour, minute, comma, space, pm) + after;
    Layout(before, Show(day), Show(month), Show2(year), sep, ClockText(hour, minute, space, pm), after);
    assert line == before + t;
    assert line[|before|..] == t;
    assert HeaderAt(line, |before|);
  }

  lemma {:induction false} Layout(before: string, d: string, m: string, y: string, sep: string, k: string, after: string)
    ensures before + (d + "/" + m + "/" + y + sep + k) + after
         == before + (d + ("/" + (m + ("/" + (y + sep + (k + after))))))
  {
  }

  /** `c` does not occur in `s`. */
  predicate Avoids(s: string, c: char) {
    forall k :: 0 <= k < |s| ==> s[k] != c
  }

  /** What the export writes before the clock: the date and its separator. */
  lemma {:induction false} DatePrefixAvoidsColon(day: nat, month: nat, year: nat, comma: bool)
    requires day <= 99 && month <= 99 && year <= 99
    ensures Avoids(DateText(day, month, year) + (if comma then ", " else " "), ':')
    ensures var p := DateText(day, month, year) + (if comma then ", " else " "); p[|p| - 1] == ' '
  {
    var d, m, y := Show(day), Show(month), Show2(year);
    assert Avoids(d, ':') && Avoids(m, ':') && Avoids(y, ':');
    var p := DateText(day, month, year) + (if comma then ", " else " ");
    forall k | 0 <= k < |p| ensures p[k] != ':' {
      if k < |d| {
        assert p[k] == d[k];
      } else if k == |d| || k == |d| + 1 + |m| {
        assert p[k] == '/';
      } else if k < |d| + 1 + |m| {
        assert p[k] == m[k - |d| - 1];
      } else if k < |d| + 2 + |m| + 2 {
        assert p[k] == y[k - |d| - 2 - |m|];
      }
    }
  }

  /**
   * A time the export writes is the leftmost time of the text when nothing
   * before it holds a ':' and the character just before it is not a digit.
   */
  lemma {:induction false} FirstTimeAfter(pre: string, hour: nat, minute: nat, post: string)
    requires hour <= 99 && minute <= 99
    requires Avoids(pre, ':')
    requires |pre| > 0 ==> !IsDigit(pre[|pre| - 1])
    ensures FindTime(pre + (Show(hour) + ":" + Show2(minute) + post)) == Some((|pre|, ClockFields(hour, minute)))
  {
    var x := Show(hour) + ":" + Show2(minute) + post;
    var s := pre + x;
    TimeRoundTrip(hour, minute, post);
    assert s[|pre|..] == x;
    assert IsDigit(x[0]);
    forall k | 0 <= k < |pre| ensures TimeStart(s[k..]).None? {
      var t := s[k..];
      TimeNeedsColon(t);
      if k + 1 == |pre| {
        assert !DigitAt(t, 0);
      } else {
        assert !CharAt(t, 1, ':');
        assert t[2] == if k + 2 < |pre| then pre[k + 2] else x[0];
      }
    }
    LeftmostUnique(s, TimeStart, |pre|, ClockFields(hour, minute));
  }

  /**
   * A date the export writes is the leftmost date of the text when nothing
   * before it holds a '/' and the character just before it is not a digit.
   */
  lemma {:induction false} FirstDateAfter(pre: string, day: nat, month: nat, year: nat, post: string)
    requires day <= 99 && month <= 99 && year <= 99
    requires Avoids(pre, '/')
    requires |pre| > 0 ==> !IsDigit(pre[|pre| - 1])
    ensures FindDate(pre + (Show(day) + "/" + Show(month) + "/" + Show2(year) + post))
         == Some((|pre|, DateFields(day, month, year)))
  {
    var x := Show(day) + "/" + Show(month) + "/" + Show2(year) + post;
    var s := pre + x;
    DateRoundTrip(day, month, year, post);
    assert s[|pre|..] == x;
    assert IsDigit(x[0]);
    forall k | 0 <= k < |pre| ensures DateStart(s[k..]).None? {
      var t := s[k..];
      DateNeedsSlash(t);
      if k + 1 == |pre| {
        assert !DigitAt(t, 0);
      } else {
        assert !CharAt(t, 1, '/');
        assert t[2] == if k + 2 < |pre| then pre[k + 2] else x[0];
      }
    }
    LeftmostUnique(s, DateStart, |pre|, DateFields(day, month, year));
  }
}
