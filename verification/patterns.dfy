/**
 * The three regular expressions of the transcript parser, each written as a
 * matcher anchored at the start of a string `t` (a suffix of the searched
 * text), plus `re.search`'s leftmost scan over start positions.
 *
 *   header   \d{1,2}/\d{1,2}/\d{2}[,]? \d{1,2}:\d{2}[\s]?[ap]\.
 *   time     (\d{1,2}):(\d{2})
 *   date     (\d{1,2})/(\d{1,2})/(\d{2})
 */
module Patterns {
  import opened Wrappers
  import opened Chars

  predicate DigitAt(t: string, k: int) {
    0 <= k < |t| && IsDigit(t[k])
  }

  predicate CharAt(t: string, k: int, c: char) {
    0 <= k < |t| && t[k] == c
  }

  /** The value of two consecutive decimal digits. */
  function TwoDigits(hi: char, lo: char): (v: nat)
    requires IsDigit(hi) && IsDigit(lo)
    ensures v <= 99
  {
    10 * DigitValue(hi) + DigitValue(lo)
  }

  // ---------------------------------------------------------------------
  // Header pattern. Each predicate says "a match of the rest of the pattern
  // begins at the start of t"; an optional or {1,2} element is a disjunction.

  /** `\d{1,2}` (day) followed by the rest of the header. */
  predicate HeaderStart(t: string) {
    || (DigitAt(t, 0) && DigitAt(t, 1) && AfterDay(t[2..]))
    || (DigitAt(t, 0) && AfterDay(t[1..]))
  }

  /** `/\d{1,2}` (month) and the rest. */
  predicate AfterDay(t: string) {
    CharAt(t, 0, '/') && MonthStart(t[1..])
  }

  predicate MonthStart(t: string) {
    || (DigitAt(t, 0) && DigitAt(t, 1) && AfterMonth(t[2..]))
    || (DigitAt(t, 0) && AfterMonth(t[1..]))
  }

  /** `/\d{2}` (year) and the rest. */
  predicate AfterMonth(t: string) {
    CharAt(t, 0, '/') && DigitAt(t, 1) && DigitAt(t, 2) && AfterYear(t[3..])
  }

  /** `[,]?` */
  predicate AfterYear(t: string) {
    (CharAt(t, 0, ',') && AfterComma(t[1..])) || AfterComma(t)
  }

  /** A mandatory space, then `\d{1,2}` (hour). */
  predicate AfterComma(t: string) {
    CharAt(t, 0, ' ') && HourStart(t[1..])
  }

  predicate HourStart(t: string) {
    || (DigitAt(t, 0) && DigitAt(t, 1) && AfterHour(t[2..]))
    || (DigitAt(t, 0) && AfterHour(t[1..]))
  }

  /** `:\d{2}` (minute), then the marker. */
  predicate AfterHour(t: string) {
    CharAt(t, 0, ':') && DigitAt(t, 1) && DigitAt(t, 2) && MarkerStart(t[3..])
  }

  /** `[\s]?` */
  predicate MarkerStart(t: string) {
    (|t| > 0 && IsSpace(t[0]) && AmPm(t[1..])) || AmPm(t)
  }

  /** `[ap]\.` */
  predicate AmPm(t: string) {
    (CharAt(t, 0, 'a') || CharAt(t, 0, 'p')) && CharAt(t, 1, '.')
  }

  /** `re.search(header, line)` succeeds: the pattern matches at some position. */
  predicate HasHeader(line: string) {
    exists i | 0 <= i <= |line| :: HeaderAt(line, i)
  }

  /** The header pattern matches `line` from index `i`. */
  predicate HeaderAt(line: string, i: nat)
    requires i <= |line|
  {
    HeaderStart(line[i..])
  }

  /** `re.search(r'\w', message)` succeeds. */
  predicate HasWordChar(message: string) {
    exists i | 0 <= i < |message| :: IsWordChar(message[i])
  }

  /** Every match of the header starts with a digit, so a line without digits never starts a message. */
  lemma {:induction false} NoDigitNoHeader(line: string)
    requires forall i :: 0 <= i < |line| ==> !IsDigit(line[i])
    ensures !HasHeader(line)
  {
    forall i | 0 <= i <= |line|
      ensures !HeaderStart(line[i..])
    {
      if i < |line| {
        assert line[i..][0] == line[i];
      }
    }
  }

  // ---------------------------------------------------------------------
  // Capturing patterns. Python tries the two-digit alternative of `\d{1,2}`
  // first and backtracks to one digit, which is what `Or` expresses.

  datatype ClockFields = ClockFields(hour: nat, minute: nat)

  datatype DateFields = DateFields(day: nat, month: nat, year: nat)

  /** The first of two alternatives that succeeds. */
  function Or<T>(first: Option<T>, second: Option<T>): Option<T> {
    if first.Some? then first else second
  }

  /** `(\d{1,2}):(\d{2})` anchored at the start of `t`, with its two groups as integers. */
  function TimeStart(t: string): (r: Option<ClockFields>)
    ensures r.Some? ==> r.value.hour <= 99 && r.value.minute <= 99
  {
    Or(if DigitAt(t, 0) && DigitAt(t, 1) then MinutePart(TwoDigits(t[0], t[1]), t[2..]) else None,
       if DigitAt(t, 0) then MinutePart(DigitValue(t[0]), t[1..]) else None)
  }

  function MinutePart(hour: nat, t: string): (r: Option<ClockFields>)
    ensures r.Some? ==> r.value.hour == hour && r.value.minute <= 99
  {
    if CharAt(t, 0, ':') && DigitAt(t, 1) && DigitAt(t, 2) then Some(ClockFields(hour, TwoDigits(t[1], t[2])))
    else None
  }

  /** `(\d{1,2})/(\d{1,2})/(\d{2})` anchored at the start of `t`, groups as integers. */
  function DateStart(t: string): (r: Option<DateFields>)
    ensures r.Some? ==> r.value.day <= 99 && r.value.month <= 99 && r.value.year <= 99
  {
    Or(if DigitAt(t, 0) && DigitAt(t, 1) then MonthPart(TwoDigits(t[0], t[1]), t[2..]) else None,
       if DigitAt(t, 0) then MonthPart(DigitValue(t[0]), t[1..]) else None)
  }

  function MonthPart(day: nat, t: string): (r: Option<DateFields>)
    ensures r.Some? ==> r.value.day == day && r.value.month <= 99 && r.value.year <= 99
  {
    if !CharAt(t, 0, '/') then None
    else Or(if DigitAt(t, 1) && DigitAt(t, 2) then YearPart(day, TwoDigits(t[1], t[2]), t[3..]) else None,
            if DigitAt(t, 1) then YearPart(day, DigitValue(t[1]), t[2..]) else None)
  }

  function YearPart(day: nat, month: nat, t: string): (r: Option<DateFields>)
    ensures r.Some? ==> r.value.day == day && r.value.month == month && r.value.year <= 99
  {
    if CharAt(t, 0, '/') && DigitAt(t, 1) && DigitAt(t, 2) then Some(DateFields(day, month, TwoDigits(t[1], t[2])))
    else None
  }

  // ---------------------------------------------------------------------
  // re.search

  /**
   * The leftmost start position `i >= from` at which `at` matches `s[i..]`,
   * with what it matched: `re.search` scanning positions 0 to `|s|`.
   */
  function Leftmost<T>(s: string, at: string -> Option<T>, from: nat): (r: Option<(nat, T)>)
    requires from <= |s|
    decreases |s| - from
    ensures r.Some? ==> from <= r.value.0 <= |s| && at(s[r.value.0..]) == Some(r.value.1)
    ensures r.Some? ==> forall j :: from <= j < r.value.0 ==> at(s[j..]).None?
    ensures r.None? ==> forall j :: from <= j <= |s| ==> at(s[j..]).None?
  {
    match at(s[from..])
    case Some(v) => Some((from, v))
    case None => if from == |s| then None else Leftmost(s, at, from + 1)
  }

  /** `re.search(r'(\d{1,2}):(\d{2})', s)` */
  function FindTime(s: string): Option<(nat, ClockFields)> {
    Leftmost(s, TimeStart, 0)
  }

  /** `re.search(r'(\d{1,2})/(\d{1,2})/(\d{2})', s)` */
  function FindDate(s: string): Option<(nat, DateFields)> {
    Leftmost(s, DateStart, 0)
  }

  /** Any leftmost match is the one `Leftmost` reports. */
  lemma {:induction false} LeftmostUnique<T>(s: string, at: string -> Option<T>, i: nat, v: T)
    requires i <= |s| && at(s[i..]) == Some(v)
    requires forall k :: 0 <= k < i ==> at(s[k..]).None?
    ensures Leftmost(s, at, 0) == Some((i, v))
  {
    var r := Leftmost(s, at, 0);
    assert r.Some?;
    assert r.value.0 == i;
  }

  /** A time match starts with a digit and has its ':' second or third. */
  lemma {:induction false} TimeNeedsColon(t: string)
    ensures TimeStart(t).Some? ==> DigitAt(t, 0) && (CharAt(t, 1, ':') || CharAt(t, 2, ':'))
  {
  }

  /** A date match starts with a digit and has its first '/' second or third. */
  lemma {:induction false} DateNeedsSlash(t: string)
    ensures DateStart(t).Some? ==> DigitAt(t, 0) && (CharAt(t, 1, '/') || CharAt(t, 2, '/'))
  {
  }
}
