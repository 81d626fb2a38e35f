/**
 * Resolution of the timestamp text (everything before the first " - " of a
 * message) into a date and time, as in wsp.py lines 51-71.
 */
module Timestamp {
  import opened Wrappers
  import opened Chars
  import opened Patterns
  import opened Calendar
  import opened Errors
  import opened Render

  /** `"p" in ts.lower()`: the whole text is searched, not only the part after the time. */
  predicate IsPm(ts: string) {
    exists i | 0 <= i < |ts| :: LowersToP(ts[i])
  }

  /** The source's 12-to-24-hour rule: add 12 unless the hour is 12. */
  function PmHour(hour: nat): nat {
    if hour != 12 then hour + 12 else hour
  }

  /**
   * The 12-hour path: hour and minute from the leftmost `H:MM`, day, month
   * and two-digit year from the leftmost `D/M/YY`, then `datetime.datetime`.
   */
  function ResolvePm(ts: string): (r: Result<DateTime, Error>)
    ensures r.Ok? ==> IsValid(r.value) && 12 <= r.value.hour <= 23 && r.value.second == 0
    ensures r.Ok? ==> 2000 <= r.value.year <= 2099
  {
    match FindTime(ts)
    case None => Err(MissingTimestampField(ts))
    case Some((_, clock)) =>
      match FindDate(ts)
      case None => Err(MissingTimestampField(ts))
      case Some((_, date)) =>
        match MakeDateTime(date.year + 2000, date.month, date.day, PmHour(clock.hour), clock.minute)
        case None => Err(InvalidDateTime(ts))
        case Some(dt) => Ok(dt)
  }

  /**
   * The outcome of the 12-hour path for clock fields `clock` and date fields
   * `date`: success exactly when the clock hour is at most 12, the minute at
   * most 59 and the day exists in that month of 20YY, with the hour become
   * 12 plus the clock hour modulo 12; otherwise `InvalidDateTime`.
   */
  predicate PmOutcome(r: Result<DateTime, Error>, ts: string, clock: ClockFields, date: DateFields) {
    && (r.Ok? <==>
          && clock.hour <= 12 && clock.minute <= 59
          && 1 <= date.month <= 12 && 1 <= date.day <= DaysInMonth(2000 + date.year, date.month))
    && (r.Ok? ==> r.value == DateTime(2000 + date.year, date.month, date.day, 12 + clock.hour % 12, clock.minute, 0))
    && (r.Err? ==> r.error == InvalidDateTime(ts))
  }

  /**
   * What the 12-hour path yields, in terms of the leftmost matches: it succeeds
   * exactly when both patterns match, the clock hour is at most 12, the minute
   * at most 59 and the day exists in that month of 20YY; the hour becomes
   * 12 plus the clock hour modulo 12, and the other fields pass through.
   */
  lemma {:induction false} ResolvePmFields(ts: string, i: nat, clock: ClockFields, j: nat, date: DateFields)
    requires i <= |ts| && TimeStart(ts[i..]) == Some(clock)
    requires forall k :: 0 <= k < i ==> TimeStart(ts[k..]).None?
    requires j <= |ts| && DateStart(ts[j..]) == Some(date)
    requires forall k :: 0 <= k < j ==> DateStart(ts[k..]).None?
    ensures PmOutcome(ResolvePm(ts), ts, clock, date)
  {
    LeftmostUnique(ts, TimeStart, i, clock);
    LeftmostUnique(ts, DateStart, j, date);
    ResolveFromMatches(ts, i, clock, j, date);
  }

  /** The arithmetic of the 12-hour path once both matches are known. */
  lemma {:induction false} PmFields(ts: string, clock: ClockFields, date: DateFields)
    requires date.year <= 99
    ensures var r := MakeDateTime(date.year + 2000, date.month, date.day, PmHour(clock.hour), clock.minute);
      PmOutcome(if r.Some? then Ok(r.value) else Err(InvalidDateTime(ts)), ts, clock, date)
  {
  }

  /** The 12-hour path fails, without a record, when either pattern is absent. */
  lemma {:induction false} ResolvePmMissing(ts: string)
    requires || (forall k :: 0 <= k <= |ts| ==> TimeStart(ts[k..]).None?)
             || (forall k :: 0 <= k <= |ts| ==> DateStart(ts[k..]).None?)
    ensures ResolvePm(ts) == Err(MissingTimestampField(ts))
  {
  }

  /**
   * Both resolution paths: the 12-hour one when the text contains a "p" in
   * either case, otherwise the free-text parser `generic`, whose `None` is
   * reported as an unparseable timestamp.
   */
  function Resolve(ts: string, generic: string -> Option<DateTime>): (r: Result<DateTime, Error>)
    ensures IsPm(ts) ==> r == ResolvePm(ts)
    ensures !IsPm(ts) ==> (r.Ok? <==> generic(ts).Some?)
    ensures !IsPm(ts) && r.Ok? ==> r.value == generic(ts).value
    ensures !IsPm(ts) && r.Err? ==> r.error == UnparseableTimestamp(ts)
  {
    if IsPm(ts) then ResolvePm(ts)
    else match generic(ts)
      case None => Err(UnparseableTimestamp(ts))
      case Some(dt) => Ok(dt)
  }

  /** A header the export writes contains a "p" exactly when it is a p.m. time. */
  lemma {:induction false} RenderedIsPm(day: nat, month: nat, year: nat, hour: nat, minute: nat, comma: bool, space: bool, pm: bool)
    requires day <= 99 && month <= 99 && year <= 99 && hour <= 99 && minute <= 99
    ensures IsPm(HeaderText(day, month, year, hour, minute, comma, space, pm)) <==> pm
  {
    var ts := HeaderText(day, month, year, hour, minute, comma, space, pm);
    var d, m, y, h, mi := Show(day), Show(month), Show2(year), Show(hour), Show2(minute);
    var sep := if comma then ", " else " ";
    var sp := if space then " " else "";
    var marker := if pm then "p." else "a.";
    var front := d + "/" + m + "/" + y + sep + h + ":" + mi + sp;
    assert ts == front + marker;
    if pm {
      assert LowersToP(ts[|front|]);
    } else {
      forall k | 0 <= k < |ts| ensures !LowersToP(ts[k]) {
        if k >= |front| {
          assert ts[k] == marker[k - |front|];
        } else {
          NoPInFront(d, m, y, sep, h, mi, sp, k);
        }
      }
    }
  }

  /** The digits and punctuation before the marker hold no "p". */
  lemma {:induction false} NoPInFront(d: string, m: string, y: string, sep: string, h: string, mi: string, sp: string, k: nat)
    requires forall i :: 0 <= i < |d| ==> IsDigit(d[i])
    requires forall i :: 0 <= i < |m| ==> IsDigit(m[i])
    requires forall i :: 0 <= i < |y| ==> IsDigit(y[i])
    requires forall i :: 0 <= i < |h| ==> IsDigit(h[i])
    requires forall i :: 0 <= i < |mi| ==> IsDigit(mi[i])
    requires sep == ", " || sep == " "
    requires sp == " " || sp == ""
    requires k < |d + "/" + m + "/" + y + sep + h + ":" + mi + sp|
    ensures !LowersToP((d + "/" + m + "/" + y + sep + h + ":" + mi + sp)[k])
  {
    var parts := [d, "/", m, "/", y, sep, h, ":", mi, sp];
    var front := d + "/" + m + "/" + y + sep + h + ":" + mi + sp;
    var c := front[k];
    assert c in multiset(front);
    assert multiset(front) == multiset(d) + multiset("/") + multiset(m) + multiset("/") + multiset(y)
                            + multiset(sep) + multiset(h) + multiset(":") + multiset(mi) + multiset(sp);
    if c in multiset(d) {
      var i :| 0 <= i < |d| && d[i] == c;
    } else if c in multiset(m) {
      var i :| 0 <= i < |m| && m[i] == c;
    } else if c in multiset(y) {
      var i :| 0 <= i < |y| && y[i] == c;
    } else if c in multiset(h) {
      var i :| 0 <= i < |h| && h[i] == c;
    } else if c in multiset(mi) {
      var i :| 0 <= i < |mi| && mi[i] == c;
    }
  }

  /**
   * A p.m. timestamp as the export writes it resolves to the date it shows in
   * the 2000s and its clock hour plus 12 (12 staying 12), or fails with
   * `InvalidDateTime` when that is not a calendar date and time.
   */
  lemma {:induction false} PmRendered(day: nat, month: nat, year: nat, hour: nat, minute: nat, comma: bool, space: bool)
    requires day <= 99 && month <= 99 && year <= 99 && hour <= 99 && minute <= 99
    ensures var ts := HeaderText(day, month, year, hour, minute, comma, space, true);
      PmOutcome(ResolvePm(ts), ts, ClockFields(hour, minute), DateFields(day, month, year))
  {
    var ts := HeaderText(day, month, year, hour, minute, comma, space, true);
    var i := RenderedMatches(day, month, year, hour, minute, comma, space);
    ResolveFromMatches(ts, i, ClockFields(hour, minute), 0, DateFields(day, month, year));
  }

  /**
   * Such a timestamp always takes the 12-hour path: the free-text parser is
   * never consulted for it.
   */
  lemma {:induction false} ResolveRendered(day: nat, month: nat, year: nat, hour: nat, minute: nat, comma: bool, space: bool,
                        generic: string -> Option<DateTime>)
    requires day <= 99 && month <= 99 && year <= 99 && hour <= 99 && minute <= 99
    ensures var ts := HeaderText(day, month, year, hour, minute, comma, space, true);
      Resolve(ts, generic) == ResolvePm(ts)
  {
    RenderedIsPm(day, month, year, hour, minute, comma, space, true);
  }

  /** Where the two patterns match in a p.m. header the export writes. */
  lemma {:induction false} RenderedMatches(day: nat, month: nat, year: nat, hour: nat, minute: nat, comma: bool, space: bool)
    returns (i: nat)
    requires day <= 99 && month <= 99 && year <= 99 && hour <= 99 && minute <= 99
    ensures var ts := HeaderText(day, month, year, hour, minute, comma, space, true);
      && FindTime(ts) == Some((i, ClockFields(hour, minute)))
      && FindDate(ts) == Some((0, DateFields(day, month, year)))
  {
    var ts := HeaderText(day, month, year, hour, minute, comma, space, true);
    var sep := if comma then ", " else " ";
    var marker := (if space then " " else "") + "p.";
    var date := DateText(day, month, year);
    var clock := ClockText(hour, minute, space, true);
    assert ts == date + sep + clock;
    ResolveParts(date, sep, clock, Show(hour) + ":" + Show2(minute), marker);
    FirstDateAfter("", day, month, year, sep + clock);
    DatePrefixAvoidsColon(day, month, year, comma);
    FirstTimeAfter(date + sep, hour, minute, marker);
    i := |date + sep|;
  }

  /** `ResolvePm` once the leftmost matches are known. */
  lemma {:induction false} ResolveFromMatches(ts: string, i: nat, clock: ClockFields, j: nat, date: DateFields)
    requires FindTime(ts) == Some((i, clock)) && FindDate(ts) == Some((j, date))
    ensures PmOutcome(ResolvePm(ts), ts, clock, date)
  {
    assert DateStart(ts[j..]) == Some(date);
    var r := MakeDateTime(date.year + 2000, date.month, date.day, PmHour(clock.hour), clock.minute);
    assert ResolvePm(ts) == if r.Some? then Ok(r.value) else Err(InvalidDateTime(ts));
    PmFields(ts, clock, date);
  }

  lemma {:induction false} ResolveParts(date: string, sep: string, clock: string, time: string, marker: string)
    requires clock == time + marker
    ensures date + sep + clock == "" + (date + (sep + clock))
    ensures date + sep + clock == (date + sep) + (time + marker)
  {
  }
}
