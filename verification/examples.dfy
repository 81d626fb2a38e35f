/** Worked transcripts: whole runs of the parser on small inputs. */
module Examples {
  import opened Wrappers
  import opened Chars
  import opened Strings
  import opened Patterns
  import opened Calendar
  import opened Errors
  import opened MessageParser
  import opened Timestamp
  import opened Segmenter
  import opened Chat
  import opened Render

  /** "15/3/23, 11:45 p." is 23:45 on 15 March 2023. */
  lemma PmExample()
    ensures ResolvePm("15/3/23, 11:45 p.") == Ok(DateTime(2023, 3, 15, 23, 45, 0))
  {
    var ts := HeaderText(15, 3, 23, 11, 45, true, true, true);
    PmRendered(15, 3, 23, 11, 45, true, true);
    assert DaysInMonth(2023, 3) == 31;
    assert ResolvePm(ts) == Ok(DateTime(2023, 3, 15, 23, 45, 0));
    HeaderTextExample();
  }

  lemma HeaderTextExample()
    ensures HeaderText(15, 3, 23, 11, 45, true, true, true) == "15/3/23, 11:45 p."
  {
    assert Show(15) == "15" && Show(3) == "3" && Show2(23) == "23";
    assert Show(11) == "11" && Show2(45) == "45";
    assert DateText(15, 3, 23) == "15/3/23";
    assert ClockText(11, 45, true, true) == "11:45 p.";
  }

  lemma HeaderLineExample()
    ensures HasHeader("15/3/23, 11:45 p. - Ana: Hola\n")
  {
    HeaderTextExample();
    JoinExample();
    HeaderRecognised(15, 3, 23, 11, 45, true, true, true, "", " - Ana: Hola\n");
  }

  lemma JoinExample()
    ensures "" + "15/3/23, 11:45 p." + " - Ana: Hola\n" == "15/3/23, 11:45 p. - Ana: Hola\n"
  {
  }

  lemma ContinuationLineExample()
    ensures !HasHeader("que tal\n")
  {
    NoDigitNoHeader("que tal\n");
  }

  /** The two lines form the empty leading message and one message with an embedded line break. */
  lemma SegmentExample()
    ensures Segment(HasHeader, ["15/3/23, 11:45 p. - Ana: Hola\n", "que tal\n"])
         == ["", "15/3/23, 11:45 p. - Ana: Hola\nque tal\n"]
  {
    HeaderLineExample();
    ContinuationLineExample();
    SegmentTwoLines("15/3/23, 11:45 p. - Ana: Hola\n", "que tal\n");
    ConcatExample();
  }

  lemma ConcatExample()
    ensures "15/3/23, 11:45 p. - Ana: Hola\n" + "que tal\n" == "15/3/23, 11:45 p. - Ana: Hola\nque tal\n"
  {
  }

  lemma {:induction false} SegmentTwoLines(first: string, second: string)
    requires HasHeader(first) && !HasHeader(second)
    ensures Segment(HasHeader, [first, second]) == ["", first + second]
  {
    var lines := [first, second];
    assert lines[..1] == [first] && lines[1] == second;
    assert [first][..0] == [] && [first][0] == first;
    assert Segment(HasHeader, []) == [""];
    var previous := Segment(HasHeader, [first]);
    assert previous == ["", first];
    assert previous[..1] == [""] && previous[1] == first;
  }

  lemma ParseExample()
    ensures ParseMessage("15/3/23, 11:45 p. - Ana: Hola\nque tal\n")
         == Ok(Some(Triple("15/3/23, 11:45 p.", "Ana", "Hola\nque tal\n")))
  {
    var ts := "15/3/23, 11:45 p.";
    var w := ts + " -";
    forall j | 0 <= j <= |w|
      ensures !OccursAt(w, HeaderSeparator, j)
    {
      if j + 3 <= |w| {
        assert w[j..j + 3][1] == w[j + 1];
      }
    }
    forall j | 0 <= j <= 3
      ensures !OccursAt("Ana", SenderSeparator, j)
    {
      if j + 2 <= 3 {
        assert "Ana"[j..j + 2][0] != ':';
      }
    }
    var message := ts + HeaderSeparator + "Ana" + SenderSeparator + "Hola\nque tal\n";
    assert IsWordChar(message[0]);
    ParseJoin(ts, "Ana", "Hola\nque tal\n");
    MessageJoinExample();
  }

  lemma MessageJoinExample()
    ensures "15/3/23, 11:45 p." + HeaderSeparator + "Ana" + SenderSeparator + "Hola\nque tal\n"
         == "15/3/23, 11:45 p. - Ana: Hola\nque tal\n"
  {
  }

  lemma {:induction false} RecordExample(generic: string -> Option<DateTime>)
    ensures ProcessMessage("15/3/23, 11:45 p. - Ana: Hola\nque tal\n", generic)
         == Ok(Some(Record(DateTime(2023, 3, 15, 23, 45, 0), "Ana", "Hola\nque tal\n", 13)))
  {
    var ts := "15/3/23, 11:45 p.";
    ParseExample();
    assert IsPm(ts) by {
      assert LowersToP(ts[15]);
    }
    PmExample();
  }

  /** A header line followed by a line without one: a single record whose content spans both lines. */
  lemma {:induction false} MultiLineExample(generic: string -> Option<DateTime>)
    ensures ProcessChat(["15/3/23, 11:45 p. - Ana: Hola\n", "que tal\n"], generic)
         == Ok([Record(DateTime(2023, 3, 15, 23, 45, 0), "Ana", "Hola\nque tal\n", 13)])
  {
    SegmentExample();
    RecordExample(generic);
    TwoMessages("15/3/23, 11:45 p. - Ana: Hola\nque tal\n",
                Record(DateTime(2023, 3, 15, 23, 45, 0), "Ana", "Hola\nque tal\n", 13), generic);
  }

  /** The empty leading message is skipped and the second one processed. */
  lemma {:induction false} TwoMessages(message: string, record: Record, generic: string -> Option<DateTime>)
    requires ProcessMessage(message, generic) == Ok(Some(record))
    ensures ProcessMessages(["", message], generic) == Ok([record])
  {
    assert ProcessMessage("", generic) == Ok(None);
    assert [""][..0] == [];
    assert ProcessMessages([""], generic) == Ok([]);
    var messages := ["", message];
    assert messages[..|messages| - 1] == [""] && messages[|messages| - 1] == message;
    assert [] + [record] == [record];
  }

  /** Noon stays at hour 12: "12:05 p." is 12:05, not 24:05. */
  lemma NoonExample()
    ensures ResolvePm("1/1/23, 12:05 p.") == Ok(DateTime(2023, 1, 1, 12, 5, 0))
  {
    var ts := HeaderText(1, 1, 23, 12, 5, true, true, true);
    PmRendered(1, 1, 23, 12, 5, true, true);
    assert DaysInMonth(2023, 1) == 31;
    assert ResolvePm(ts) == Ok(DateTime(2023, 1, 1, 12, 5, 0));
    NoonText();
  }

  lemma NoonText()
    ensures HeaderText(1, 1, 23, 12, 5, true, true, true) == "1/1/23, 12:05 p."
  {
    assert Show(1) == "1" && Show2(23) == "23" && Show(12) == "12" && Show2(5) == "05";
    assert DateText(1, 1, 23) == "1/1/23";
    assert ClockText(12, 5, true, true) == "12:05 p.";
  }

  /** A clock hour of 13 becomes 25, which `datetime` rejects. */
  lemma HourOutOfRangeExample()
    ensures ResolvePm("1/1/23, 13:05 p.") == Err(InvalidDateTime("1/1/23, 13:05 p."))
  {
    var ts := HeaderText(1, 1, 23, 13, 5, true, true, true);
    PmRendered(1, 1, 23, 13, 5, true, true);
    assert ResolvePm(ts) == Err(InvalidDateTime(ts));
    HourOutOfRangeText();
  }

  lemma HourOutOfRangeText()
    ensures HeaderText(1, 1, 23, 13, 5, true, true, true) == "1/1/23, 13:05 p."
  {
    assert Show(1) == "1" && Show2(23) == "23" && Show(13) == "13" && Show2(5) == "05";
    assert DateText(1, 1, 23) == "1/1/23";
    assert ClockText(13, 5, true, true) == "13:05 p.";
  }

  /** April has 30 days. */
  lemma DayOutOfRangeExample()
    ensures ResolvePm("31/4/23, 1:00 p.") == Err(InvalidDateTime("31/4/23, 1:00 p."))
  {
    var ts := HeaderText(31, 4, 23, 1, 0, true, true, true);
    PmRendered(31, 4, 23, 1, 0, true, true);
    assert DaysInMonth(2023, 4) == 30;
    assert ResolvePm(ts) == Err(InvalidDateTime(ts));
    DayOutOfRangeText();
  }

  lemma DayOutOfRangeText()
    ensures HeaderText(31, 4, 23, 1, 0, true, true, true) == "31/4/23, 1:00 p."
  {
    assert Show(31) == "31" && Show(4) == "4" && Show2(23) == "23" && Show(1) == "1" && Show2(0) == "00";
    assert DateText(31, 4, 23) == "31/4/23";
    assert ClockText(1, 0, true, true) == "1:00 p.";
  }

  /** 29 February exists in 2024, a leap year. */
  lemma LeapDayExample()
    ensures ResolvePm("29/2/24, 1:00 p.") == Ok(DateTime(2024, 2, 29, 13, 0, 0))
  {
    var ts := HeaderText(29, 2, 24, 1, 0, true, true, true);
    PmRendered(29, 2, 24, 1, 0, true, true);
    LeapFebruary();
    assert ResolvePm(ts) == Ok(DateTime(2024, 2, 29, 13, 0, 0));
    LeapDayText();
  }

  lemma LeapDayText()
    ensures HeaderText(29, 2, 24, 1, 0, true, true, true) == "29/2/24, 1:00 p."
  {
    assert Show(29) == "29" && Show(2) == "2" && Show2(24) == "24" && Show(1) == "1" && Show2(0) == "00";
    assert DateText(29, 2, 24) == "29/2/24";
    assert ClockText(1, 0, true, true) == "1:00 p.";
  }

  lemma LeapFebruary()
    ensures DaysInMonth(2024, 2) == 29
  {
    assert 2024 % 4 == 0 && 2024 % 100 == 24;
  }

  /** 29 February does not exist in 2023. */
  lemma CommonYearExample()
    ensures ResolvePm("29/2/23, 1:00 p.") == Err(InvalidDateTime("29/2/23, 1:00 p."))
  {
    var ts := HeaderText(29, 2, 23, 1, 0, true, true, true);
    PmRendered(29, 2, 23, 1, 0, true, true);
    assert 2023 % 4 == 3;
    assert DaysInMonth(2023, 2) == 28;
    assert ResolvePm(ts) == Err(InvalidDateTime(ts));
    CommonYearText();
  }

  lemma CommonYearText()
    ensures HeaderText(29, 2, 23, 1, 0, true, true, true) == "29/2/23, 1:00 p."
  {
    assert Show(29) == "29" && Show(2) == "2" && Show2(23) == "23" && Show(1) == "1" && Show2(0) == "00";
    assert DateText(29, 2, 23) == "29/2/23";
    assert ClockText(1, 0, true, true) == "1:00 p.";
  }

  /**
   * The PM test looks at the whole timestamp text: a "p" before the date
   * turns an "a." time into an afternoon one.
   */
  lemma {:induction false} StrayPExample(generic: string -> Option<DateTime>)
    ensures Resolve("Sep 1/1/23, 9:00 a.", generic) == Ok(DateTime(2023, 1, 1, 21, 0, 0))
  {
    var ts := "Sep 1/1/23, 9:00 a.";
    assert LowersToP(ts[2]);
    StrayPMatches();
    ResolveFromMatches(ts, 12, ClockFields(9, 0), 4, DateFields(1, 1, 23));
  }

  lemma StrayPMatches()
    ensures FindTime("Sep 1/1/23, 9:00 a.") == Some((12, ClockFields(9, 0)))
    ensures FindDate("Sep 1/1/23, 9:00 a.") == Some((4, DateFields(1, 1, 23)))
  {
    StrayPDate();
    StrayPTime();
  }

  lemma StrayPDate()
    ensures FindDate("Sep 1/1/23, 9:00 a.") == Some((4, DateFields(1, 1, 23)))
  {
    StrayPText();
    assert Avoids("Sep ", '/');
    FirstDateAfter("Sep ", 1, 1, 23, ", 9:00 a.");
  }

  lemma StrayPTime()
    ensures FindTime("Sep 1/1/23, 9:00 a.") == Some((12, ClockFields(9, 0)))
  {
    StrayPText();
    assert Avoids("Sep 1/1/23, ", ':');
    FirstTimeAfter("Sep 1/1/23, ", 9, 0, " a.");
  }

  lemma StrayPText()
    ensures "Sep " + (Show(1) + "/" + Show(1) + "/" + Show2(23) + ", 9:00 a.") == "Sep 1/1/23, 9:00 a."
    ensures "Sep 1/1/23, " + (Show(9) + ":" + Show2(0) + " a.") == "Sep 1/1/23, 9:00 a."
  {
    assert Show(1) == "1" && Show2(23) == "23" && Show(9) == "9" && Show2(0) == "00";
  }

  /**
   * A system notification (no ": ") on the free-text path: the whole
   * remainder, line break included, is the sender and the content is empty.
   */
  lemma {:induction false} NotificationExample(generic: string -> Option<DateTime>, date: DateTime)
    requires generic("1/1/23, 9:00 a.") == Some(date)
    ensures ProcessMessage("1/1/23, 9:00 a. - Ana salio del grupo\n", generic)
         == Ok(Some(Record(date, "Ana salio del grupo\n", "", 0)))
  {
    var ts := "1/1/23, 9:00 a.";
    var text := "Ana salio del grupo\n";
    var w := ts + " -";
    forall j | 0 <= j <= |w|
      ensures !OccursAt(w, HeaderSeparator, j)
    {
      if j + 3 <= |w| {
        assert w[j..j + 3][1] == w[j + 1];
      }
    }
    forall j | 0 <= j <= |text|
      ensures !OccursAt(text, SenderSeparator, j)
    {
      if j + 2 <= |text| {
        assert text[j..j + 2][0] == text[j];
      }
    }
    var message := ts + HeaderSeparator + text;
    assert IsWordChar(message[0]);
    ParseNotification(ts, text);
    NotificationJoin();
    AmTimestampExample();
  }

  lemma AmTimestampExample()
    ensures !IsPm("1/1/23, 9:00 a.")
  {
    var ts := "1/1/23, 9:00 a.";
    forall i | 0 <= i < |ts|
      ensures !LowersToP(ts[i])
    {
    }
  }

  lemma NotificationJoin()
    ensures "1/1/23, 9:00 a." + HeaderSeparator + "Ana salio del grupo\n" == "1/1/23, 9:00 a. - Ana salio del grupo\n"
  {
  }

  /** Text before the first header is a message of its own, and without " - " it ends the run. */
  lemma {:induction false} MalformedExample(generic: string -> Option<DateTime>)
    ensures ProcessChat(["hola\n"], generic) == Err(MalformedMessage("hola\n"))
  {
    var line: string := "hola\n";
    NoDigitNoHeader(line);
    FirstMessage(HasHeader, [line], 1);
    assert [line][..1] == [line];
    assert ConcatAll([line]) == line by {
      assert [line][..0] == [];
    }
    assert IsWordChar(line[0]);
    forall j | 0 <= j <= |line|
      ensures !OccursAt(line, HeaderSeparator, j)
    {
      if j + 3 <= |line| {
        assert line[j..j + 3][0] == line[j];
      }
    }
    assert ParseMessage(line) == Err(MalformedMessage(line));
    assert [line][..0] == [];
  }
}
