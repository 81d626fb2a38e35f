/**
 * Folding physical lines into logical messages (wsp.py lines 26-36): a line
 * in which the header pattern occurs closes the accumulated message and
 * starts the next one; any other line is appended to the accumulator.
 *
 * The header test is a parameter `isHeader`; `process_chat` uses the
 * header pattern, `Patterns.HasHeader`. Nothing here depends on which
 * lines it accepts.
 */
module Segmenter {
  import opened Strings

  /** How many lines pass the header test. */
  function CountHeaders(isHeader: string -> bool, lines: seq<string>): nat {
    if |lines| == 0 then 0
    else CountHeaders(isHeader, lines[..|lines| - 1]) + (if isHeader(lines[|lines| - 1]) then 1 else 0)
  }

  /**
   * The messages appended by the loop followed by the final accumulator, as
   * a left fold over the lines. The accumulator starts empty, so a first
   * line with a header emits an empty first message.
   */
  function Segment(isHeader: string -> bool, lines: seq<string>): (messages: seq<string>)
    ensures |messages| == 1 + CountHeaders(isHeader, lines)
  {
    if |lines| == 0 then [""]
    else
      var previous := Segment(isHeader, lines[..|lines| - 1]);
      var line := lines[|lines| - 1];
      if isHeader(line) then previous + [line]
      else previous[..|previous| - 1] + [previous[|previous| - 1] + line]
  }

  /** The loop of `process_chat`, statement for statement. */
  method SegmentLines(isHeader: string -> bool, lines: seq<string>) returns (messages: seq<string>)
    ensures messages == Segment(isHeader, lines)
    ensures |messages| == 1 + CountHeaders(isHeader, lines)
  {
    messages := [];
    var current := "";
    for i := 0 to |lines|
      invariant messages + [current] == Segment(isHeader, lines[..i])
    {
      assert lines[..i + 1][..i] == lines[..i];
      var line := lines[i];
      if isHeader(line) {
        messages := messages + [current];
        current := line;
      } else {
        current := current + line;
      }
    }
    assert lines[..|lines|] == lines;
    messages := messages + [current];
  }

  /** Segmentation loses, duplicates and reorders no text. */
  lemma {:induction false} SegmentKeepsText(isHeader: string -> bool, lines: seq<string>)
    ensures ConcatAll(Segment(isHeader, lines)) == ConcatAll(lines)
  {
    if |lines| > 0 {
      var init := lines[..|lines| - 1];
      var line := lines[|lines| - 1];
      var previous := Segment(isHeader, init);
      SegmentKeepsText(isHeader, init);
      if isHeader(line) {
        ConcatAllSnoc(previous, line);
      } else {
        ConcatAllExtendLast(previous, line);
      }
    }
  }

  /**
   * The first message is whatever precedes the first header line: all the
   * lines before index `first`, where `first` is the first header line (or
   * the end of the input).
   */
  lemma {:induction false} FirstMessage(isHeader: string -> bool, lines: seq<string>, first: nat)
    requires first <= |lines|
    requires forall i :: 0 <= i < first ==> !isHeader(lines[i])
    requires first < |lines| ==> isHeader(lines[first])
    ensures Segment(isHeader, lines)[0] == ConcatAll(lines[..first])
    ensures first == |lines| ==> Segment(isHeader, lines) == [ConcatAll(lines)]
  {
    if |lines| > 0 {
      var init := lines[..|lines| - 1];
      var line := lines[|lines| - 1];
      if first == |lines| {
        FirstMessage(isHeader, init, first - 1);
        assert init[..first - 1] == init;
        assert lines[..first] == lines;
        assert !isHeader(line);
        assert Segment(isHeader, lines) == [ConcatAll(init) + line];
      } else {
        FirstMessage(isHeader, init, first);
        assert init[..first] == lines[..first];
        if first < |lines| - 1 {
          HeaderCounted(isHeader, init, first);
        }
        FirstStable(isHeader, lines);
      }
    }
  }

  /** Once a header has been seen, later lines leave the first message alone. */
  lemma {:induction false} FirstStable(isHeader: string -> bool, lines: seq<string>)
    requires |lines| > 0
    requires isHeader(lines[|lines| - 1]) || CountHeaders(isHeader, lines[..|lines| - 1]) >= 1
    ensures Segment(isHeader, lines)[0] == Segment(isHeader, lines[..|lines| - 1])[0]
  {
  }

  /** A header line anywhere means at least one header is counted. */
  lemma {:induction false} HeaderCounted(isHeader: string -> bool, lines: seq<string>, i: nat)
    requires i < |lines| && isHeader(lines[i])
    ensures CountHeaders(isHeader, lines) >= 1
  {
    if i < |lines| - 1 {
      HeaderCounted(isHeader, lines[..|lines| - 1], i);
    }
  }

  /**
   * Every message after the first begins with a whole input line that
   * contains the header pattern.
   */
  lemma {:induction false} SegmentStartsWithHeader(isHeader: string -> bool, lines: seq<string>)
    ensures forall k :: 1 <= k < |Segment(isHeader, lines)| ==>
              exists line :: line in lines && isHeader(line) && line <= Segment(isHeader, lines)[k]
  {
    if |lines| > 0 {
      var init := lines[..|lines| - 1];
      var line := lines[|lines| - 1];
      var previous := Segment(isHeader, init);
      var messages := Segment(isHeader, lines);
      SegmentStartsWithHeader(isHeader, init);
      assert forall x :: x in init ==> x in lines;
      forall k | 1 <= k < |messages|
        ensures exists h :: h in lines && isHeader(h) && h <= messages[k]
      {
        if k < |previous| - 1 || (isHeader(line) && k < |previous|) {
          assert messages[k] == previous[k];
          assert 1 <= k < |Segment(isHeader, init)|;
          var h :| h in init && isHeader(h) && h <= previous[k];
        } else if isHeader(line) {
          assert messages[k] == line;
          assert line in lines;
        } else {
          assert messages[k] == previous[k] + line;
          assert 1 <= k < |Segment(isHeader, init)|;
          var h :| h in init && isHeader(h) && h <= previous[k];
          assert h <= messages[k];
        }
      }
    } else {
      assert |Segment(isHeader, lines)| == 1;
    }
  }

  // -----------------------------------------------------------------------
  // A declarative description of the segmentation.

  /** The lines of all groups, in order. */
  function Flatten(groups: seq<seq<string>>): seq<string> {
    if |groups| == 0 then [] else Flatten(groups[..|groups| - 1]) + groups[|groups| - 1]
  }

  /** One string per group. */
  function ConcatEach(groups: seq<seq<string>>): (texts: seq<string>)
    ensures |texts| == |groups|
    ensures forall k :: 0 <= k < |groups| ==> texts[k] == ConcatAll(groups[k])
  {
    if |groups| == 0 then [] else ConcatEach(groups[..|groups| - 1]) + [ConcatAll(groups[|groups| - 1])]
  }

  /**
   * Lines grouped into messages the way the transcript format intends: the
   * leading group holds no header line, and every later group holds exactly
   * one, as its first line.
   */
  predicate WellGrouped(isHeader: string -> bool, groups: seq<seq<string>>) {
    && |groups| >= 1
    && HeaderFree(isHeader, groups[0])
    && forall k :: 1 <= k < |groups| ==> OpensWithHeader(isHeader, groups[k])
  }

  /** No line of `group` contains the header pattern. */
  predicate HeaderFree(isHeader: string -> bool, group: seq<string>) {
    forall j :: 0 <= j < |group| ==> !isHeader(group[j])
  }

  /** A header line followed by lines without one. */
  predicate OpensWithHeader(isHeader: string -> bool, group: seq<string>) {
    |group| >= 1 && isHeader(group[0]) && HeaderFree(isHeader, group[1..])
  }

  /** Every input has a well-formed grouping. */
  ghost function Groups(isHeader: string -> bool, lines: seq<string>): (groups: seq<seq<string>>)
    ensures WellGrouped(isHeader, groups) && Flatten(groups) == lines
  {
    if |lines| == 0 then [[]]
    else
      var previous := Groups(isHeader, lines[..|lines| - 1]);
      var line := lines[|lines| - 1];
      assert lines == lines[..|lines| - 1] + [line];
      if isHeader(line) then
        WellGroupedOpen(isHeader, previous, line);
        FlattenSnoc(previous, [line]);
        previous + [[line]]
      else
        WellGroupedExtend(isHeader, previous, line);
        FlattenExtendLast(previous, line);
        previous[..|previous| - 1] + [previous[|previous| - 1] + [line]]
  }

  lemma {:induction false} FlattenSnoc(groups: seq<seq<string>>, group: seq<string>)
    ensures Flatten(groups + [group]) == Flatten(groups) + group
  {
    assert (groups + [group])[..|groups|] == groups;
  }

  lemma {:induction false} FlattenExtendLast(groups: seq<seq<string>>, line: string)
    requires |groups| >= 1
    ensures Flatten(groups[..|groups| - 1] + [groups[|groups| - 1] + [line]]) == Flatten(groups) + [line]
  {
    var n := |groups|;
    var before := groups[..n - 1];
    var last := groups[n - 1];
    FlattenSnoc(before, last + [line]);
    FlattenSnoc(before, last);
    assert groups == before + [last];
    var prefix := Flatten(before);
    assert prefix + (last + [line]) == (prefix + last) + [line];
  }

  lemma {:induction false} ConcatEachSnoc(groups: seq<seq<string>>, group: seq<string>)
    ensures ConcatEach(groups + [group]) == ConcatEach(groups) + [ConcatAll(group)]
  {
    assert (groups + [group])[..|groups|] == groups;
  }

  /** A header line opens a new group. */
  lemma {:induction false} WellGroupedOpen(isHeader: string -> bool, groups: seq<seq<string>>, line: string)
    requires WellGrouped(isHeader, groups) && isHeader(line)
    ensures WellGrouped(isHeader, groups + [[line]])
  {
  }

  /** Any other line joins the last group. */
  lemma {:induction false} WellGroupedExtend(isHeader: string -> bool, groups: seq<seq<string>>, line: string)
    requires WellGrouped(isHeader, groups) && !isHeader(line)
    ensures WellGrouped(isHeader, groups[..|groups| - 1] + [groups[|groups| - 1] + [line]])
  {
  }

  /** Dropping a last group that is not the leading one leaves a well-formed grouping. */
  lemma {:induction false} WellGroupedDropLast(isHeader: string -> bool, groups: seq<seq<string>>)
    requires WellGrouped(isHeader, groups) && |groups| >= 2
    ensures WellGrouped(isHeader, groups[..|groups| - 1])
  {
  }

  /** Dropping the last line of the last group, when that line is no header, leaves a well-formed grouping. */
  lemma {:induction false} WellGroupedShorten(isHeader: string -> bool, groups: seq<seq<string>>)
    requires WellGrouped(isHeader, groups)
    requires |groups[|groups| - 1]| >= 1
    requires !isHeader(groups[|groups| - 1][|groups[|groups| - 1]| - 1])
    ensures var last := groups[|groups| - 1];
            WellGrouped(isHeader, groups[..|groups| - 1] + [last[..|last| - 1]])
  {
  }

  /**
   * The segmenter emits exactly one message per group of any well-formed
   * grouping of its input: the concatenation of that group's lines.
   */
  lemma {:induction false} SegmentGroups(isHeader: string -> bool, lines: seq<string>, groups: seq<seq<string>>)
    requires WellGrouped(isHeader, groups) && Flatten(groups) == lines
    ensures Segment(isHeader, lines) == ConcatEach(groups)
    decreases |lines|
  {
    var n := |groups|;
    var last := groups[n - 1];
    var before := groups[..n - 1];
    if |last| == 0 {
      EmptyLastGroup(isHeader, lines, groups);
    } else {
      LastLine(isHeader, lines, groups);
      var init := lines[..|lines| - 1];
      var line := lines[|lines| - 1];
      var shorter := last[..|last| - 1];
      if isHeader(line) {
        WellGroupedDropLast(isHeader, groups);
        SegmentGroups(isHeader, init, before);
        HeaderStep(isHeader, lines, before);
      } else {
        var groups' := before + [shorter];
        WellGroupedShorten(isHeader, groups);
        FlattenSnoc(before, shorter);
        SegmentGroups(isHeader, init, groups');
        JoinStep(isHeader, lines, before, shorter);
      }
    }
  }

  /** A well-formed grouping whose last group is empty is the grouping of no lines. */
  lemma {:induction false} EmptyLastGroup(isHeader: string -> bool, lines: seq<string>, groups: seq<seq<string>>)
    requires WellGrouped(isHeader, groups) && Flatten(groups) == lines
    requires |groups[|groups| - 1]| == 0
    ensures Segment(isHeader, lines) == ConcatEach(groups)
  {
    var n := |groups|;
    assert n == 1;
    assert groups == groups[..0] + [[]];
    FlattenSnoc(groups[..0], []);
    assert ConcatEach(groups) == [ConcatAll([])];
  }

  /**
   * The last line of the input is the last line of the last group; the lines
   * before it are the other groups followed by the rest of the last group,
   * and when it is a header line it is the whole of a later group.
   */
  lemma {:induction false} LastLine(isHeader: string -> bool, lines: seq<string>, groups: seq<seq<string>>)
    requires WellGrouped(isHeader, groups) && Flatten(groups) == lines
    requires |groups[|groups| - 1]| > 0
    ensures |lines| > 0
    ensures var last := groups[|groups| - 1];
      && groups == groups[..|groups| - 1] + [last[..|last| - 1] + [lines[|lines| - 1]]]
      && lines[..|lines| - 1] == Flatten(groups[..|groups| - 1]) + last[..|last| - 1]
    ensures isHeader(lines[|lines| - 1]) ==>
      && |groups| >= 2
      && groups == groups[..|groups| - 1] + [[lines[|lines| - 1]]]
      && lines[..|lines| - 1] == Flatten(groups[..|groups| - 1])
  {
    LastLineShape(lines, groups);
    var last := groups[|groups| - 1];
    assert |groups| >= 2 ==> OpensWithHeader(isHeader, last);
    if isHeader(lines[|lines| - 1]) {
      assert |last| == 1;
      assert last[..0] == [];
      assert Flatten(groups[..|groups| - 1]) + [] == Flatten(groups[..|groups| - 1]);
    }
  }

  lemma {:induction false} LastLineShape(lines: seq<string>, groups: seq<seq<string>>)
    requires |groups| >= 1 && Flatten(groups) == lines
    requires |groups[|groups| - 1]| > 0
    ensures |lines| > 0
    ensures var last := groups[|groups| - 1];
      && groups == groups[..|groups| - 1] + [last[..|last| - 1] + [lines[|lines| - 1]]]
      && lines[..|lines| - 1] == Flatten(groups[..|groups| - 1]) + last[..|last| - 1]
  {
    var n := |groups|;
    var last := groups[n - 1];
    var before := groups[..n - 1];
    assert groups == before + [last];
    FlattenSnoc(before, last);
    var shorter := last[..|last| - 1];
    assert last == shorter + [last[|last| - 1]];
    assert lines == (Flatten(before) + shorter) + [last[|last| - 1]];
    assert lines[|lines| - 1] == last[|last| - 1];
  }

  /** A header line appends its own message. */
  lemma {:induction false} HeaderStep(isHeader: string -> bool, lines: seq<string>, before: seq<seq<string>>)
    requires |lines| > 0 && isHeader(lines[|lines| - 1])
    requires Segment(isHeader, lines[..|lines| - 1]) == ConcatEach(before)
    ensures Segment(isHeader, lines) == ConcatEach(before + [[lines[|lines| - 1]]])
  {
    var line := lines[|lines| - 1];
    ConcatEachSnoc(before, [line]);
    assert ConcatAll([line]) == line by {
      assert [line][..0] == [];
    }
  }

  /** Any other line extends the last message. */
  lemma {:induction false} JoinStep(isHeader: string -> bool, lines: seq<string>, before: seq<seq<string>>, shorter: seq<string>)
    requires |lines| > 0 && !isHeader(lines[|lines| - 1])
    requires Segment(isHeader, lines[..|lines| - 1]) == ConcatEach(before + [shorter])
    ensures Segment(isHeader, lines) == ConcatEach(before + [shorter + [lines[|lines| - 1]]])
  {
    var line := lines[|lines| - 1];
    var last := shorter + [line];
    ConcatEachSnoc(before, shorter);
    ConcatEachSnoc(before, last);
    assert last[..|last| - 1] == shorter;
    assert ConcatAll(last) == ConcatAll(shorter) + line;
    var previous := Segment(isHeader, lines[..|lines| - 1]);
    assert previous[..|before|] == ConcatEach(before);
  }
}
