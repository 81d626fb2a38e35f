/**
 * Splitting one logical message into timestamp text, sender and content
 * (wsp.py lines 41-49).
 */
module MessageParser {
  import opened Wrappers
  import opened Strings
  import opened Patterns
  import opened Errors

  datatype Triple = Triple(timestamp: string, sender: string, content: string)

  /** Between the timestamp and the rest of the message. */
  const HeaderSeparator: string := " - "

  /** Between the sender and the content. */
  const SenderSeparator: string := ": "

  /**
   * `sender, content = rest.split(': ', 1)`, with the `ValueError` handler
   * that keeps the whole remainder as the sender of an empty content.
   */
  function SplitSender(rest: string): (r: (string, string))
    ensures Contains(rest, SenderSeparator) ==> FirstAt(rest, SenderSeparator, |r.0|) && rest == r.0 + SenderSeparator + r.1
    ensures !Contains(rest, SenderSeparator) ==> r == (rest, "")
  {
    match SplitOnce(rest, SenderSeparator)
    case Some((sender, content)) => (sender, content)
    case None => (rest, "")
  }

  /**
   * One iteration of the message loop up to the timestamp: `Ok(None)` for a
   * message without a word character (skipped), an error when there is no
   * " - " to split at, otherwise the three fields.
   */
  function ParseMessage(message: string): (r: Result<Option<Triple>, Error>)
    ensures r == Ok(None) <==> !HasWordChar(message)
    ensures r.Err? <==> HasWordChar(message) && !Contains(message, HeaderSeparator)
    ensures r.Err? ==> r.error == MalformedMessage(message)
    ensures r.Ok? && r.value.Some? ==>
              var t := r.value.value;
              && FirstAt(message, HeaderSeparator, |t.timestamp|)
              && message == t.timestamp + HeaderSeparator + message[|t.timestamp| + 3..]
              && (t.sender, t.content) == SplitSender(message[|t.timestamp| + 3..])
  {
    if !HasWordChar(message) then Ok(None)
    else match SplitOnce(message, HeaderSeparator)
      case None => Err(MalformedMessage(message))
      case Some((timestamp, rest)) =>
        var (sender, content) := SplitSender(rest);
        assert message[|timestamp| + 3..] == rest;
        Ok(Some(Triple(timestamp, sender, content)))
  }

  /** ": " cannot overlap itself, so a trailing ':' never completes one. */
  lemma {:induction false} ColonSpaceNoBorder(s: string)
    requires !Contains(s, SenderSeparator)
    ensures !Contains(s + SenderSeparator[..1], SenderSeparator)
  {
    var w := s + SenderSeparator[..1];
    assert w[|s|] == ':';
    forall i | 0 <= i <= |w|
      ensures !OccursAt(w, SenderSeparator, i)
    {
      if OccursAt(w, SenderSeparator, i) {
        assert w[i + 1] == w[i..i + 2][1];
        assert w[i..i + 2] == s[i..i + 2];
        assert OccursAt(s, SenderSeparator, i);
      }
    }
  }

  /**
   * A message written as `timestamp - sender: content` parses back into
   * those three fields, when the timestamp followed by " -" holds no " - "
   * and the sender holds no ": ".
   */
  lemma {:induction false} ParseJoin(timestamp: string, sender: string, content: string)
    requires !Contains(timestamp + " -", HeaderSeparator)
    requires !Contains(sender, SenderSeparator)
    requires HasWordChar(timestamp + HeaderSeparator + sender + SenderSeparator + content)
    ensures ParseMessage(timestamp + HeaderSeparator + sender + SenderSeparator + content)
         == Ok(Some(Triple(timestamp, sender, content)))
  {
    var rest := sender + SenderSeparator + content;
    assert HeaderSeparator[..2] == " -";
    SplitOnceJoin(timestamp, HeaderSeparator, rest);
    assert timestamp + HeaderSeparator + rest == timestamp + HeaderSeparator + sender + SenderSeparator + content;
    ColonSpaceNoBorder(sender);
    SplitOnceJoin(sender, SenderSeparator, content);
  }

  /** A system notification, `timestamp - text` with no ": ", parses with the text as sender and empty content. */
  lemma {:induction false} ParseNotification(timestamp: string, text: string)
    requires !Contains(timestamp + " -", HeaderSeparator)
    requires !Contains(text, SenderSeparator)
    requires HasWordChar(timestamp + HeaderSeparator + text)
    ensures ParseMessage(timestamp + HeaderSeparator + text) == Ok(Some(Triple(timestamp, text, "")))
  {
    assert HeaderSeparator[..2] == " -";
    SplitOnceJoin(timestamp, HeaderSeparator, text);
  }

  /**
   * The side condition of `ParseJoin` cannot be weakened to "the timestamp
   * holds no ' - '": a timestamp ending in " -" loses that ending to the sender.
   */
  lemma OverlappingSeparator()
    ensures !Contains("x -", HeaderSeparator)
    ensures ParseMessage("x -" + HeaderSeparator + "a" + SenderSeparator + "b") == Ok(Some(Triple("x", "- a", "b")))
  {
    assert "x -"[0] != HeaderSeparator[0];
    OverlapText();
    OverlapHeader();
    OverlapSender();
  }

  lemma OverlapText()
    ensures "x -" + HeaderSeparator + "a" + SenderSeparator + "b" == "x - - a: b"
  {
  }

  /** The first " - " of "x - - a: b" is the one at index 1. */
  lemma OverlapHeader()
    ensures HasWordChar("x - - a: b")
    ensures SplitOnce("x - - a: b", HeaderSeparator) == Some(("x", "- a: b"))
  {
    var m := "x - - a: b";
    assert Chars.IsWordChar(m[0]);
    assert m[1..4] == HeaderSeparator && m[0..3][0] != HeaderSeparator[0];
    SplitOnceAt(m, HeaderSeparator, 1);
    assert m[..1] == "x" && m[4..] == "- a: b";
  }

  lemma OverlapSender()
    ensures SplitSender("- a: b") == ("- a", "b")
  {
    var rest := "- a: b";
    assert rest[3..5] == SenderSeparator;
    forall j | 0 <= j < 3
      ensures !OccursAt(rest, SenderSeparator, j)
    {
      assert rest[j..j + 2][0] == rest[j] != ':';
    }
    SplitOnceAt(rest, SenderSeparator, 3);
    assert rest[..3] == "- a" && rest[5..] == "b";
  }
}
