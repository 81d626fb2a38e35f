/**
 * `process_chat` from the point where the transliterated lines are in
 * memory: segmentation, per-message parsing and timestamp resolution, and
 * the ordered table of records (wsp.py lines 26-78).
 */
module Chat {
  import opened Wrappers
  import opened Patterns
  import opened Calendar
  import opened Errors
  import opened MessageParser
  import opened Timestamp
  import opened Segmenter

  /** One row of the resulting table: `date`, `sender`, `content`, `content_length`. */
  datatype Record = Record(date: DateTime, sender: string, content: string, contentLength: nat)

  /**
   * One iteration of the message loop: skipped (`Ok(None)`), a record, or
   * the exception that ends the run.
   */
  function ProcessMessage(message: string, generic: string -> Option<DateTime>): (r: Result<Option<Record>, Error>)
    ensures r == Ok(None) <==> !HasWordChar(message)
    ensures ParseMessage(message).Err? ==> r == Err(ParseMessage(message).error)
    ensures r.Ok? && r.value.Some? ==>
              var rec := r.value.value;
              var t := ParseMessage(message).value.value;
              && ParseMessage(message) == Ok(Some(Triple(t.timestamp, rec.sender, rec.content)))
              && Resolve(t.timestamp, generic) == Ok(rec.date)
              && rec.contentLength == |rec.content|
    ensures ParseMessage(message).Ok? && ParseMessage(message).value.Some? ==>
              var ts := ParseMessage(message).value.value.timestamp;
              && (Resolve(ts, generic).Err? ==> r == Err(Resolve(ts, generic).error))
              && (Resolve(ts, generic).Ok? ==> r.Ok? && r.value.Some? && r.value.value.date == Resolve(ts, generic).value)
  {
    match ParseMessage(message)
    case Err(e) => Err(e)
    case Ok(None) => Ok(None)
    case Ok(Some(t)) =>
      match Resolve(t.timestamp, generic)
      case Err(e) => Err(e)
      case Ok(date) => Ok(Some(Record(date, t.sender, t.content, |t.content|)))
  }

  /** How many messages hold a word character, i.e. are not skipped. */
  function CountKept(messages: seq<string>): nat {
    if |messages| == 0 then 0
    else CountKept(messages[..|messages| - 1]) + (if HasWordChar(messages[|messages| - 1]) then 1 else 0)
  }

  /**
   * The message loop with its `pd.concat` appends: records in message order,
   * stopping at the first exception.
   */
  function ProcessMessages(messages: seq<string>, generic: string -> Option<DateTime>): (r: Result<seq<Record>, Error>)
    ensures r.Ok? ==> |r.value| == CountKept(messages)
    ensures r.Ok? ==> forall k :: 0 <= k < |r.value| ==> r.value[k].contentLength == |r.value[k].content|
  {
    if |messages| == 0 then Ok([])
    else
      match ProcessMessages(messages[..|messages| - 1], generic)
      case Err(e) => Err(e)
      case Ok(records) =>
        match ProcessMessage(messages[|messages| - 1], generic)
        case Err(e) => Err(e)
        case Ok(None) => Ok(records)
        case Ok(Some(record)) => Ok(records + [record])
  }

  /** `process_chat` on lines already read and transliterated. */
  function ProcessChat(lines: seq<string>, generic: string -> Option<DateTime>): (r: Result<seq<Record>, Error>)
    ensures r.Ok? ==> |r.value| == CountKept(Segment(HasHeader, lines)) <= 1 + CountHeaders(HasHeader, lines)
    ensures r.Ok? ==> forall k :: 0 <= k < |r.value| ==> r.value[k].contentLength == |r.value[k].content|
  {
    CountKeptBound(Segment(HasHeader, lines));
    ProcessMessages(Segment(HasHeader, lines), generic)
  }

  lemma {:induction false} CountKeptBound(messages: seq<string>)
    ensures CountKept(messages) <= |messages|
  {
    if |messages| > 0 {
      CountKeptBound(messages[..|messages| - 1]);
    }
  }

  /** The positions of the messages that are not skipped, in increasing order. */
  function KeptIndices(messages: seq<string>): (indices: seq<nat>)
    ensures forall k :: 0 <= k < |indices| ==> indices[k] < |messages| && HasWordChar(messages[indices[k]])
    ensures forall k, l :: 0 <= k < l < |indices| ==> indices[k] < indices[l]
    ensures forall i :: 0 <= i < |messages| && HasWordChar(messages[i]) ==> i in indices
  {
    if |messages| == 0 then []
    else
      var n := |messages| - 1;
      KeptIndices(messages[..n]) + (if HasWordChar(messages[n]) then [n] else [])
  }

  /**
   * Records keep the order of their messages: the k-th record is what the
   * k-th non-skipped message yields, with nothing sorted, merged or dropped.
   */
  lemma {:induction false} ProcessOrder(messages: seq<string>, generic: string -> Option<DateTime>)
    requires ProcessMessages(messages, generic).Ok?
    ensures var records := ProcessMessages(messages, generic).value;
            && |records| == |KeptIndices(messages)|
            && forall k :: 0 <= k < |records| ==>
                 ProcessMessage(messages[KeptIndices(messages)[k]], generic) == Ok(Some(records[k]))
  {
    if |messages| > 0 {
      var n := |messages| - 1;
      var init := messages[..n];
      ProcessOrder(init, generic);
      RecordsStep(messages, generic);
      KeptStep(messages);
      PrefixIndices(messages, KeptIndices(init));
    }
  }

  /** The last message adds its record, if any, after those of the earlier messages. */
  lemma {:induction false} RecordsStep(messages: seq<string>, generic: string -> Option<DateTime>)
    requires |messages| > 0 && ProcessMessages(messages, generic).Ok?
    ensures var n := |messages| - 1;
            var last := ProcessMessage(messages[n], generic);
            && ProcessMessages(messages[..n], generic).Ok?
            && last.Ok? && (last.value.Some? <==> HasWordChar(messages[n]))
            && ProcessMessages(messages, generic).value
               == ProcessMessages(messages[..n], generic).value + (if last.value.Some? then [last.value.value] else [])
  {
  }

  /** The last message's position is kept after the earlier ones exactly when it holds a word character. */
  lemma {:induction false} KeptStep(messages: seq<string>)
    requires |messages| > 0
    ensures var n := |messages| - 1;
            KeptIndices(messages) == KeptIndices(messages[..n]) + (if HasWordChar(messages[n]) then [n] else [])
  {
  }

  /** Positions kept in a prefix name the same messages in the whole sequence. */
  lemma {:induction false} PrefixIndices(messages: seq<string>, indices: seq<nat>)
    requires |messages| > 0
    requires forall k :: 0 <= k < |indices| ==> indices[k] < |messages| - 1
    ensures forall k :: 0 <= k < |indices| ==> messages[indices[k]] == messages[..|messages| - 1][indices[k]]
  {
  }

  /** The run succeeds exactly when no message raises. */
  lemma {:induction false} ProcessSucceeds(messages: seq<string>, generic: string -> Option<DateTime>)
    ensures ProcessMessages(messages, generic).Ok? <==>
              forall i :: 0 <= i < |messages| ==> ProcessMessage(messages[i], generic).Ok?
  {
    if |messages| > 0 {
      var n := |messages| - 1;
      var init := messages[..n];
      ProcessSucceeds(init, generic);
      SucceedsStep(messages, generic);
      if ProcessMessages(messages, generic).Ok? {
        forall i | 0 <= i < |messages| ensures ProcessMessage(messages[i], generic).Ok? {
          if i < n {
            assert messages[i] == init[i];
          }
        }
      } else if ProcessMessages(init, generic).Ok? {
        assert !ProcessMessage(messages[n], generic).Ok?;
      } else {
        var i :| 0 <= i < n && !ProcessMessage(init[i], generic).Ok?;
        assert messages[i] == init[i];
      }
    }
  }

  lemma {:induction false} SucceedsStep(messages: seq<string>, generic: string -> Option<DateTime>)
    requires |messages| > 0
    ensures ProcessMessages(messages, generic).Ok? <==>
              ProcessMessages(messages[..|messages| - 1], generic).Ok?
              && ProcessMessage(messages[|messages| - 1], generic).Ok?
  {
  }

  /** A failed run reports the error of the first message that raises. */
  lemma {:induction false} ProcessFirstError(messages: seq<string>, generic: string -> Option<DateTime>)
    requires ProcessMessages(messages, generic).Err?
    ensures exists i :: 0 <= i < |messages|
              && ProcessMessage(messages[i], generic) == Err(ProcessMessages(messages, generic).error)
              && forall j :: 0 <= j < i ==> ProcessMessage(messages[j], generic).Ok?
  {
    var n := |messages| - 1;
    var init := messages[..n];
    assert forall i :: 0 <= i < n ==> messages[i] == init[i];
    if ProcessMessages(init, generic).Err? {
      ProcessFirstError(init, generic);
      var i :| 0 <= i < n && ProcessMessage(init[i], generic) == Err(ProcessMessages(init, generic).error)
               && forall j :: 0 <= j < i ==> ProcessMessage(init[j], generic).Ok?;
      assert ProcessMessage(messages[i], generic) == Err(ProcessMessages(messages, generic).error);
    } else {
      ProcessSucceeds(init, generic);
      assert ProcessMessage(messages[n], generic) == Err(ProcessMessages(messages, generic).error);
    }
  }
}
