# Chat transcript parser — a Dafny model of `process_chat`

`wsp.py` reads an exported WhatsApp-style group chat and turns it into a table
of messages with the columns `date`, `sender`, `content` and `content_length`.
This project models `process_chat` (wsp.py lines 19-78) from the point where
the transcript's lines are in memory and already transliterated to ASCII. It
proves what each of its four stages does:

1. **Segmentation** (`Segmenter`). Physical lines are folded into logical
   messages. A line in which the header pattern
   `\d{1,2}/\d{1,2}/\d{2}[,]? \d{1,2}:\d{2}[\s]?[ap]\.` occurs anywhere closes
   the accumulated message and starts the next one. Any other line is appended
   to the accumulator. The accumulator starts empty and is always emitted at
   the end. The fold takes its header test as a parameter, and `process_chat`
   instantiates it with `Patterns.HasHeader`. So the segmentation lemmas hold
   for any header test, and the header pattern is treated separately in
   `Patterns` and `Render`.
2. **Message splitting** (`MessageParser`, `Strings`). A message without a
   word character is skipped. Any other message is split at the first `" - "`
   into the timestamp text and the rest. A missing `" - "` is an error. The
   rest is split at the first `": "` into sender and content. Without one, the
   whole rest is the sender and the content is empty: this is the form of
   system notifications.
3. **Timestamp resolution** (`Timestamp`, `Patterns`, `Calendar`). If the
   lower-cased timestamp text contains a `p` anywhere, the 12-hour path takes
   the hour and minute from the leftmost `(\d{1,2}):(\d{2})` match. It takes
   the day, month and two-digit year from the leftmost
   `(\d{1,2})/(\d{1,2})/(\d{2})` match. It then adds 12 to any hour but 12,
   adds 2000 to the year, and builds a date and time with the range checks of
   Python's `datetime.datetime`, leap years included. Every other timestamp
   goes to a free-text date parser, which is a parameter of the model.
4. **Record assembly** (`Chat`). Each processed message becomes a record. The
   records keep message order, and `contentLength == |content|`.

Python's regular expressions are written as anchored matchers on a suffix of
the searched text. `re.search` is the leftmost start position at which the
matcher succeeds (`Patterns.Leftmost`). The `{1,2}` quantifier first tries two
digits and then backtracks to one, which `Patterns.Or` expresses. Because the
input is ASCII after transliteration, the character classes are the ASCII ones:
- `\d` is `0-9`;
- `\w` is `[A-Za-z0-9_]`;
- `\s` is space, `\t`..`\r`, and the separators `\x1c`..`\x1f`.

An exception raised inside `process_chat` ends the run, and no table is
returned. The model therefore returns a `Result`, whose error is that of the
first message that raises. These are the error cases:
- `MalformedMessage`: the tuple unpacking at wsp.py line 44 finds no `" - "`.
- `MissingTimestampField`: a `re.search` on the 12-hour path returns `None`, and `.group` is then called on it.
- `InvalidDateTime`: `datetime.datetime` rejects the fields.
- `UnparseableTimestamp`: the free-text parser fails.

The first exception ends the run: no message is skipped with a diagnostic.
On the 12-hour path, a missing match (`MissingTimestampField`) and an invalid
date (`InvalidDateTime`) are distinct failures, and both differ from a failure
of the free-text parser (`UnparseableTimestamp`).

The split round trip needs care because the `" - "` separator overlaps
itself. Splitting `ts + " - " + s + ": " + c` gives back `(ts, s, c)` when
`ts + " -"` contains no `" - "` and `s` contains no `": "`
(`MessageParser.ParseJoin`). The weaker side condition "`ts` contains no
`" - "`" is not enough: `MessageParser.OverlappingSeparator` shows the
timestamp `"x -"`, whose trailing `" -"` ends up in the sender. The export
never writes such a timestamp, so this is not a defect of the source.

Files:
- `wrappers.dfy`: `Option` and `Result`.
- `chars.dfy`: character classes.
- `errors.dfy`: the errors listed above.
- `strings.dfy`: first-occurrence search, `split(sep, 1)` and concatenation.
- `patterns.dfy`: the three regular expressions and `re.search`.
- `render.dfy`: how the export writes a header, and the lemmas that the patterns read it back.
- `calendar.dfy`: `datetime` validity.
- `message.dfy`: message splitting.
- `timestamp.dfy`: timestamp resolution.
- `segmenter.dfy`: segmentation.
- `chat.dfy`: `process_chat`.
- `examples.dfy`: worked transcripts.

## Model

| member | source | states |
|---|---|---|
| Segmenter.Segment | wsp.py:26-36 | the messages emitted are one more than the lines that pass the header test |
| Segmenter.SegmentLines | wsp.py:26-36 | the imperative loop, with its `messages.append` and `current_line +=`, yields exactly the messages of the fold, one more than the header lines |
| Segmenter.SegmentKeepsText | wsp.py:26-36 | concatenating the emitted messages in order gives back the concatenation of the input lines: no text is lost, duplicated or reordered |
| Segmenter.FirstMessage | wsp.py:26-35 | the first message is the concatenation of the lines before the first header line, so it is empty when the first line is a header; without any header line, the single message is the whole input |
| Segmenter.FirstStable | wsp.py:29-34 | once a header has been seen, later lines never change the first message |
| Segmenter.HeaderCounted | wsp.py:29-30 | a header line anywhere in the input produces a second message |
| Segmenter.SegmentStartsWithHeader | wsp.py:29-34 | every message after the first begins with a whole input line that contains the header pattern |
| Segmenter.Groups | wsp.py:26-36 | every input can be cut into consecutive groups: a leading group without header lines, then groups that each hold exactly one header line, as their first line |
| Segmenter.SegmentGroups | wsp.py:26-36 | for every such grouping of the input, message k is the concatenation of group k's lines, so no line without the header begins a message |
| Segmenter.HeaderStep | wsp.py:29-32 | a header line adds a message that consists of that line alone |
| Segmenter.JoinStep | wsp.py:33-34 | any other line is appended to the last message, and the earlier messages are left alone |
| Patterns.NoDigitNoHeader | wsp.py:29 | a line without digits never contains the header pattern |
| Patterns.Leftmost | wsp.py:53-61 | `re.search` reports a start position where the pattern matches, with what it matched; no earlier position matches; `None` means no position matches |
| Patterns.LeftmostUnique | wsp.py:53-61 | a match at position i with no match before i is the one `re.search` reports |
| Patterns.TimeNeedsColon | wsp.py:53-55 | a time match starts with a digit and has its ':' second or third |
| Patterns.DateNeedsSlash | wsp.py:56-61 | a date match starts with a digit and has its first '/' second or third |
| Render.TimeRoundTrip | wsp.py:53-55 | the time pattern reads back the hour and the zero-padded minute the export writes, whatever follows them |
| Render.DateRoundTrip | wsp.py:56-61 | the date pattern reads back the day, month and zero-padded two-digit year the export writes |
| Render.DateRecognised | wsp.py:29 | the header pattern accepts the export's date, with or without the comma, followed by any clock it accepts |
| Render.HeaderRecognised | wsp.py:29 | a header as the export writes it is found in a line, whatever precedes and follows it, with or without the comma and the space before `a.`/`p.` |
| Render.FirstTimeAfter | wsp.py:53-55 | after text with no ':' that does not end in a digit, the leftmost time match is the written clock, at the position where it starts |
| Render.FirstDateAfter | wsp.py:56-61 | after text with no '/' that does not end in a digit, the leftmost date match is the written date, at the position where it starts |
| Strings.IndexOf | wsp.py:44 | the first position at or after `from` where the separator occurs, or `None` when there is none |
| Strings.SplitOnce | wsp.py:44 | `split(sep, 1)` fails exactly when the separator is absent; otherwise it cuts at the first occurrence, and the two parts with the separator between them give back the input |
| Strings.SplitOnceJoin | wsp.py:44-46 | splitting `a + sep + b` gives back `(a, b)` when no occurrence of sep ends inside `a + sep` before the inserted one |
| Strings.SplitOnceAt | wsp.py:44-46 | splitting cuts at whichever position is known to be the first occurrence |
| MessageParser.SplitSender | wsp.py:45-49 | with a ": ", sender is the text before its first occurrence and content the text after it; without one, sender is the whole rest and content is empty |
| MessageParser.ParseMessage | wsp.py:41-49 | a message is skipped exactly when it has no word character; it fails exactly when it has one but no " - "; otherwise the timestamp is the text before the first " - " and sender/content split the text after it |
| MessageParser.ParseJoin | wsp.py:44-49 | a message written as timestamp " - " sender ": " content parses back into those three fields when `timestamp + " -"` holds no " - " and the sender holds no ": " |
| MessageParser.ParseNotification | wsp.py:44-49 | a notification written as timestamp " - " text, with no ": " in the text, parses with the text as sender and an empty content |
| MessageParser.OverlappingSeparator | wsp.py:44 | a timestamp with no " - " of its own but ending in " -" does not survive the split: the first " - " is found one character early |
| Calendar.DaysInMonth | wsp.py:68-69 | the Gregorian month table: 31 days exactly for January, March, May, July, August, October and December; 30 exactly for April, June, September and November; 29 exactly for February of a leap year; 28 exactly for February of a common year |
| Calendar.MakeDateTime | wsp.py:68-69 | `datetime.datetime(year, month, day, hour, minute)` succeeds exactly when every field is in range, and then holds those fields with second 0 |
| Calendar.YearLength | wsp.py:68-69 | the month lengths add up to 366 days in a leap year and 365 otherwise |
| Timestamp.ResolvePm | wsp.py:51-69 | a successful 12-hour resolution is a valid date and time in the afternoon (hour 12 to 23) of a year from 2000 to 2099, with second 0 |
| Timestamp.PmFields | wsp.py:62-69 | once the fields are read, the result succeeds exactly when the clock hour is at most 12, the minute at most 59, the month 1 to 12 and the day exists in that month of 20YY; the hour becomes 12 for clock hour 12 and clock hour plus 12 otherwise; failure is `InvalidDateTime` |
| Timestamp.ResolvePmFields | wsp.py:53-69 | given the leftmost time and date matches, the 12-hour path succeeds or fails exactly as stated for `PmFields`, with minute, day and month passed through and the year plus 2000 |
| Timestamp.ResolveFromMatches | wsp.py:53-69 | the same outcome, stated in terms of what `re.search` reports |
| Timestamp.ResolvePmMissing | wsp.py:53-61 | when either pattern matches nowhere, the 12-hour path fails with `MissingTimestampField` |
| Timestamp.Resolve | wsp.py:51-71 | a text with a 'p' or 'P' anywhere takes the 12-hour path; any other text gets the free-text parser's date, or `UnparseableTimestamp` when that parser fails |
| Timestamp.RenderedIsPm | wsp.py:51 | a header the export writes contains a 'p' exactly when it is a p.m. time |
| Timestamp.PmRendered | wsp.py:51-69 | a p.m. header as the export writes it resolves to its own day and month in 20YY and its clock hour plus 12 (12 stays 12), or fails with `InvalidDateTime` when that is no calendar date and time |
| Timestamp.ResolveRendered | wsp.py:51-71 | such a p.m. header never reaches the free-text parser |
| Timestamp.RenderedMatches | wsp.py:53-61 | in such a header, the leftmost date match is the date at position 0, and the leftmost time match is the clock after the date and its separator |
| Chat.ProcessMessage | wsp.py:39-74 | a message yields no record exactly when it has no word character; its split error is passed on unchanged; when the timestamp does not resolve, the resolution's error is the one reported, and when it resolves the record carries that date; a record holds the parsed sender and content, the resolved timestamp, and `contentLength` equal to the length of `content` |
| Chat.ProcessMessages | wsp.py:38-74 | a successful run yields one record per message with a word character, each with `contentLength` equal to the length of `content` |
| Chat.ProcessChat | wsp.py:26-78 | `process_chat` yields at most one record more than there are header lines, and every record's `contentLength` is the length of its content |
| Chat.KeptIndices | wsp.py:41-43 | the messages that are not skipped, in increasing position, and every message with a word character among them |
| Chat.ProcessOrder | wsp.py:38-74 | record k is what the k-th non-skipped message yields: nothing is sorted, merged or dropped |
| Chat.ProcessSucceeds | wsp.py:38-74 | the run succeeds exactly when no message raises |
| Chat.ProcessFirstError | wsp.py:38-74 | a failed run reports the error of the first message that raises, and every earlier message succeeds |
| Examples.PmExample | wsp.py:51-69 | "15/3/23, 11:45 p." resolves to 23:45 on 15 March 2023 |
| Examples.NoonExample | wsp.py:62-64 | "12:05 p." stays at hour 12 |
| Examples.HourOutOfRangeExample | wsp.py:62-69 | a clock hour of 13 becomes 25 and the timestamp is rejected |
| Examples.DayOutOfRangeExample | wsp.py:68-69 | 31 April is rejected |
| Examples.LeapDayExample | wsp.py:68-69 | 29 February 2024 is accepted |
| Examples.CommonYearExample | wsp.py:68-69 | 29 February 2023 is rejected |
| Examples.StrayPExample | wsp.py:51-69 | an a.m. timestamp preceded by "Sep" is resolved as p.m. because of the stray 'p' |
| Examples.AmTimestampExample | wsp.py:51 | an a.m. header holds no 'p' and takes the free-text path |
| Examples.HeaderLineExample | wsp.py:29 | a header line is recognised |
| Examples.ContinuationLineExample | wsp.py:29 | a line of message text is not a header line |
| Examples.SegmentExample | wsp.py:26-36 | a header line and a continuation line give the empty leading message and one two-line message |
| Examples.SegmentTwoLines | wsp.py:26-36 | the same for any header line followed by any other line |
| Examples.ParseExample | wsp.py:44-49 | that message splits into its timestamp, sender "Ana" and two-line content |
| Examples.RecordExample | wsp.py:39-74 | that message becomes the record for 23:45 on 15 March 2023 with its content length |
| Examples.MultiLineExample | wsp.py:26-77 | the two-line transcript gives a single record whose content spans both lines |
| Examples.TwoMessages | wsp.py:39-43 | the empty leading message is skipped and the second message gives the only record |
| Examples.NotificationExample | wsp.py:44-71 | an a.m. notification without ": " becomes a record with the notification text as sender, empty content and the free-text parser's date |
| Examples.MalformedExample | wsp.py:26-44 | a transcript whose only line has no header and no " - " ends the run with `MalformedMessage` |

## Left out

- Reading the file and decoding it as UTF-8 (wsp.py lines 21-22) are I/O. The model starts from the sequence of lines.
- Transliteration by `unidecode` (wsp.py line 24) uses a library table that is not part of this model. The lines are taken as already transliterated, so only ASCII character classes are modelled.
- Logging (wsp.py lines 15-16, 20, 23, 25, 31, 36-37, 40, 42) has no effect on the result.
- The free-text parser `dateutil.parser.parse` (wsp.py line 71) is a library that is not part of this model. It is the parameter `generic`, whose date is passed through and whose failure becomes `UnparseableTimestamp`.
- The pandas `DataFrame` construction and `concat` (wsp.py lines 38, 72-74) are modelled as appending to a sequence of records. Column types and the index are not modelled.
- `pd.to_datetime` (wsp.py line 76) is applied to values that are already date-times. The conversion to pandas timestamps is not modelled.
- Calendar.MakeDateTime: microseconds and time zones are left out. The model never sets them, and the source leaves them at their defaults.
- Timestamp.ResolvePm: the exception types are not modelled. The errors record which check failed: a `None` match raises `AttributeError`, and `datetime` raises `ValueError`.
- The plotting functions `plot_*` (wsp.py lines 81-198) are aggregation and charting over the finished table.
- The module-level script (wsp.py lines 201-210) is I/O and wiring.
