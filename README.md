# FreeStyle Optium Neo protocol engine in Dafny

This project models the part of the `thingtrack` USB reader that talks to an
Abbott FreeStyle Optium Neo glucose meter: the class
`FreeStyleOptiumNeoParser`. A session opens the meter, detaches the kernel
driver and claims the interface. It then sends a fixed sequence of commands
and reads each reply frame by frame until a frame holds `CMD OK`. Each reply
goes through a field parser that writes one entry of the parser's `values`
table. Finally the session releases the interface and re-attaches the kernel
driver.

Modules:

- `JavaText` gives the `java.lang.String` operations the parsers use:
  - `contains`;
  - `split` around one character, dropping trailing empty strings as Java does;
  - joining tokens.
- `Fields` gives the field parsers as pure functions:
  - the first line of a reply;
  - the `[2, length-1)` strip;
  - the date and time joins;
  - the readings of the result log, with a value of 1 stored as 0.

  It also holds the Java exceptions these parsers can raise.
- `Usb` replaces libusb with `ScriptedUsb`:
  - A class whose calls answer from fixed statuses and two scripts: the counts reported by control transfers and the outcomes of bulk reads.
  - Every call except the bulk reads is recorded in `calls`. The reads show in what is left of the read script `inbound`.
  - A script that has run out answers with `LIBUSB_ERROR_TIMEOUT`, so every read loop ends.
- `Replies` gives the closed form of the response accumulator:
  - where it stops;
  - what it returns in single mode and in multi mode.
- `OptiumNeo` holds the parser class. It has:
  - the `values` map;
  - `SendCommand` and `ExecuteCommand`, whose read loop carries invariants;
  - the seven `Parse*` methods, with `ParseResult` as a loop over the frames;
  - the command sequence `QueryDevice`, written out command by command as in
    the source and grouped into `Prime` (com01 and `TimeCommands`),
    `QueryFields` and the result log;
  - the session `Execute`, whose `try` block is `SetUpAndQuery` and whose
    `finally` block is `CleanUp`.

  It also holds the function `Run` that specifies a whole session, and the
  lemmas about it.

Three things are parameters of the parser object:

- the command payloads, because `FreestyleOptiumNeoProtocols` is not part of this model;
- `SimpleDateFormat.parse`, as a partial function from text to epoch milliseconds;
- `Float.parseFloat`, as a partial function from text to a number.

Behaviour of the code worth knowing:

- The strip `substring(2, len-1)` drops the first two characters and the last one. So a first line `"\x02A,B,C\x03"` is stored as `",B,C"`.
- The accumulator tests each frame on its own for `CMD OK`, not the text read so far. A terminator split across two frames is never seen.
- There are five priming commands, com01 to com05.
- A reply truncated by a failed read does not always pass through its parser. In single mode the accumulator returns an empty list, the `(String)` cast fails, and the session stops there.

## Model

| member | source | states |
|---|---|---|
| JavaText.Contains | src/main/java/com/thingtrack/parser/FreeStyleOptiumNeoParser.java:152 | `contains` holds exactly when the marker occurs at some position of the frame |
| JavaText.Split | src/main/java/com/thingtrack/parser/FreeStyleOptiumNeoParser.java:166 | `split`: no token holds the separator; a text without the separator comes back whole; otherwise the tokens are the pieces between separators with trailing empty pieces dropped, and the last token kept is non-empty |
| JavaText.SplitEmptyIff | src/main/java/com/thingtrack/parser/FreeStyleOptiumNeoParser.java:166-170 | `split` gives no token at all (so `lines[0]` throws) exactly when the text is a non-empty run of separators |
| JavaText.JoinPieces | src/main/java/com/thingtrack/parser/FreeStyleOptiumNeoParser.java:171 | re-joining the pieces of a text with the separator gives the text back |
| JavaText.PiecesJoin | src/main/java/com/thingtrack/parser/FreeStyleOptiumNeoParser.java:174 | splitting tokens joined by a separator that none of them contains gives the tokens back |
| Fields.FirstLine | src/main/java/com/thingtrack/parser/FreeStyleOptiumNeoParser.java:190 | `lines[0]`: the longest newline-free prefix of the reply; fails with ClassCast for a frame list and with IndexOutOfBounds exactly when the reply is only newlines |
| Fields.Strip | src/main/java/com/thingtrack/parser/FreeStyleOptiumNeoParser.java:192 | `substring(2, len-1)` succeeds exactly when the line has at least 3 characters, keeps `len-3` of them, and the line is the two dropped characters, the result and the dropped last one |
| Fields.StrippedLine | src/main/java/com/thingtrack/parser/FreeStyleOptiumNeoParser.java:189-211 | the value of the four simple fields: the first line minus its first two and its last character; it fails exactly when there is no first line or it is shorter than 3 |
| Fields.DateTextTokens | src/main/java/com/thingtrack/parser/FreeStyleOptiumNeoParser.java:165-175 | the date succeeds exactly when the stripped line has at least three comma tokens, and, when none of those three tokens contains '-', the stored date splits on '-' back into them |
| Fields.TimeTextTokens | src/main/java/com/thingtrack/parser/FreeStyleOptiumNeoParser.java:177-187 | the time succeeds exactly when the stripped line has at least two comma tokens, and, when neither of those two tokens contains ':', the stored time splits on ':' back into them |
| Fields.StoredValue | src/main/java/com/thingtrack/parser/FreeStyleOptiumNeoParser.java:224-226 | a reading of 1 is stored as 0, every other reading unchanged; no stored reading is 1 |
| Fields.MeasureOf | src/main/java/com/thingtrack/parser/FreeStyleOptiumNeoParser.java:219-227 | a line is skipped exactly when it has at most 8 comma tokens; a reading that is kept never has the value 1 |
| Fields.MeasuresKeepDataLines | src/main/java/com/thingtrack/parser/FreeStyleOptiumNeoParser.java:219-230 | the readings are the data lines (more than 8 comma tokens) in input order, one each, so there are no more readings than frames; each comes from its line's stamp tokens and token 8 |
| Fields.MeasuresFailIff | src/main/java/com/thingtrack/parser/FreeStyleOptiumNeoParser.java:222-224 | the result log fails exactly when the stamp or the value of some data line fails to parse |
| Replies.StopAt | src/main/java/com/thingtrack/parser/FreeStyleOptiumNeoParser.java:143-158 | the loop stops at the first read that fails or whose own frame holds `CMD OK`; every earlier read is a frame without it |
| Replies.SingleReply | src/main/java/com/thingtrack/parser/FreeStyleOptiumNeoParser.java:152-161 | single mode returns a string exactly when some frame holds the terminator before any read fails: the first such frame; otherwise the empty list |
| Replies.MultiReply | src/main/java/com/thingtrack/parser/FreeStyleOptiumNeoParser.java:149-160 | multi mode returns every frame the loop read, in read order: all frames before the stopping read, plus the stopping frame when it holds the terminator (so a failed read keeps the frames read before it); no frame but the last holds the terminator, and the last does exactly when the loop ended on it |
| OptiumNeo.SendCheck | src/main/java/com/thingtrack/parser/FreeStyleOptiumNeoParser.java:90-94 | the send passes exactly when the reported count equals the payload length; a negative count raises a libusb error with that count, any other count "not all data was sent" |
| OptiumNeo.FreeStyleOptiumNeoParser.constructor | src/main/java/com/thingtrack/parser/FreeStyleOptiumNeoParser.java:67-71 | a new parser has an empty table |
| OptiumNeo.FreeStyleOptiumNeoParser.SendCommand | src/main/java/com/thingtrack/parser/FreeStyleOptiumNeoParser.java:81-95 | one control transfer of the payload, then the verdict of the count check |
| OptiumNeo.FreeStyleOptiumNeoParser.ExecuteCommand | src/main/java/com/thingtrack/parser/FreeStyleOptiumNeoParser.java:133-162 | a failed send raises before any read; otherwise the reply is the accumulator's closed form on the read script, and exactly the reads up to the stopping one are used up |
| OptiumNeo.FreeStyleOptiumNeoParser.ParseSerlnum | src/main/java/com/thingtrack/parser/FreeStyleOptiumNeoParser.java:189-193 | stores the stripped first line under "serlnum", or raises and leaves the table unchanged |
| OptiumNeo.FreeStyleOptiumNeoParser.ParseSwver | src/main/java/com/thingtrack/parser/FreeStyleOptiumNeoParser.java:195-199 | stores the stripped first line under "swver", or raises and leaves the table unchanged |
| OptiumNeo.FreeStyleOptiumNeoParser.ParsePtname | src/main/java/com/thingtrack/parser/FreeStyleOptiumNeoParser.java:201-205 | stores the stripped first line under "ptname", or raises and leaves the table unchanged |
| OptiumNeo.FreeStyleOptiumNeoParser.ParsePtid | src/main/java/com/thingtrack/parser/FreeStyleOptiumNeoParser.java:207-211 | stores the stripped first line under "ptid", or raises and leaves the table unchanged |
| OptiumNeo.FreeStyleOptiumNeoParser.ParseDate | src/main/java/com/thingtrack/parser/FreeStyleOptiumNeoParser.java:165-175 | stores the first three comma tokens joined by '-' under "date", or raises and leaves the table unchanged |
| OptiumNeo.FreeStyleOptiumNeoParser.ParseTime | src/main/java/com/thingtrack/parser/FreeStyleOptiumNeoParser.java:177-187 | stores the first two comma tokens joined by ':' under "time", or raises and leaves the table unchanged |
| OptiumNeo.FreeStyleOptiumNeoParser.ParseResult | src/main/java/com/thingtrack/parser/FreeStyleOptiumNeoParser.java:214-233 | the loop builds the result log, whose properties are proved in `Fields`, and replaces "result" with it; the first failing line aborts it with the table unchanged; a single-string reply fails the cast |
| OptiumNeo.FreeStyleOptiumNeoParser.Parsed | src/main/java/com/thingtrack/parser/FreeStyleOptiumNeoParser.java:283-316 | a priming command's reply is dropped and never raises; every other command yields a value for its key, readings for the result log only |
| OptiumNeo.FreeStyleOptiumNeoParser.Parse | src/main/java/com/thingtrack/parser/FreeStyleOptiumNeoParser.java:298-316 | the parser a line hands its reply to: the table changes under that command's key only, as `Parsed` says, or the parser's exception is raised; a priming command's reply is dropped |
| OptiumNeo.FreeStyleOptiumNeoParser.RunStep | src/main/java/com/thingtrack/parser/FreeStyleOptiumNeoParser.java:298 | one `parse(executeCommand(...))` line: one send, the table changed only under the command's key by its parser, or the exception of the send or of the parser |
| OptiumNeo.FreeStyleOptiumNeoParser.Run | src/main/java/com/thingtrack/parser/FreeStyleOptiumNeoParser.java:283-325 | the session issues at most all the commands, issues all of them when none raises, and counts the raising command as issued |
| OptiumNeo.FreeStyleOptiumNeoParser.QueryDevice | src/main/java/com/thingtrack/parser/FreeStyleOptiumNeoParser.java:283-316 | the command sequence leaves the table and the scripts as `Run` says; the handle sees exactly the sends of the issued commands, in order |
| OptiumNeo.FreeStyleOptiumNeoParser.Issue | src/main/java/com/thingtrack/parser/FreeStyleOptiumNeoParser.java:283-316 | one line of the sequence moves the session one command further, as `Run` says, and adds one send to the handle's calls; an exception ends it where `Run` ends |
| OptiumNeo.FreeStyleOptiumNeoParser.Prime | src/main/java/com/thingtrack/parser/FreeStyleOptiumNeoParser.java:280-295 | the five priming commands com01 to com05 move the session past them as `Run` says, or end it where `Run` ends |
| OptiumNeo.FreeStyleOptiumNeoParser.TimeCommands | src/main/java/com/thingtrack/parser/FreeStyleOptiumNeoParser.java:285-295 | the four time commands com02 to com05 move the session past them as `Run` says, or end it where `Run` ends |
| OptiumNeo.FreeStyleOptiumNeoParser.QueryFields | src/main/java/com/thingtrack/parser/FreeStyleOptiumNeoParser.java:297-313 | the six field queries com06 to com11 move the session past them as `Run` says, or end it where `Run` ends |
| OptiumNeo.FreeStyleOptiumNeoParser.RunStores | src/main/java/com/thingtrack/parser/FreeStyleOptiumNeoParser.java:298-316 | every key of a command that went through before the first exception is in the table |
| OptiumNeo.FreeStyleOptiumNeoParser.RunKeeps | src/main/java/com/thingtrack/parser/FreeStyleOptiumNeoParser.java:298-325 | every other key, including those of the commands after the exception, keeps its earlier content |
| OptiumNeo.FreeStyleOptiumNeoParser.RunShape | src/main/java/com/thingtrack/parser/FreeStyleOptiumNeoParser.java:298-316 | a session keeps the table's shape: readings under "result", strings under every other key |
| OptiumNeo.FreeStyleOptiumNeoParser.CompleteSession | src/main/java/com/thingtrack/parser/FreeStyleOptiumNeoParser.java:298-316 | a session without exception fills all seven fields, "result" with readings and the rest with strings, and touches no other key |
| OptiumNeo.FreeStyleOptiumNeoParser.StoppedWhilePriming | src/main/java/com/thingtrack/parser/FreeStyleOptiumNeoParser.java:283-295 | a session that stops among the five priming commands leaves the table exactly as it was |
| OptiumNeo.PrefixKeys | src/main/java/com/thingtrack/parser/FreeStyleOptiumNeoParser.java:283-316 | the priming commands write no key, and the whole sequence writes exactly the seven fields |
| OptiumNeo.FreeStyleOptiumNeoParser.SetUpAndQuery | src/main/java/com/thingtrack/parser/FreeStyleOptiumNeoParser.java:247-325 | the `try` block: a negative kernel-driver check raises with the open status, an intolerable detach or a failed claim with its own status, and otherwise the commands run as `Run` says and its exception is the one caught |
| OptiumNeo.FreeStyleOptiumNeoParser.CleanUp | src/main/java/com/thingtrack/parser/FreeStyleOptiumNeoParser.java:326-343 | the `finally` block: one release; a failed release raises with its status and skips the re-attach; otherwise the driver is re-attached exactly when `attached` is 1, and nothing is raised |
| OptiumNeo.FreeStyleOptiumNeoParser.Execute | src/main/java/com/thingtrack/parser/FreeStyleOptiumNeoParser.java:236-346 | a failed open raises with nothing released. Otherwise setup runs, and the commands run only when setup succeeds. Exceptions inside `try` are dropped. The interface is released exactly once. The driver is re-attached exactly when the release succeeds and a driver had been attached. Only a failed release raises, and a failed re-attach never does |

## Left out

- `App.java` is not part of this model: the libusb context, the hotplug callback with its vendor/product match, the event thread and its abort flag, option parsing and logging.
- `AbstractUsbParser.java` holds only getters for the vendor and product ids, with no behaviour to model.
- `export` is left out. It builds JSON, names a file from the current time, writes it, and converts dates to UTC, all through library calls.
- The `Thread.sleep` settle delays are left out. So is the `InterruptedException` they could raise, which the session would catch and drop like any other exception. Console prints are left out too.
- US-ASCII decoding of a read buffer is left out: a frame is modelled as its decoded text.
- The 64-byte frame size is not enforced on frames.
- The control transfer's request type, request, value and index, and the endpoint and interface numbers, are fixed arguments of libusb. Only the payload is modelled.
- `clearHalt`'s status is ignored in the source, and the scripted handle gives it none.
- OptiumNeo.FreeStyleOptiumNeoParser.constructor: the payload table of `FreestyleOptiumNeoProtocols` is not part of this model, so it is a constructor parameter. The date and float parsers are constructor parameters too: `SimpleDateFormat` with its lenient calendar, and `Float.parseFloat` with its rounding, are library code. The model states only which tokens they receive and what is done with their results.
- Fields.Measure: `java.util.Date` is kept as epoch milliseconds and `float` as an unbounded real, so 32-bit float rounding is not modelled.
- OptiumNeo.FreeStyleOptiumNeoParser.Execute: its contract says which exception it raises, but not what `LibUsbException` carries beyond the status code.
