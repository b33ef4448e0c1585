/** What the parser's field extractors compute from a reply, as pure
    functions: the first line stripped of its framing, the date and time
    re-joined from comma tokens, and the readings of the result log. */
module Fields {
  import opened JavaText

  datatype Option<T> = None | Some(value: T)

  /** The Java exceptions the protocol engine can meet. */
  datatype Exception =
    | UsbError(code: int)   // LibUsbException carrying a libusb status
    | NotAllSent            // RuntimeException: fewer bytes accepted than sent
    | ClassCast             // a reply of the other shape than the cast expects
    | IndexOutOfBounds      // lines[0], substring or tokens[i] out of range
    | DateParse             // ParseException from SimpleDateFormat.parse
    | NumberFormat          // NumberFormatException from Float.parseFloat

  datatype Result<T> = Ok(value: T) | Err(error: Exception)

  /** What executeCommand hands back (declared Object in the source): one
      decoded frame as a String, or a List of decoded frames. */
  datatype Reply = Single(text: string) | Frames(texts: seq<string>)

  /** One stored reading: java.util.Date as milliseconds since the epoch,
      and the float value. */
  datatype Measure = Measure(date: int, value: real)

  /** `lines[0]` of `((String) data).split("\n")`. */
  function FirstLine(reply: Reply): (r: Result<string>)
    ensures r.Ok? ==> reply.Single? && '\n' !in r.value && r.value <= reply.text
    ensures r.Ok? && |r.value| < |reply.text| ==> reply.text[|r.value|] == '\n'
    ensures r.Err? <==>
      (reply.Frames? || (|reply.text| > 0 && forall i :: 0 <= i < |reply.text| ==> reply.text[i] == '\n'))
    ensures reply.Frames? ==> r == Err(ClassCast)
    ensures reply.Single? && r.Err? ==> r.error == IndexOutOfBounds
  {
    match reply
    case Frames(_) => Err(ClassCast)
    case Single(s) =>
      var lines := Split(s, '\n');
      SplitEmptyIff(s, '\n');
      if |lines| == 0 then Err(IndexOutOfBounds)
      else FirstPiece(s, '\n'); Ok(lines[0])
  }

  /** `line.substring(2, line.length() - 1)`: drops the two leading
      characters and the last one. */
  function Strip(line: string): (r: Result<string>)
    ensures r.Ok? <==> |line| >= 3
    ensures r.Ok? ==> |r.value| == |line| - 3 && line == line[..2] + r.value + [line[|line| - 1]]
    ensures r.Err? ==> r.error == IndexOutOfBounds
  {
    if |line| < 3 then Err(IndexOutOfBounds)
    else Ok(line[2..|line| - 1])
  }

  /** The value parseSerlnum, parseSwver, parsePtname and parsePtid store:
      the first line minus its first two characters and its last one; it
      fails exactly when there is no first line or that line is too short. */
  function StrippedLine(reply: Reply): (r: Result<string>)
    ensures FirstLine(reply).Err? ==> r == Err(FirstLine(reply).error)
    ensures FirstLine(reply).Ok? ==> (r.Ok? <==> |FirstLine(reply).value| >= 3)
    ensures r.Ok? ==>
      var line := FirstLine(reply).value;
      |r.value| == |line| - 3 && line == line[..2] + r.value + [line[|line| - 1]]
  {
    match FirstLine(reply)
    case Err(e) => Err(e)
    case Ok(line) => Strip(line)
  }

  /** The value parseDate stores: the first three comma tokens of the
      stripped line joined by '-'. */
  function DateText(reply: Reply): Result<string>
  {
    match StrippedLine(reply)
    case Err(e) => Err(e)
    case Ok(str) =>
      var t := Split(str, ',');
      if |t| < 3 then Err(IndexOutOfBounds) else Ok(t[0] + "-" + t[1] + "-" + t[2])
  }

  /** The value parseTime stores: the first two comma tokens of the stripped
      line joined by ':'. */
  function TimeText(reply: Reply): Result<string>
  {
    match StrippedLine(reply)
    case Err(e) => Err(e)
    case Ok(str) =>
      var t := Split(str, ',');
      if |t| < 2 then Err(IndexOutOfBounds) else Ok(t[0] + ":" + t[1])
  }

  /** The stored date splits on '-' back into the first three tokens of the
      stripped line, as long as those tokens hold no '-'. */
  lemma DateTextTokens(reply: Reply)
    requires StrippedLine(reply).Ok?
    ensures var t := Split(StrippedLine(reply).value, ',');
      (DateText(reply).Ok? <==> |t| >= 3) &&
      (DateText(reply).Ok? && '-' !in t[0] && '-' !in t[1] && '-' !in t[2] ==>
        Pieces(DateText(reply).value, '-') == t[..3])
  {
    var t := Split(StrippedLine(reply).value, ',');
    if |t| >= 3 && '-' !in t[0] && '-' !in t[1] && '-' !in t[2] {
      PiecesOfTwoSeparators(t[0], t[1], t[2], '-');
      assert t[..3] == [t[0], t[1], t[2]];
    }
  }

  /** Three separator-free strings joined by the separator split back into
      those three. */
  lemma PiecesOfTwoSeparators(a: string, b: string, c: string, sep: char)
    requires sep !in a && sep !in b && sep !in c
    ensures Pieces(a + [sep] + b + [sep] + c, sep) == [a, b, c]
  {
    PiecesOfPlain(c, sep);
    PiecesOfSeparated(b, sep, c);
    assert a + [sep] + b + [sep] + c == a + [sep] + (b + [sep] + c);
    PiecesOfSeparated(a, sep, b + [sep] + c);
  }

  /** The stored time splits on ':' back into the first two tokens of the
      stripped line, as long as those tokens hold no ':'. */
  lemma TimeTextTokens(reply: Reply)
    requires StrippedLine(reply).Ok?
    ensures var t := Split(StrippedLine(reply).value, ',');
      (TimeText(reply).Ok? <==> |t| >= 2) &&
      (TimeText(reply).Ok? && ':' !in t[0] && ':' !in t[1] ==>
        Pieces(TimeText(reply).value, ':') == t[..2])
  {
    var t := Split(StrippedLine(reply).value, ',');
    if |t| >= 2 && ':' !in t[0] && ':' !in t[1] {
      PiecesOfPlain(t[1], ':');
      PiecesOfSeparated(t[0], ':', t[1]);
      assert t[..2] == [t[0], t[1]];
    }
  }

  /** The value stored for a parsed reading: 1 is stored as 0, every other
      value as it is. */
  function StoredValue(v: real): (r: real)
    ensures r != 1.0
    ensures r == 0.0 <==> v == 0.0 || v == 1.0
    ensures v != 1.0 ==> r == v
  {
    if v == 1.0 then 0.0 else v
  }

  /** A result-log line with more than eight comma tokens is a reading. */
  predicate IsDataLine(line: string) {
    |Split(line, ',')| > 8
  }

  /** The text handed to the "MM-dd-yy HH:mm" date format: tokens 2, 3 and 4
      joined by '-', a space, tokens 5 and 6 joined by ':'. */
  function StampText(t: seq<string>): string
    requires |t| > 6
  {
    t[2] + "-" + t[3] + "-" + t[4] + " " + t[5] + ":" + t[6]
  }

  /** One line of the result log: skipped (None) when it is no data line,
      otherwise the reading built from its stamp and its token 8, or the
      exception of whichever library parse fails first. */
  function MeasureOf(line: string, parseDate: string -> Option<int>,
                     parseFloat: string -> Option<real>): (r: Result<Option<Measure>>)
    ensures r == Ok(None) <==> !IsDataLine(line)
    ensures r.Ok? && r.value.Some? ==> r.value.value.value != 1.0
  {
    var t := Split(line, ',');
    if |t| <= 8 then Ok(None)
    else match parseDate(StampText(t))
      case None => Err(DateParse)
      case Some(d) =>
        match parseFloat(t[8])
        case None => Err(NumberFormat)
        case Some(v) => Ok(Some(Measure(d, StoredValue(v))))
  }

  /** What parseResult collects from the frames, in their order; the first
      failing line fails the whole list. */
  function Measures(frames: seq<string>, parseDate: string -> Option<int>,
                    parseFloat: string -> Option<real>): Result<seq<Measure>>
  {
    if frames == [] then Ok([])
    else match MeasureOf(frames[0], parseDate, parseFloat)
      case Err(e) => Err(e)
      case Ok(m) =>
        match Measures(frames[1..], parseDate, parseFloat)
        case Err(e) => Err(e)
        case Ok(ms) => Ok((if m.Some? then [m.value] else []) + ms)
  }

  /** What parseResult stores for the reply it is given: the readings of
      the frame list, or the failed cast when the reply is a single frame. */
  function ResultLog(reply: Reply, parseDate: string -> Option<int>,
                     parseFloat: string -> Option<real>): Result<seq<Measure>>
  {
    match reply
    case Single(_) => Err(ClassCast)
    case Frames(frames) => Measures(frames, parseDate, parseFloat)
  }

  /** The data lines of `frames`, in order. */
  function DataLines(frames: seq<string>): (d: seq<string>)
    ensures |d| <= |frames|
    ensures forall k :: 0 <= k < |d| ==> IsDataLine(d[k]) && d[k] in frames
  {
    if frames == [] then []
    else (if IsDataLine(frames[0]) then [frames[0]] else []) + DataLines(frames[1..])
  }

  /** The reading list keeps exactly the data lines, in input order: its
      i-th reading is built from the i-th data line, and no stored value is 1. */
  lemma {:induction false} MeasuresKeepDataLines(frames: seq<string>,
      parseDate: string -> Option<int>, parseFloat: string -> Option<real>)
    requires Measures(frames, parseDate, parseFloat).Ok?
    ensures var ms := Measures(frames, parseDate, parseFloat).value;
      var d := DataLines(frames);
      |ms| == |d| <= |frames| &&
      forall k :: 0 <= k < |ms| ==>
        MeasureOf(d[k], parseDate, parseFloat) == Ok(Some(ms[k])) && ms[k].value != 1.0
  {
    if frames != [] {
      MeasuresCons(frames, parseDate, parseFloat);
      MeasuresKeepDataLines(frames[1..], parseDate, parseFloat);
      var ms := Measures(frames, parseDate, parseFloat).value;
      var ms' := Measures(frames[1..], parseDate, parseFloat).value;
      var d := DataLines(frames);
      var d' := DataLines(frames[1..]);
      if IsDataLine(frames[0]) {
        forall k | 0 <= k < |ms|
          ensures MeasureOf(d[k], parseDate, parseFloat) == Ok(Some(ms[k])) && ms[k].value != 1.0
        {
          if k > 0 {
            assert d[k] == d'[k - 1] && ms[k] == ms'[k - 1];
          }
        }
      }
    }
  }

  /** A reading list that did not fail, one line taken off: the first
      line's reading, if it is a data line, then the rest's readings. */
  lemma MeasuresCons(frames: seq<string>, parseDate: string -> Option<int>, parseFloat: string -> Option<real>)
    requires frames != [] && Measures(frames, parseDate, parseFloat).Ok?
    ensures var m := MeasureOf(frames[0], parseDate, parseFloat);
      var rest := Measures(frames[1..], parseDate, parseFloat);
      m.Ok? && rest.Ok? && (m.value.Some? <==> IsDataLine(frames[0])) &&
      Measures(frames, parseDate, parseFloat).value == (if m.value.Some? then [m.value.value] else []) + rest.value
    ensures DataLines(frames) == (if IsDataLine(frames[0]) then [frames[0]] else []) + DataLines(frames[1..])
  {
  }

  /** The list fails exactly when some data line fails to parse. */
  lemma {:induction false} MeasuresFailIff(frames: seq<string>,
      parseDate: string -> Option<int>, parseFloat: string -> Option<real>)
    ensures Measures(frames, parseDate, parseFloat).Err? <==>
      exists k :: 0 <= k < |DataLines(frames)| && MeasureOf(DataLines(frames)[k], parseDate, parseFloat).Err?
  {
    if frames != [] {
      MeasuresFailIff(frames[1..], parseDate, parseFloat);
      var d := DataLines(frames);
      var d' := DataLines(frames[1..]);
      if IsDataLine(frames[0]) {
        assert d == [frames[0]] + d';
        assert forall k :: 0 <= k < |d'| ==> d'[k] == d[k + 1];
        if MeasureOf(frames[0], parseDate, parseFloat).Err? {
          assert MeasureOf(d[0], parseDate, parseFloat).Err?;
        }
      } else {
        assert d == d';
      }
    }
  }
}
