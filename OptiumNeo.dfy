/** The FreeStyle Optium Neo protocol engine: the parser object whose
    `values` table one session fills, the command send check, the response
    accumulator, the field parsers that write into the table, and the
    session that opens the meter, runs the fixed command sequence and
    always cleans up. */
module OptiumNeo {
  import opened JavaText
  import opened Fields
  import opened Usb
  import opened Replies

  /** The protocol commands execute issues (their payloads live in a
      separate protocol table). */
  datatype Command =
    | Com01Init | Com02Time | Com03Time | Com04Time | Com05Time
    | Com06Serlnum | Com07Swver | Com08Date | Com09Time | Com10Ptname | Com11Ptid
    | Com26Result

  /** The order in which execute issues them: five priming commands, six
      field queries, the result log. */
  const Order: seq<Command> := [
    Com01Init, Com02Time, Com03Time, Com04Time, Com05Time,
    Com06Serlnum, Com07Swver, Com08Date, Com09Time, Com10Ptname, Com11Ptid,
    Com26Result]

  /** Only the result log is read in multi mode. */
  predicate IsMulti(cmd: Command) {
    cmd == Com26Result
  }

  /** The key of `values` the command's parser writes; none for the priming
      commands, whose replies are discarded. */
  function KeyOf(cmd: Command): Option<string> {
    match cmd
    case Com06Serlnum => Some("serlnum")
    case Com07Swver => Some("swver")
    case Com08Date => Some("date")
    case Com09Time => Some("time")
    case Com10Ptname => Some("ptname")
    case Com11Ptid => Some("ptid")
    case Com26Result => Some("result")
    case _ => None
  }

  /** The keys the commands `cmds` write. */
  function KeysOf(cmds: seq<Command>): set<string> {
    if cmds == [] then {}
    else (if KeyOf(cmds[0]).Some? then {KeyOf(cmds[0]).value} else {}) + KeysOf(cmds[1..])
  }

  /** What an entry of the values table holds: a String, or the List of
      readings under "result". */
  datatype Value = Text(text: string) | Readings(measures: seq<Measure>)

  /** `m` and `m'` agree on key `k`: both lack it or both map it alike. */
  predicate EqualOnKey(m: map<string, Value>, m': map<string, Value>, k: string) {
    (k in m <==> k in m') && (k in m ==> m[k] == m'[k])
  }

  /** sendCommand's verdict on the count the device reports accepting for a
      payload of `length` bytes: a negative count is a libusb error, any
      other count but `length` a partial write. */
  function SendCheck(transferred: int, length: nat): (r: Option<Exception>)
    ensures r == None <==> transferred == length
    ensures transferred < 0 ==> r == Some(UsbError(transferred))
    ensures transferred >= 0 && r != None ==> r == Some(NotAllSent)
  {
    if transferred < 0 then Some(UsbError(transferred))
    else if transferred != length then Some(NotAllSent)
    else None
  }

  /** A detach status the session tolerates. */
  predicate DetachTolerated(status: int) {
    status == SUCCESS || status == ERROR_NOT_SUPPORTED || status == ERROR_NOT_FOUND
  }

  /** The handle calls execute makes inside its `try` before the first
      command, cut short by the first failing one. */
  function SetupCalls(usb: ScriptedUsb): seq<UsbCall> {
    var afterDetach := if usb.claimStatus != SUCCESS then [ClaimedInterface] else [ClaimedInterface, ClearedHalt];
    var afterCheck := if DetachTolerated(usb.detachStatus) then [DetachedKernelDriver] + afterDetach else [DetachedKernelDriver];
    if usb.kernelStatus < 0 then [CheckedKernelDriver] else [CheckedKernelDriver] + afterCheck
  }

  /** The setup in the `try` succeeds and the commands run. */
  predicate SetupSucceeds(usb: ScriptedUsb) {
    usb.kernelStatus >= 0 && DetachTolerated(usb.detachStatus) && usb.claimStatus == SUCCESS
  }

  /** The string parser of a field query: parseDate and parseTime re-join
      comma tokens, the other four store the stripped first line. */
  function TextField(cmd: Command, reply: Reply): Result<string> {
    match cmd
    case Com08Date => DateText(reply)
    case Com09Time => TimeText(reply)
    case _ => StrippedLine(reply)
  }

  /** A text parse as the value it stores. */
  function AsText(r: Result<string>): (v: Result<Option<Value>>)
    ensures v.Ok? <==> r.Ok?
    ensures v.Ok? ==> v.value == Some(Text(r.value))
  {
    if r.Ok? then Ok(Some(Text(r.value))) else Err(r.error)
  }

  /** The exception a step raises, if any. */
  function ErrorOf(r: Result<Option<Value>>): Option<Exception> {
    if r.Err? then Some(r.error) else None
  }

  /** The table after a step of command `cmd` that ended in `r`. */
  function Apply(values: map<string, Value>, cmd: Command, r: Result<Option<Value>>): map<string, Value>
    requires r.Ok? && r.value.Some? ==> KeyOf(cmd).Some?
  {
    if r.Ok? && r.value.Some? then values[KeyOf(cmd).value := r.value.value] else values
  }

  /** Where a run of commands left the table and the device scripts: the
      exception that stopped it, if any, and how many commands it issued
      (the failing one included). */
  datatype Session = Session(values: map<string, Value>, accepted: seq<int>, inbound: seq<ReadOutcome>,
                             failure: Option<Exception>, issued: nat)

  /** The calls of execute's `finally` block: the release, then the
      re-attach when the release succeeded and a kernel driver had been
      attached. */
  function CleanupCalls(usb: ScriptedUsb): seq<UsbCall> {
    [ReleasedInterface] + if usb.releaseStatus == SUCCESS && usb.kernelStatus == 1 then [AttachedKernelDriver] else []
  }

  /** How many commands of the session went through: all it issued but the
      one that raised. */
  function Completed(s: Session): nat {
    if s.failure.Some? && s.issued > 0 then s.issued - 1 else s.issued
  }

  /** Only "result" holds readings; every other key holds a string. */
  predicate TableShape(values: map<string, Value>) {
    forall k :: k in values ==> (values[k].Readings? <==> k == "result")
  }

  /** A step that ended in `r` writes the command's key when it went
      through and nothing else, and keeps the table's shape. */
  lemma ApplyEffect(values: map<string, Value>, cmd: Command, r: Result<Option<Value>>)
    requires r.Ok? ==> (r.value.Some? <==> KeyOf(cmd).Some?)
    requires r.Ok? && r.value.Some? ==> (r.value.value.Readings? <==> cmd == Com26Result)
    ensures forall k :: (KeyOf(cmd).None? || k != KeyOf(cmd).value) ==> EqualOnKey(values, Apply(values, cmd, r), k)
    ensures r.Ok? && KeyOf(cmd).Some? ==> KeyOf(cmd).value in Apply(values, cmd, r)
    ensures TableShape(values) ==> TableShape(Apply(values, cmd, r))
  {
  }

  /** The keys of a non-empty prefix: the first command's, then the rest's. */
  lemma KeysOfCons(cmds: seq<Command>, n: nat)
    requires 1 <= n <= |cmds|
    ensures KeysOf(cmds[..n]) ==
      (if KeyOf(cmds[0]).Some? then {KeyOf(cmds[0]).value} else {}) + KeysOf(cmds[1..][..n - 1])
  {
    assert cmds[..n][0] == cmds[0] && cmds[..n][1..] == cmds[1..][..n - 1];
  }

  /** The keys the command sequence fills. */
  const FieldKeys: set<string> := {"serlnum", "swver", "date", "time", "ptname", "ptid", "result"}

  /** The keys written by the first `n` commands: none by the priming
      ones, and all of FieldKeys by the whole sequence. */
  lemma PrefixKeys(n: nat)
    requires n <= |Order|
    ensures KeysOf(Order[..n]) <= FieldKeys
    ensures n <= 5 ==> KeysOf(Order[..n]) == {}
    ensures n == |Order| ==> KeysOf(Order[..n]) == FieldKeys
  {
    PrefixKeysFields(n);
    if n <= 5 {
      assert forall j :: 0 <= j < n ==> Order[..n][j] == Order[j];
      KeysOfKeyless(Order[..n]);
    }
    if n == |Order| {
      SequenceKeys();
    }
  }

  /** Every key a prefix of the sequence writes is one of the fields. */
  lemma PrefixKeysFields(n: nat)
    requires n <= |Order|
    ensures KeysOf(Order[..n]) <= FieldKeys
  {
    KeysOfAt(Order[..n]);
    forall k | k in KeysOf(Order[..n])
      ensures k in FieldKeys
    {
      var j :| 0 <= j < n && KeyOf(Order[..n][j]) == Some(k);
      KeyOfField(Order[..n][j]);
    }
  }

  /** The whole sequence writes every field. */
  lemma SequenceKeys()
    ensures FieldKeys <= KeysOf(Order[..|Order|])
  {
    KeysOfAt(Order[..|Order|]);
    forall k | k in FieldKeys
      ensures k in KeysOf(Order[..|Order|])
    {
      var j := if k == "serlnum" then 5 else if k == "swver" then 6 else if k == "date" then 7
        else if k == "time" then 8 else if k == "ptname" then 9 else if k == "ptid" then 10 else 11;
      assert Order[..|Order|][j] == Order[j];
    }
  }

  /** Every key a command writes is one of the fields. */
  lemma KeyOfField(cmd: Command)
    ensures KeyOf(cmd).Some? ==> KeyOf(cmd).value in FieldKeys
  {
  }

  /** A key is written by a run of commands exactly when one of them has it. */
  lemma {:induction false} KeysOfAt(cmds: seq<Command>)
    ensures forall k :: k in KeysOf(cmds) <==> exists j :: 0 <= j < |cmds| && KeyOf(cmds[j]) == Some(k)
  {
    if cmds != [] {
      KeysOfAt(cmds[1..]);
      assert forall j :: 0 < j < |cmds| ==> cmds[1..][j - 1] == cmds[j];
    }
  }

  /** A run of commands none of which has a key writes no key. */
  lemma {:induction false} KeysOfKeyless(cmds: seq<Command>)
    requires forall j :: 0 <= j < |cmds| ==> KeyOf(cmds[j]).None?
    ensures KeysOf(cmds) == {}
  {
    if cmds != [] {
      KeysOfKeyless(cmds[1..]);
    }
  }

  /** `s` preceded by `n` commands that went through. */
  function Bump(s: Session, n: nat): Session {
    s.(issued := s.issued + n)
  }

  class FreeStyleOptiumNeoParser {
    /** The protocol's payload table. */
    const protocol: Command -> seq<bv8>
    /** SimpleDateFormat("MM-dd-yy HH:mm").parse, as epoch milliseconds. */
    const parseDate: string -> Option<int>
    /** Float.parseFloat. */
    const parseFloat: string -> Option<real>

    /** The table a session fills; it lives as long as the parser object. */
    var values: map<string, Value>

    constructor (protocol: Command -> seq<bv8>, parseDate: string -> Option<int>,
                 parseFloat: string -> Option<real>)
      ensures this.protocol == protocol && this.parseDate == parseDate && this.parseFloat == parseFloat
      ensures values == map[]
    {
      this.protocol, this.parseDate, this.parseFloat := protocol, parseDate, parseFloat;
      values := map[];
    }

    /** The control transfers that issuing `cmds` makes, in order. */
    function Sends(cmds: seq<Command>): (r: seq<UsbCall>)
      ensures |r| == |cmds| && forall j :: 0 <= j < |cmds| ==> r[j] == SentControl(protocol(cmds[j]))
    {
      if cmds == [] then []
      else Sends(cmds[..|cmds| - 1]) + [SentControl(protocol(cmds[|cmds| - 1]))]
    }

    /** What the parser designated for `cmd` makes of `reply`: nothing for
        a priming command, otherwise the value stored under its key, or the
        exception that stops the session. */
    function Parsed(cmd: Command, reply: Reply): (r: Result<Option<Value>>)
      ensures KeyOf(cmd).None? ==> r == Ok(None)
      ensures r.Ok? ==> (r.value.Some? <==> KeyOf(cmd).Some?)
      ensures r.Ok? && r.value.Some? ==> (r.value.value.Readings? <==> cmd == Com26Result)
    {
      if KeyOf(cmd).None? then Ok(None)
      else if cmd == Com26Result then
        var log := ResultLog(reply, parseDate, parseFloat);
        if log.Ok? then Ok(Some(Readings(log.value))) else Err(log.error)
      else AsText(TextField(cmd, reply))
    }

    /** The outcome of one `parse(executeCommand(...))` line for `cmd`,
        given the scripts of the device at its start. */
    function StepResult(cmd: Command, accepted: seq<int>, inbound: seq<ReadOutcome>): (r: Result<Option<Value>>)
      ensures r.Ok? ==> (r.value.Some? <==> KeyOf(cmd).Some?)
      ensures r.Ok? && r.value.Some? ==> (r.value.value.Readings? <==> cmd == Com26Result)
    {
      var sent := SendCheck(NextAccepted(accepted), |protocol(cmd)|);
      if sent.Some? then Err(sent.value)
      else Parsed(cmd, Accumulated(inbound, IsMulti(cmd)))
    }

    /** A session stores a value under the key of every command that went
        through (the failing command stores nothing). */
    lemma {:induction false} RunStores(cmds: seq<Command>, values: map<string, Value>, accepted: seq<int>,
                                       inbound: seq<ReadOutcome>)
      ensures var s := Run(cmds, values, accepted, inbound);
        Completed(s) <= |cmds| && KeysOf(cmds[..Completed(s)]) <= s.values.Keys
      decreases |cmds|
    {
      if cmds != [] {
        var r := StepResult(cmds[0], accepted, inbound);
        if r.Ok? {
          var values' := Apply(values, cmds[0], r);
          var accepted', inbound' := Rest(accepted), InboundAfter(cmds[0], accepted, inbound);
          var s' := Run(cmds[1..], values', accepted', inbound');
          var n := Completed(s');
          RunStores(cmds[1..], values', accepted', inbound');
          RunKeeps(cmds[1..], values', accepted', inbound');
          ApplyEffect(values, cmds[0], r);
          KeysOfCons(cmds, n + 1);
          assert Run(cmds, values, accepted, inbound) == Bump(s', 1);
          assert Completed(Bump(s', 1)) == n + 1;
          forall k | k in KeysOf(cmds[..n + 1])
            ensures k in s'.values
          {
            if k !in KeysOf(cmds[1..][..n]) {
              assert k in values' && EqualOnKey(values', s'.values, k);
            }
          }
        } else {
          assert cmds[..0] == [];
        }
      }
    }

    /** A session leaves every key that no command that went through
        writes as it was. */
    lemma {:induction false} RunKeeps(cmds: seq<Command>, values: map<string, Value>, accepted: seq<int>,
                                      inbound: seq<ReadOutcome>)
      ensures var s := Run(cmds, values, accepted, inbound);
        Completed(s) <= |cmds| &&
        forall k :: k !in KeysOf(cmds[..Completed(s)]) ==> EqualOnKey(values, s.values, k)
      decreases |cmds|
    {
      if cmds != [] {
        var r := StepResult(cmds[0], accepted, inbound);
        if r.Ok? {
          var values' := Apply(values, cmds[0], r);
          var accepted', inbound' := Rest(accepted), InboundAfter(cmds[0], accepted, inbound);
          var s' := Run(cmds[1..], values', accepted', inbound');
          var n := Completed(s');
          RunKeeps(cmds[1..], values', accepted', inbound');
          ApplyEffect(values, cmds[0], r);
          KeysOfCons(cmds, n + 1);
          assert Run(cmds, values, accepted, inbound) == Bump(s', 1);
          assert Completed(Bump(s', 1)) == n + 1;
          forall k | k !in KeysOf(cmds[..n + 1])
            ensures EqualOnKey(values, s'.values, k)
          {
            assert EqualOnKey(values, values', k) && EqualOnKey(values', s'.values, k);
          }
        } else {
          assert cmds[..0] == [];
        }
      }
    }

    /** A session keeps the shape of the table: readings under "result",
        strings elsewhere. */
    lemma {:induction false} RunShape(cmds: seq<Command>, values: map<string, Value>, accepted: seq<int>,
                                      inbound: seq<ReadOutcome>)
      requires TableShape(values)
      ensures TableShape(Run(cmds, values, accepted, inbound).values)
      decreases |cmds|
    {
      if cmds != [] {
        var r := StepResult(cmds[0], accepted, inbound);
        if r.Ok? {
          ApplyEffect(values, cmds[0], r);
          RunShape(cmds[1..], Apply(values, cmds[0], r), Rest(accepted), InboundAfter(cmds[0], accepted, inbound));
        }
      }
    }

    /** A session that runs to the end fills the seven fields: the result
        log with readings and the six others with strings, and touches no
        other key. */
    lemma CompleteSession(values: map<string, Value>, accepted: seq<int>, inbound: seq<ReadOutcome>)
      requires TableShape(values)
      ensures var s := Run(Order, values, accepted, inbound);
        s.failure.None? ==>
          FieldKeys <= s.values.Keys && s.values["result"].Readings? &&
          forall k :: k in FieldKeys && k != "result" ==> s.values[k].Text?
      ensures var s := Run(Order, values, accepted, inbound);
        forall k :: k !in FieldKeys ==> EqualOnKey(values, s.values, k)
    {
      var s := Run(Order, values, accepted, inbound);
      RunStores(Order, values, accepted, inbound);
      RunKeeps(Order, values, accepted, inbound);
      RunShape(Order, values, accepted, inbound);
      PrefixKeys(Completed(s));
      if s.failure.None? {
        assert Order[..Completed(s)] == Order;
      }
    }

    /** A session that stops within the five priming commands leaves the
        table exactly as it was: their replies are discarded. */
    lemma StoppedWhilePriming(values: map<string, Value>, accepted: seq<int>, inbound: seq<ReadOutcome>)
      ensures var s := Run(Order, values, accepted, inbound);
        s.issued <= 5 ==> s.values == values
    {
      var s := Run(Order, values, accepted, inbound);
      if s.issued <= 5 {
        PrefixKeys(Completed(s));
        RunWritesNothing(Order, values, accepted, inbound);
      }
    }

    /** A session whose completed commands write no key leaves the table as
        it was. */
    lemma RunWritesNothing(cmds: seq<Command>, values: map<string, Value>, accepted: seq<int>,
                           inbound: seq<ReadOutcome>)
      requires var s := Run(cmds, values, accepted, inbound);
        Completed(s) <= |cmds| && KeysOf(cmds[..Completed(s)]) == {}
      ensures Run(cmds, values, accepted, inbound).values == values
    {
      var s := Run(cmds, values, accepted, inbound);
      RunKeeps(cmds, values, accepted, inbound);
      forall k | k in s.values || k in values
        ensures k in s.values && k in values && s.values[k] == values[k]
      {
        assert EqualOnKey(values, s.values, k);
      }
    }

    /** The bulk reads left after one command: none are made when the send
        fails, otherwise the accumulator uses up what `Consumed` says. */
    function InboundAfter(cmd: Command, accepted: seq<int>, inbound: seq<ReadOutcome>): seq<ReadOutcome> {
      if SendCheck(NextAccepted(accepted), |protocol(cmd)|).Some? then inbound
      else inbound[Consumed(inbound)..]
    }

    /** The commands `cmds` issued one after the other from the given table
        and scripts, stopping at the first one that raises. */
    function Run(cmds: seq<Command>, values: map<string, Value>, accepted: seq<int>,
                 inbound: seq<ReadOutcome>): (s: Session)
      ensures s.issued <= |cmds|
      ensures s.failure.None? ==> s.issued == |cmds|
      ensures s.failure.Some? ==> s.issued >= 1
      decreases |cmds|
    {
      if cmds == [] then Session(values, accepted, inbound, None, 0)
      else
        var r := StepResult(cmds[0], accepted, inbound);
        var accepted', inbound' := Rest(accepted), InboundAfter(cmds[0], accepted, inbound);
        if r.Err? then Session(values, accepted', inbound', Some(r.error), 1)
        else Bump(Run(cmds[1..], Apply(values, cmds[0], r), accepted', inbound'), 1)
    }

    /** sendCommand: one control transfer of `transfer`, then the check of
        the reported count. */
    method SendCommand(usb: ScriptedUsb, transfer: seq<bv8>) returns (exc: Option<Exception>)
      modifies usb`calls, usb`accepted
      ensures exc == SendCheck(NextAccepted(old(usb.accepted)), |transfer|)
      ensures usb.accepted == Rest(old(usb.accepted))
      ensures usb.calls == old(usb.calls) + [SentControl(transfer)]
    {
      var transferred := usb.ControlTransfer(transfer);
      exc := SendCheck(transferred, |transfer|);
    }

    /** executeCommand: send the payload, then read frames until one holds
        the terminator or a read fails. A failed send raises; a failed read
        ends the loop with the frames gathered so far. */
    method ExecuteCommand(usb: ScriptedUsb, payload: seq<bv8>, multi: bool) returns (out: Result<Reply>)
      modifies usb`calls, usb`accepted, usb`inbound
      ensures usb.calls == old(usb.calls) + [SentControl(payload)]
      ensures usb.accepted == Rest(old(usb.accepted))
      ensures var sent := SendCheck(NextAccepted(old(usb.accepted)), |payload|);
        sent.Some? ==> out == Err(sent.value) && usb.inbound == old(usb.inbound)
      ensures var sent := SendCheck(NextAccepted(old(usb.accepted)), |payload|);
        sent.None? ==>
          out == Ok(Accumulated(old(usb.inbound), multi)) &&
          usb.inbound == old(usb.inbound)[Consumed(old(usb.inbound))..]
    {
      var tokens: seq<string> := [];
      var sent := SendCommand(usb, payload);
      if sent.Some? {
        return Err(sent.value);
      }
      ghost var script := usb.inbound;
      ghost var i := 0;
      while true
        invariant i <= StopAt(script) && i <= |script| && usb.inbound == script[i..]
        invariant tokens == if multi then Texts(script[..i]) else []
        invariant usb.calls == old(usb.calls) + [SentControl(payload)]
        invariant usb.accepted == Rest(old(usb.accepted))
        decreases |usb.inbound|
      {
        var r := usb.BulkTransfer();
        if r.ReadError? {
          // the LibUsbException of the read is caught: the list so far
          StopHere(script, i);
          ReplyAtStop(script, multi);
          return Ok(Frames(tokens));
        }
        var data := r.text;
        if multi {
          tokens := tokens + [data];
        }
        if Contains(data, Terminator) {
          StopHere(script, i);
          ReplyAtStop(script, multi);
          if multi {
            return Ok(Frames(tokens));
          } else {
            return Ok(Single(data));
          }
        }
        ReadOn(script, i);
        i := i + 1;
      }
    }

    /** Stores the outcome of a text field parse under `key`. */
    method PutText(key: string, r: Result<string>) returns (exc: Option<Exception>)
      modifies this
      ensures r.Ok? ==> exc == None && values == old(values)[key := Text(r.value)]
      ensures r.Err? ==> exc == Some(r.error) && values == old(values)
    {
      match r
      case Ok(v) =>
        values := values[key := Text(v)];
        exc := None;
      case Err(e) =>
        exc := Some(e);
    }

    method ParseDate(data: Reply) returns (exc: Option<Exception>)
      modifies this
      ensures DateText(data).Ok? ==> exc == None && values == old(values)["date" := Text(DateText(data).value)]
      ensures DateText(data).Err? ==> exc == Some(DateText(data).error) && values == old(values)
    {
      exc := PutText("date", DateText(data));
    }

    method ParseTime(data: Reply) returns (exc: Option<Exception>)
      modifies this
      ensures TimeText(data).Ok? ==> exc == None && values == old(values)["time" := Text(TimeText(data).value)]
      ensures TimeText(data).Err? ==> exc == Some(TimeText(data).error) && values == old(values)
    {
      exc := PutText("time", TimeText(data));
    }

    method ParseSerlnum(data: Reply) returns (exc: Option<Exception>)
      modifies this
      ensures StrippedLine(data).Ok? ==> exc == None && values == old(values)["serlnum" := Text(StrippedLine(data).value)]
      ensures StrippedLine(data).Err? ==> exc == Some(StrippedLine(data).error) && values == old(values)
    {
      exc := PutText("serlnum", StrippedLine(data));
    }

    method ParseSwver(data: Reply) returns (exc: Option<Exception>)
      modifies this
      ensures StrippedLine(data).Ok? ==> exc == None && values == old(values)["swver" := Text(StrippedLine(data).value)]
      ensures StrippedLine(data).Err? ==> exc == Some(StrippedLine(data).error) && values == old(values)
    {
      exc := PutText("swver", StrippedLine(data));
    }

    method ParsePtname(data: Reply) returns (exc: Option<Exception>)
      modifies this
      ensures StrippedLine(data).Ok? ==> exc == None && values == old(values)["ptname" := Text(StrippedLine(data).value)]
      ensures StrippedLine(data).Err? ==> exc == Some(StrippedLine(data).error) && values == old(values)
    {
      exc := PutText("ptname", StrippedLine(data));
    }

    method ParsePtid(data: Reply) returns (exc: Option<Exception>)
      modifies this
      ensures StrippedLine(data).Ok? ==> exc == None && values == old(values)["ptid" := Text(StrippedLine(data).value)]
      ensures StrippedLine(data).Err? ==> exc == Some(StrippedLine(data).error) && values == old(values)
    {
      exc := PutText("ptid", StrippedLine(data));
    }

    /** parseResult: walks the frame list, turning every data line into a
        reading, and replaces "result" with the whole list; the first line
        whose stamp or value fails to parse aborts it with the table
        untouched. */
    method ParseResult(data: Reply) returns (exc: Option<Exception>)
      modifies this
      ensures var r := ResultLog(data, parseDate, parseFloat);
        r.Ok? ==> exc == None && values == old(values)["result" := Readings(r.value)]
      ensures var r := ResultLog(data, parseDate, parseFloat);
        r.Err? ==> exc == Some(r.error) && values == old(values)
    {
      if data.Single? {
        return Some(ClassCast);
      }
      var frames := data.texts;
      var measures: seq<Measure> := [];
      assert frames[0..] == frames;
      var whole := Measures(frames, parseDate, parseFloat);
      assert whole.Ok? ==> [] + whole.value == whole.value;
      for i := 0 to |frames|
        invariant Measures(frames, parseDate, parseFloat) == Prepend(measures, Measures(frames[i..], parseDate, parseFloat))
        invariant values == old(values)
      {
        MeasuresStep(frames, i, parseDate, parseFloat);
        var tokens := Split(frames[i], ',');
        if |tokens| > 8 {
          var date := parseDate(StampText(tokens));
          if date.None? {
            assert MeasureOf(frames[i], parseDate, parseFloat) == Err(DateParse);
            return Some(DateParse);
          }
          var value := parseFloat(tokens[8]);
          if value.None? {
            assert MeasureOf(frames[i], parseDate, parseFloat) == Err(NumberFormat);
            return Some(NumberFormat);
          }
          var v := value.value;
          if v == 1.0 {
            v := 0.0;
          }
          assert MeasureOf(frames[i], parseDate, parseFloat) == Ok(Some(Measure(date.value, v)));
          PrependTwice(measures, Measure(date.value, v), Measures(frames[i + 1..], parseDate, parseFloat));
          measures := measures + [Measure(date.value, v)];
        }
      }
      assert frames[|frames|..] == [];
      assert Measures(frames, parseDate, parseFloat) == Ok(measures + []);
      assert measures + [] == measures;
      values := values["result" := Readings(measures)];
      exc := None;
    }

    /** One `parse(executeCommand(...))` line of execute: the command is
        sent, its reply read and handed to the command's parser (discarded
        for the priming commands). */
    method RunStep(usb: ScriptedUsb, cmd: Command) returns (exc: Option<Exception>)
      modifies this, usb`calls, usb`accepted, usb`inbound
      ensures usb.calls == old(usb.calls) + [SentControl(protocol(cmd))]
      ensures usb.accepted == Rest(old(usb.accepted))
      ensures usb.inbound == InboundAfter(cmd, old(usb.accepted), old(usb.inbound))
      ensures var r := StepResult(cmd, old(usb.accepted), old(usb.inbound));
        exc == ErrorOf(r) && values == Apply(old(values), cmd, r)
    {
      var reply := ExecuteCommand(usb, protocol(cmd), IsMulti(cmd));
      if reply.Err? {
        return Some(reply.error);
      }
      exc := Parse(cmd, reply.value);
    }

    /** The parser `cmd`'s line hands its reply to, if any. */
    method Parse(cmd: Command, data: Reply) returns (exc: Option<Exception>)
      modifies this
      ensures exc == ErrorOf(Parsed(cmd, data)) && values == Apply(old(values), cmd, Parsed(cmd, data))
    {
      if KeyOf(cmd).None? {
        return None;
      }
      if cmd == Com26Result {
        exc := ParseResult(data);
        return;
      }
      assert Parsed(cmd, data) == AsText(TextField(cmd, data));
      match cmd {
        case Com06Serlnum => exc := ParseSerlnum(data);
        case Com07Swver => exc := ParseSwver(data);
        case Com08Date => exc := ParseDate(data);
        case Com09Time => exc := ParseTime(data);
        case Com10Ptname => exc := ParsePtname(data);
        case Com11Ptid => exc := ParsePtid(data);
      }
    }

    /** The first `k` commands of the sequence went through: the handle saw
        their sends after `calls0`, and the session `whole` run from the
        start goes on from the current table and scripts. */
    ghost predicate Reached(usb: ScriptedUsb, k: nat, calls0: seq<UsbCall>, whole: Session)
      reads this, usb
    {
      k <= |Order| &&
      usb.calls == calls0 + Sends(Order[..k]) &&
      whole == Bump(Run(Order[k..], values, usb.accepted, usb.inbound), k)
    }

    /** The table, the scripts and the calls are where the session `whole`
        leaves them, and `failure` is what stopped it. */
    ghost predicate Ended(usb: ScriptedUsb, calls0: seq<UsbCall>, whole: Session, failure: Option<Exception>)
      reads this, usb
    {
      whole.issued <= |Order| &&
      failure == whole.failure && values == whole.values &&
      usb.accepted == whole.accepted && usb.inbound == whole.inbound &&
      usb.calls == calls0 + Sends(Order[..whole.issued])
    }

    /** The command at position `k` of the sequence, issued by RunStep: the
        session then either goes on or ends with its exception. */
    method Issue(usb: ScriptedUsb, k: nat, ghost calls0: seq<UsbCall>, ghost whole: Session)
        returns (exc: Option<Exception>)
      requires k < |Order| && Reached(usb, k, calls0, whole)
      modifies this, usb`calls, usb`accepted, usb`inbound
      ensures exc.None? ==> Reached(usb, k + 1, calls0, whole)
      ensures exc.Some? ==> Ended(usb, calls0, whole, exc)
    {
      RunFrom(Order, k, values, usb.accepted, usb.inbound);
      SendsSnoc(Order, k);
      exc := RunStep(usb, Order[k]);
    }

    /** The session from position `k` on: the command at `k`, then the rest
        unless it raised. */
    lemma RunFrom(cmds: seq<Command>, k: nat, values: map<string, Value>, accepted: seq<int>,
                  inbound: seq<ReadOutcome>)
      requires k < |cmds|
      ensures var r := StepResult(cmds[k], accepted, inbound);
        var accepted', inbound' := Rest(accepted), InboundAfter(cmds[k], accepted, inbound);
        Run(cmds[k..], values, accepted, inbound) ==
          if r.Err? then Session(values, accepted', inbound', Some(r.error), 1)
          else Bump(Run(cmds[k + 1..], Apply(values, cmds[k], r), accepted', inbound'), 1)
    {
      assert cmds[k..][0] == cmds[k] && cmds[k..][1..] == cmds[k + 1..];
    }

    /** execute: opens the meter (a failure raises at once, with nothing to
        release); inside `try` checks and detaches the kernel driver, claims
        the interface, clears the halt and runs the command sequence, every
        exception there being caught and dropped; in `finally` releases the
        interface (a failure raises and skips the rest) and re-attaches the
        kernel driver when one was attached. The table keeps whatever the
        commands stored before the first exception. */
    method Execute(usb: ScriptedUsb) returns (raised: Option<Exception>)
      modifies this, usb`calls, usb`accepted, usb`inbound
      ensures usb.openStatus != SUCCESS ==>
        raised == Some(UsbError(usb.openStatus)) && values == old(values) &&
        usb.calls == old(usb.calls) + [Opened] &&
        usb.accepted == old(usb.accepted) && usb.inbound == old(usb.inbound)
      ensures usb.openStatus == SUCCESS && !SetupSucceeds(usb) ==>
        values == old(values) && usb.accepted == old(usb.accepted) && usb.inbound == old(usb.inbound) &&
        usb.calls == old(usb.calls) + [Opened] + SetupCalls(usb) + CleanupCalls(usb)
      ensures usb.openStatus == SUCCESS && SetupSucceeds(usb) ==>
        var s := Run(Order, old(values), old(usb.accepted), old(usb.inbound));
        s.issued <= |Order| && values == s.values && usb.accepted == s.accepted && usb.inbound == s.inbound &&
        usb.calls == old(usb.calls) + [Opened] + SetupCalls(usb) + Sends(Order[..s.issued]) + CleanupCalls(usb)
      ensures usb.openStatus == SUCCESS ==>
        raised == if usb.releaseStatus != SUCCESS then Some(UsbError(usb.releaseStatus)) else None
    {
      var result := usb.Open();
      if result != SUCCESS {
        return Some(UsbError(result));
      }
      // the exception that ends the `try` block is caught and dropped
      var attached, _ := SetUpAndQuery(usb, result);
      raised := CleanUp(usb, attached);
    }

    /** The `try` block of execute, entered with `result` holding the open
        status: the kernel driver check (its status is what `attached`
        keeps), the detach, the claim and the halt clearing, then the
        command sequence; `caught` is the exception that ended the block. */
    method SetUpAndQuery(usb: ScriptedUsb, result: int) returns (attached: int, caught: Option<Exception>)
      modifies this, usb`calls, usb`accepted, usb`inbound
      ensures attached == usb.kernelStatus
      ensures !SetupSucceeds(usb) ==>
        values == old(values) && usb.accepted == old(usb.accepted) && usb.inbound == old(usb.inbound) &&
        usb.calls == old(usb.calls) + SetupCalls(usb)
      ensures usb.kernelStatus < 0 ==> caught == Some(UsbError(result))
      ensures usb.kernelStatus >= 0 && !DetachTolerated(usb.detachStatus) ==>
        caught == Some(UsbError(usb.detachStatus))
      ensures usb.kernelStatus >= 0 && DetachTolerated(usb.detachStatus) && usb.claimStatus != SUCCESS ==>
        caught == Some(UsbError(usb.claimStatus))
      ensures SetupSucceeds(usb) ==>
        var s := Run(Order, old(values), old(usb.accepted), old(usb.inbound));
        s.issued <= |Order| && caught == s.failure &&
        values == s.values && usb.accepted == s.accepted && usb.inbound == s.inbound &&
        usb.calls == old(usb.calls) + SetupCalls(usb) + Sends(Order[..s.issued])
    {
      attached := usb.KernelDriverActive();
      if attached < 0 {
        // raised with `result`, which still holds the open status
        return attached, Some(UsbError(result));
      }
      var status := usb.DetachKernelDriver();
      if !DetachTolerated(status) {
        return attached, Some(UsbError(status));
      }
      status := usb.ClaimInterface();
      if status != SUCCESS {
        return attached, Some(UsbError(status));
      }
      usb.ClearHalt();
      assert usb.calls == old(usb.calls) + SetupCalls(usb);
      caught := QueryDevice(usb);
    }

    /** The `finally` block of execute: the release, whose failure raises
        and skips the rest, then the re-attach when `attached` is 1. The
        attach status is dropped: the check after it reads `result`, which
        holds the release status and so always passes. */
    method CleanUp(usb: ScriptedUsb, attached: int) returns (raised: Option<Exception>)
      modifies usb`calls
      ensures raised == if usb.releaseStatus != SUCCESS then Some(UsbError(usb.releaseStatus)) else None
      ensures usb.calls == old(usb.calls) + [ReleasedInterface] +
        if usb.releaseStatus == SUCCESS && attached == 1 then [AttachedKernelDriver] else []
    {
      var result := usb.ReleaseInterface();
      if result != SUCCESS {
        return Some(UsbError(result));
      }
      if attached == 1 {
        var _ := usb.AttachKernelDriver();
        raised := if result != SUCCESS then Some(UsbError(result)) else None;
      } else {
        raised := None;
      }
    }

    /** Issuing one more command adds its send at the end. */
    lemma SendsSnoc(cmds: seq<Command>, k: nat)
      requires k < |cmds|
      ensures Sends(cmds[..k + 1]) == Sends(cmds[..k]) + [SentControl(protocol(cmds[k]))]
    {
      assert cmds[..k + 1][..k] == cmds[..k];
    }

    /** The command sequence of execute's `try` block: five priming
        commands, the six field queries, the result log; the first exception
        abandons the rest. The table and the scripts end where `Run` says,
        and the handle saw exactly the sends of the commands issued. */
    method QueryDevice(usb: ScriptedUsb) returns (failure: Option<Exception>)
      modifies this, usb`calls, usb`accepted, usb`inbound
      ensures Ended(usb, old(usb.calls), Run(Order, old(values), old(usb.accepted), old(usb.inbound)), failure)
    {
      ghost var calls0 := usb.calls;
      ghost var whole := Run(Order, values, usb.accepted, usb.inbound);
      assert Order[0..] == Order && Order[..0] == [] && calls0 + [] == calls0;
      failure := Prime(usb, calls0, whole);
      if failure.Some? { return; }
      failure := QueryFields(usb, calls0, whole);
      if failure.Some? { return; }
      failure := Issue(usb, 11, calls0, whole);   // com26_result
      if failure.None? {
        assert Order[12..] == [];
      }
    }

    /** The five priming commands, whose replies are discarded. */
    method Prime(usb: ScriptedUsb, ghost calls0: seq<UsbCall>, ghost whole: Session)
        returns (failure: Option<Exception>)
      requires Reached(usb, 0, calls0, whole)
      modifies this, usb`calls, usb`accepted, usb`inbound
      ensures failure.None? ==> Reached(usb, 5, calls0, whole)
      ensures failure.Some? ==> Ended(usb, calls0, whole, failure)
    {
      failure := Issue(usb, 0, calls0, whole);      // com01_init
      if failure.Some? { return; }
      failure := TimeCommands(usb, calls0, whole);
    }

    /** The four time commands of the priming sequence. */
    method TimeCommands(usb: ScriptedUsb, ghost calls0: seq<UsbCall>, ghost whole: Session)
        returns (failure: Option<Exception>)
      requires Reached(usb, 1, calls0, whole)
      modifies this, usb`calls, usb`accepted, usb`inbound
      ensures failure.None? ==> Reached(usb, 5, calls0, whole)
      ensures failure.Some? ==> Ended(usb, calls0, whole, failure)
    {
      failure := IssueTwo(usb, 1, calls0, whole);   // com02_time, com03_time
      if failure.Some? { return; }
      failure := IssueTwo(usb, 3, calls0, whole);   // com04_time, com05_time
    }

    /** The six field queries, each parsed into its key. */
    method QueryFields(usb: ScriptedUsb, ghost calls0: seq<UsbCall>, ghost whole: Session)
        returns (failure: Option<Exception>)
      requires Reached(usb, 5, calls0, whole)
      modifies this, usb`calls, usb`accepted, usb`inbound
      ensures failure.None? ==> Reached(usb, 11, calls0, whole)
      ensures failure.Some? ==> Ended(usb, calls0, whole, failure)
    {
      failure := IssueTwo(usb, 5, calls0, whole);   // com06_serlnum, com07_swver
      if failure.Some? { return; }
      failure := IssueTwo(usb, 7, calls0, whole);   // com08_date, com09_time
      if failure.Some? { return; }
      failure := IssueTwo(usb, 9, calls0, whole);   // com10_ptname, com11_ptid
    }

    /** The commands at positions `k` and `k + 1`, one after the other; the
        second is not issued when the first raises. */
    method IssueTwo(usb: ScriptedUsb, k: nat, ghost calls0: seq<UsbCall>, ghost whole: Session)
        returns (failure: Option<Exception>)
      requires k + 1 < |Order| && Reached(usb, k, calls0, whole)
      modifies this, usb`calls, usb`accepted, usb`inbound
      ensures failure.None? ==> Reached(usb, k + 2, calls0, whole)
      ensures failure.Some? ==> Ended(usb, calls0, whole, failure)
    {
      failure := Issue(usb, k, calls0, whole);
      if failure.Some? { return; }
      failure := Issue(usb, k + 1, calls0, whole);
    }
  }

  /** `r` with `ms` in front of its readings. */
  function Prepend(ms: seq<Measure>, r: Result<seq<Measure>>): Result<seq<Measure>> {
    if r.Ok? then Ok(ms + r.value) else r
  }

  /** Measures of a suffix, one line taken off. */
  lemma MeasuresStep(frames: seq<string>, i: nat, parseDate: string -> Option<int>, parseFloat: string -> Option<real>)
    requires i < |frames|
    ensures var m := MeasureOf(frames[i], parseDate, parseFloat);
      var rest := Measures(frames[i + 1..], parseDate, parseFloat);
      Measures(frames[i..], parseDate, parseFloat) ==
        if m.Err? then Err(m.error)
        else if m.value.Some? then Prepend([m.value.value], rest)
        else rest
  {
    assert frames[i..][1..] == frames[i + 1..];
    var m := MeasureOf(frames[i], parseDate, parseFloat);
    var rest := Measures(frames[i + 1..], parseDate, parseFloat);
    if m.Ok? && m.value.None? && rest.Ok? {
      assert [] + rest.value == rest.value;
    }
  }

  lemma PrependTwice(ms: seq<Measure>, m: Measure, r: Result<seq<Measure>>)
    ensures Prepend(ms, Prepend([m], r)) == Prepend(ms + [m], r)
  {
    if r.Ok? {
      assert ms + ([m] + r.value) == ms + [m] + r.value;
    }
  }
}
