/** What the response accumulator of executeCommand returns for a given
    script of bulk reads: it reads frame after frame and stops at the first
    frame whose own text contains "CMD OK", or at the first failed read. */
module Replies {
  import opened JavaText
  import opened Fields
  import opened Usb

  /** The marker the meter puts in the last frame of a reply. */
  const Terminator := "CMD OK"

  /** A read after which the accumulator reads no more. */
  predicate Ends(o: ReadOutcome) {
    o.ReadError? || Contains(o.text, Terminator)
  }

  /** The index of the read that ends the loop: every earlier read is a
      frame without the terminator; `|s|` when the script runs out first
      (the next read then times out). */
  function StopAt(s: seq<ReadOutcome>): (k: nat)
    ensures k <= |s|
    ensures forall j :: 0 <= j < k ==> s[j].Frame? && !Ends(s[j])
    ensures k < |s| ==> Ends(s[k])
  {
    if s == [] || Ends(s[0]) then 0 else 1 + StopAt(s[1..])
  }

  /** The loop ended on a frame holding the terminator (and not on a failed
      or timed-out read). */
  predicate Terminated(s: seq<ReadOutcome>) {
    StopAt(s) < |s| && s[StopAt(s)].Frame?
  }

  /** The texts of a run of reads, in order. */
  function Texts(s: seq<ReadOutcome>): seq<string>
  {
    if s == [] then [] else Texts(s[..|s| - 1]) + [TextOf(s[|s| - 1])]
  }

  /** The text of a frame; a failed read has none. */
  function TextOf(o: ReadOutcome): string {
    if o.Frame? then o.text else ""
  }

  /** Texts keeps the length and the order of the reads. */
  lemma {:induction false} TextsAt(s: seq<ReadOutcome>)
    ensures |Texts(s)| == |s|
    ensures forall j :: 0 <= j < |s| ==> Texts(s)[j] == TextOf(s[j])
  {
    if s != [] {
      TextsAt(s[..|s| - 1]);
    }
  }

  /** The frames the loop reads, in read order: the frames before the
      ending read, plus the ending frame when it holds the terminator. */
  function FramesRead(s: seq<ReadOutcome>): seq<string> {
    var k := StopAt(s);
    Texts(s[..if Terminated(s) then k + 1 else k])
  }

  /** The reply: in multi mode every frame read; in single mode the
      terminating frame alone, or, when the reads fail first, the still
      empty token list. */
  function Accumulated(s: seq<ReadOutcome>, multi: bool): Reply {
    if multi then Frames(FramesRead(s))
    else if Terminated(s) then Single(s[StopAt(s)].text)
    else Frames([])
  }

  /** How many scripted answers the loop uses up. */
  function Consumed(s: seq<ReadOutcome>): (n: nat)
    ensures n <= |s|
  {
    if StopAt(s) < |s| then StopAt(s) + 1 else StopAt(s)
  }

  /** Single mode answers the first frame that contains the terminator, and
      the empty list exactly when no frame does before a read fails. */
  lemma SingleReply(s: seq<ReadOutcome>)
    ensures Accumulated(s, false).Single? <==> Terminated(s)
    ensures Accumulated(s, false).Frames? ==> Accumulated(s, false).texts == []
    ensures Accumulated(s, false).Single? ==>
      exists k :: 0 <= k < |s| && s[k] == Frame(Accumulated(s, false).text) &&
        Contains(s[k].text, Terminator) &&
        forall j :: 0 <= j < k ==> s[j].Frame? && !Contains(s[j].text, Terminator)
  {
    if Terminated(s) {
      var k := StopAt(s);
      assert s[k] == Frame(Accumulated(s, false).text);
    }
  }

  /** Multi mode answers every frame the loop read, in read order: the
      frames before the stopping read, and the stopping frame when it holds
      the terminator. Only the last frame may contain the terminator; it
      does exactly when the loop ended on it. */
  lemma MultiReply(s: seq<ReadOutcome>)
    ensures var f := Accumulated(s, true).texts;
      |f| <= |s| &&
      (forall j :: 0 <= j < |f| ==> s[j] == Frame(f[j])) &&
      (forall j :: 0 <= j < |f| - 1 ==> !Contains(f[j], Terminator)) &&
      (Terminated(s) <==> |f| > 0 && Contains(f[|f| - 1], Terminator)) &&
      |f| == if Terminated(s) then StopAt(s) + 1 else StopAt(s)
  {
    var f := Accumulated(s, true).texts;
    var k := StopAt(s);
    var n := if Terminated(s) then k + 1 else k;
    TextsAt(s[..n]);
    assert forall j :: 0 <= j < |f| ==> f[j] == TextOf(s[j]);
  }

  /** A loop that has read `i` frames without the terminator, and whose
      next read ends it, has reached the stop index and used up the
      answers the closed form names. */
  lemma StopHere(s: seq<ReadOutcome>, i: nat)
    requires i <= StopAt(s) && i <= |s|
    requires Ends(NextRead(s[i..]))
    ensures i == StopAt(s)
    ensures Rest(s[i..]) == s[Consumed(s)..]
  {
    if i < |s| {
      assert s[i] == NextRead(s[i..]);
      assert s[i..][1..] == s[i + 1..];
    }
  }

  /** At the stop index, the reply is the frames gathered so far (plus the
      terminating one), or the terminating frame alone in single mode. */
  lemma ReplyAtStop(s: seq<ReadOutcome>, multi: bool)
    ensures var k := StopAt(s);
      if k < |s| && s[k].Frame? then
        Accumulated(s, multi) == if multi then Frames(Texts(s[..k]) + [s[k].text]) else Single(s[k].text)
      else Accumulated(s, multi) == Frames(if multi then Texts(s[..k]) else [])
  {
    var k := StopAt(s);
    if k < |s| {
      TextsSnoc(s, k);
    }
  }

  /** One more frame read without the terminator. */
  lemma ReadOn(s: seq<ReadOutcome>, i: nat)
    requires i <= StopAt(s) && i <= |s|
    requires !Ends(NextRead(s[i..]))
    ensures i + 1 <= StopAt(s) && i < |s| && s[i] == NextRead(s[i..])
    ensures Rest(s[i..]) == s[i + 1..]
    ensures Texts(s[..i + 1]) == Texts(s[..i]) + [s[i].text]
  {
    TextsSnoc(s, i);
  }

  /** Reading one more outcome adds its text at the end. */
  lemma TextsSnoc(s: seq<ReadOutcome>, i: nat)
    requires i < |s|
    ensures Texts(s[..i + 1]) == Texts(s[..i]) + [TextOf(s[i])]
  {
    assert s[..i + 1][..i] == s[..i];
  }
}
