/**
 * The speech-to-text client as the transcriber sees it: its connection flags, the read loop that
 * turns server messages into transcripts on a bounded channel, and what of the server's text can
 * reach a viewer.
 */
module ModalClient {
  import opened Sequences
  import opened LossyQueues
  import opened Encoding
  import C = Captions

  datatype Transcript = Transcript(text: string, final: bool)

  /** What the read loop gets from the connection; `stop` picks the cancellation arm while enqueuing. */
  datatype Input =
    | Token(text: string, stop: bool)
    | VadEnd(stop: bool)
    | ErrorMessage
    | Unknown
    | ReadFailure
  {
    /** The read loop returns at this input. */
    predicate Ends() {
      ReadFailure? || ((Token? || VadEnd?) && stop)
    }
  }

  /** The transcript a message stands for, if any. */
  function Converted(input: Input): seq<Transcript> {
    match input
    case Token(text, _) => [Transcript(text, false)]
    case VadEnd(_) => [Transcript("", true)]
    case _ => []
  }

  function ConvertedAll(inputs: seq<Input>): seq<Transcript> {
    if inputs == [] then [] else ConvertedAll(inputs[..|inputs| - 1]) + Converted(inputs[|inputs| - 1])
  }

  const TRANSCRIPT_CAPACITY: nat := 50

  /** What the channel holds after one input: a transcript is kept iff there is room and no cancellation. */
  function KeptOne(queue: seq<Transcript>, input: Input): seq<Transcript> {
    if (input.Token? || input.VadEnd?) && !input.stop && |queue| < 50 then queue + Converted(input) else queue
  }

  function Kept(queue: seq<Transcript>, inputs: seq<Input>): seq<Transcript> {
    if inputs == [] then queue
    else
      KeptOne(Kept(queue, inputs[..|inputs| - 1]), inputs[|inputs| - 1])
  }

  /** As long as they all fit and nothing is cancelled, all transcripts are on the channel, in order. */
  lemma {:induction false} AllKept(queue: seq<Transcript>, inputs: seq<Input>)
    requires |queue| + |ConvertedAll(inputs)| <= 50
    requires forall i :: 0 <= i < |inputs| && (inputs[i].Token? || inputs[i].VadEnd?) ==> !inputs[i].stop
    ensures Kept(queue, inputs) == queue + ConvertedAll(inputs)
  {
    if inputs == [] {
    } else {
      var front := inputs[..|inputs| - 1];
      AllKept(queue, front);
    }
  }

  /** Each token and each end of speech stands for one transcript, at its place among them. */
  lemma {:induction false} MessagesConverted(inputs: seq<Input>, i: nat)
    requires i < |inputs| && (inputs[i].Token? || inputs[i].VadEnd?)
    ensures var k := |ConvertedAll(inputs[..i])|;
            && k < |ConvertedAll(inputs)|
            && ConvertedAll(inputs)[k]
               == if inputs[i].Token? then Transcript(inputs[i].text, false) else Transcript("", true)
  {
    var front := inputs[..|inputs| - 1];
    if i < |front| {
      MessagesConverted(front, i);
      assert front[..i] == inputs[..i];
    } else {
      assert inputs[..i] == front;
    }
  }

  /** The token texts of the server's messages, joined. */
  function TokenText(inputs: seq<Input>): string {
    if inputs == [] then ""
    else
      var input := inputs[|inputs| - 1];
      TokenText(inputs[..|inputs| - 1]) + (if input.Token? then input.text else "")
  }

  function EndsOfSpeech(inputs: seq<Input>): nat {
    if inputs == [] then 0
    else EndsOfSpeech(inputs[..|inputs| - 1]) + (if inputs[|inputs| - 1].VadEnd? then 1 else 0)
  }

  function Finals(transcripts: seq<Transcript>): nat {
    if transcripts == [] then 0
    else Finals(transcripts[..|transcripts| - 1]) + (if transcripts[|transcripts| - 1].final then 1 else 0)
  }

  /** The transcripts carry all token text and nothing else, and one end marker per end of speech. */
  lemma {:induction false} ConversionExactly(inputs: seq<Input>)
    ensures Flatten(Texts(ConvertedAll(inputs))) == TokenText(inputs)
    ensures Finals(ConvertedAll(inputs)) == EndsOfSpeech(inputs)
  {
    if inputs == [] {
    } else {
      var front, input := inputs[..|inputs| - 1], inputs[|inputs| - 1];
      ConversionExactly(front);
      ConvertedStep(ConvertedAll(front), input);
    }
  }

  lemma ConvertedStep(before: seq<Transcript>, input: Input)
    ensures Flatten(Texts(before + Converted(input))) == Flatten(Texts(before)) + (if input.Token? then input.text else "")
    ensures Finals(before + Converted(input)) == Finals(before) + (if input.VadEnd? then 1 else 0)
  {
    if input.Token? {
      OneMoreTranscript(before, Transcript(input.text, false));
    } else if input.VadEnd? {
      OneMoreTranscript(before, Transcript("", true));
    } else {
      assert before + [] == before;
    }
  }

  lemma OneMoreTranscript(before: seq<Transcript>, t: Transcript)
    ensures Flatten(Texts(before + [t])) == Flatten(Texts(before)) + (if t.final then "" else t.text)
    ensures Finals(before + [t]) == Finals(before) + (if t.final then 1 else 0)
  {
    var text := if t.final then "" else t.text;
    assert (before + [t])[..|before|] == before;
    assert Texts(before + [t]) == Texts(before) + [text];
    FlattenSnoc(Texts(before), text);
  }

  lemma TakeInput(offered: seq<Transcript>, queue: seq<Transcript>, inputs: seq<Input>, i: nat)
    requires i < |inputs|
    ensures offered + ConvertedAll(inputs[..i + 1]) == offered + ConvertedAll(inputs[..i]) + Converted(inputs[i])
    ensures Kept(queue, inputs[..i + 1]) == KeptOne(Kept(queue, inputs[..i]), inputs[i])
  {
    assert inputs[..i + 1][..i] == inputs[..i];
    Associative(offered, ConvertedAll(inputs[..i]), Converted(inputs[i]));
  }

  class Client {
    var hasConn: bool
    var connected: bool
    const transcripts: LossyQueue<Transcript>

    ghost predicate Valid()
      reads this, transcripts
    {
      && transcripts.Valid() && transcripts.capacity == TRANSCRIPT_CAPACITY
      && (connected ==> hasConn)
    }

    constructor ()
      ensures Valid() && fresh(transcripts) && !connected && transcripts.offered == []
      ensures transcripts.capacity == 50 && transcripts.items == []
    {
      hasConn, connected := false, false;
      transcripts := new LossyQueue<Transcript>(TRANSCRIPT_CAPACITY);
    }

    method Connect(ok: bool)
      requires Valid()
      modifies this`hasConn, this`connected
      ensures Valid()
      ensures connected <==> ok || old(connected)
      ensures hasConn <==> ok || old(hasConn)
    {
      if ok {
        hasConn, connected := true, true;
      }
    }

    method Close()
      requires Valid()
      modifies this`hasConn, this`connected
      ensures Valid() && !connected && !hasConn
    {
      if hasConn {
        hasConn, connected := false, false;
      }
    }

    /**
     * What is handed to the connection: the whole encoding when connected, else nothing. It fails without a
     * connection or when the write does.
     */
    method SendAudio(audioData: array<bits32>, writeOk: bool) returns (sent: bool, wire: seq<byte>)
      requires Valid()
      ensures sent <==> connected && writeOk
      ensures wire == if connected then Encode(audioData[..]) else []
    {
      if !hasConn || !connected {
        return false, [];
      }
      var binaryData := Encoding.SendAudio(audioData);
      return writeOk, binaryData[..];
    }

    /** One turn of the read loop. */
    method HandleInput(input: Input)
      requires Valid()
      modifies this`connected, transcripts`items, transcripts`offered
      ensures Valid()
      ensures transcripts.offered == old(transcripts.offered) + Converted(input)
      ensures transcripts.items == KeptOne(old(transcripts.items), input)
      ensures connected == (old(connected) && !input.ReadFailure?)
    {
      match input {
        case Token(text, stop) =>
          var _ := transcripts.Send(Transcript(text, false), stop);
        case VadEnd(stop) =>
          var _ := transcripts.Send(Transcript("", true), stop);
        case ErrorMessage =>
        case Unknown =>
        case ReadFailure =>
          connected := false;
      }
    }

    /**
     * The read loop against any input. It takes inputs up to and including the first read failure or message
     * met by a cancellation, offers each message's transcript once and in order, and disconnects exactly when
     * reading fails.
     */
    method ReadLoop(inputs: seq<Input>) returns (taken: nat)
      requires Valid()
      modifies this`connected, transcripts`items, transcripts`offered
      ensures Valid() && taken <= |inputs|
      ensures forall i :: 0 <= i < taken - 1 ==>
                && !inputs[i].ReadFailure?
                && ((inputs[i].Token? || inputs[i].VadEnd?) ==> !inputs[i].stop)
      ensures taken < |inputs| ==>
                && taken > 0
                && (inputs[taken - 1].ReadFailure?
                    || ((inputs[taken - 1].Token? || inputs[taken - 1].VadEnd?) && inputs[taken - 1].stop))
      ensures transcripts.offered == old(transcripts.offered) + ConvertedAll(inputs[..taken])
      ensures transcripts.received == old(transcripts.received)
      ensures transcripts.items == Kept(old(transcripts.items), inputs[..taken])
      ensures connected == (old(connected) && !(taken > 0 && inputs[taken - 1].ReadFailure?))
    {
      taken := 0;
      assert inputs[..0] == [];
      while taken < |inputs|
        invariant Valid() && taken <= |inputs| && connected == old(connected)
        invariant forall i :: 0 <= i < taken ==> !inputs[i].Ends()
        invariant transcripts.offered == old(transcripts.offered) + ConvertedAll(inputs[..taken])
        invariant transcripts.items == Kept(old(transcripts.items), inputs[..taken])
      {
        var input := inputs[taken];
        TakeInput(old(transcripts.offered), old(transcripts.items), inputs, taken);
        taken := taken + 1;
        HandleInput(input);
        if input.Ends() {
          break;
        }
      }
    }
  }

  /** An end marker never carries text, so the caption machine loses none by not looking at it. */
  lemma {:induction false} MarkersCarryNoText(inputs: seq<Input>)
    ensures forall t :: t in ConvertedAll(inputs) && t.final ==> t.text == ""
  {
    if inputs == [] {
    } else {
      MarkersCarryNoText(inputs[..|inputs| - 1]);
    }
  }

  // ----- From the server to the viewer -----

  /** The token texts, an end marker counting as no text. */
  function Texts(transcripts: seq<Transcript>): (texts: seq<string>)
    ensures |texts| == |transcripts|
  {
    seq(|transcripts|, i requires 0 <= i < |transcripts| => if transcripts[i].final then "" else transcripts[i].text)
  }

  /** The transcripts among the events a transcriber handled. */
  function TranscriptsOf(events: seq<C.Event>): seq<Transcript> {
    if events == [] then []
    else
      var e := events[|events| - 1];
      TranscriptsOf(events[..|events| - 1]) + (if e.Transcript? then [Transcript(e.text, e.final)] else [])
  }

  lemma TextsSubsequence(a: seq<Transcript>, b: seq<Transcript>)
    requires Subsequence(a, b)
    ensures Subsequence(Texts(a), Texts(b))
  {
    var picks: seq<nat> :| Picks(a, b, picks);
    assert Picks(Texts(a), Texts(b), picks);
  }

  lemma {:induction false} SpokenIsTexts(events: seq<C.Event>)
    ensures Flatten(Texts(TranscriptsOf(events))) == C.Spoken(events)
  {
    if events == [] {
    } else {
      var front, e := events[..|events| - 1], events[|events| - 1];
      SpokenIsTexts(front);
      if e.Transcript? {
        var before := TranscriptsOf(front);
        assert Texts(before + [Transcript(e.text, e.final)]) == Texts(before) + [e.Token()];
        FlattenSnoc(Texts(before), e.Token());
      } else {
        assert TranscriptsOf(events) == TranscriptsOf(front);
      }
    }
  }

  /**
   * Whatever the channel drops and however ticks, closes and transcripts interleave: when the transcripts a
   * transcriber handled are those it received from a client whose read loop took the given inputs, a viewer
   * sees a prefix of the token texts in those inputs with some dropped. Nothing is invented, repeated or
   * reordered.
   */
  lemma ViewerSeesServerText(client: Client, inputs: seq<Input>, events: seq<C.Event>)
    requires client.Valid()
    requires client.transcripts.offered == ConvertedAll(inputs)
    requires client.transcripts.received == TranscriptsOf(events)
    ensures var kept := Texts(TranscriptsOf(events));
            && Subsequence(kept, Texts(ConvertedAll(inputs)))
            && C.ShownAfter(events) <= Flatten(kept)
  {
    client.transcripts.ReceivedInOrder();
    TextsSubsequence(TranscriptsOf(events), ConvertedAll(inputs));
    SpokenIsTexts(events);
    C.ViewerShowsSpokenPrefix(events);
  }
}
