/**
 * The transcriber's caption state and its event loop, in the imperative form of the program,
 * proved against the step functions of Captions and Backoff.
 */
module Transcriber {
  import opened Sequences
  import opened Captions
  import opened Backoff

  /** One ready arm of the main select, with the values received and the clock readings (`at`: when a tick sends). */
  datatype Arm =
    | TickArm(at: int, now: int)
    | TranscriptArm(text: string, final: bool, now: int)
    | ErrorArm(error: ClientError, now: int)
    | AudioArm
    | DoneArm(drained: seq<DrainArm>, end: int)

  /** One ready arm of the shutdown drain; its timer ends the drain. */
  datatype DrainArm = DrainAudio | DrainTranscript(text: string, final: bool, now: int) | DrainError

  function DrainEvents(arms: seq<DrainArm>): seq<Event> {
    if arms == [] then []
    else
      var arm := arms[|arms| - 1];
      DrainEvents(arms[..|arms| - 1])
      + (if arm.DrainTranscript? then [Transcript(arm.text, arm.final, arm.now)] else [])
  }

  /** The caption events one arm stands for. */
  function ArmEvents(arm: Arm): seq<Event> {
    match arm
    case TickArm(at, now) => [FlushTick(at, now)]
    case TranscriptArm(text, final, now) => [Transcript(text, final, now)]
    case ErrorArm(error, now) => if error.normalClose then [NormalClose(now)] else []
    case AudioArm => []
    case DoneArm(drained, end) => DrainEvents(drained) + [Shutdown(end)]
  }

  function Events(arms: seq<Arm>): seq<Event> {
    if arms == [] then [] else Events(arms[..|arms| - 1]) + ArmEvents(arms[|arms| - 1])
  }

  /** The reconnect errors one arm stands for. */
  function ArmErrors(arm: Arm): seq<ClientError> {
    if arm.ErrorArm? then [arm.error] else []
  }

  function Errors(arms: seq<Arm>): seq<ClientError> {
    if arms == [] then []
    else
      var arm := arms[|arms| - 1];
      Errors(arms[..|arms| - 1]) + ArmErrors(arm)
  }

  // ----- What the arms stand for -----

  /** What one arm does to the captions, whatever went before. */
  lemma ArmExactly(s: Caption, arm: Arm)
    ensures var t := Run(true, s, ArmEvents(arm));
            && (arm.TranscriptArm? ==> t.pending == if arm.final then "" else s.pending + arm.text)
            && (arm.TickArm? ==> t.pending == s.pending && (!t.dirty || t.pending == ""))
            && (arm.ErrorArm? && arm.error.normalClose ==> t.pending == "")
            && ((arm.ErrorArm? && !arm.error.normalClose) || arm.AudioArm? ==> t == s)
            && (arm.DoneArm? ==> t.pending == "")
  {
    var events := ArmEvents(arm);
    if !arm.DoneArm? {
      if events != [] {
        assert events[..0] == [];
        StepExactly(s, events[0]);
      }
    } else {
      RunConcat(true, s, DrainEvents(arm.drained), [Shutdown(arm.end)]);
      StepExactly(Run(true, s, DrainEvents(arm.drained)), Shutdown(arm.end));
      assert [Shutdown(arm.end)][..0] == [];
    }
  }

  /** The token texts received during a drain, joined. */
  function DrainedText(arms: seq<DrainArm>): string {
    if arms == [] then ""
    else
      var arm := arms[|arms| - 1];
      DrainedText(arms[..|arms| - 1]) + (if arm.DrainTranscript? && !arm.final then arm.text else "")
  }

  /** The token texts received over a schedule, joined, those of a drain included. */
  function ReceivedText(arms: seq<Arm>): string {
    if arms == [] then ""
    else
      var arm := arms[|arms| - 1];
      ReceivedText(arms[..|arms| - 1])
      + (match arm
         case TranscriptArm(text, final, _) => if final then "" else text
         case DoneArm(drained, _) => DrainedText(drained)
         case _ => "")
  }

  lemma SpokenSnoc(front: seq<Event>, e: Event)
    ensures Spoken(front + [e]) == Spoken(front) + e.Token()
  {
    assert (front + [e])[..|front|] == front;
  }

  lemma {:induction false} SpokenConcat(a: seq<Event>, b: seq<Event>)
    ensures Spoken(a + b) == Spoken(a) + Spoken(b)
  {
    if b == [] {
      assert a + b == a;
      assert Spoken(a) + "" == Spoken(a);
    } else {
      var front, e := b[..|b| - 1], b[|b| - 1];
      SpokenConcat(a, front);
      assert a + b == a + front + [e];
      SpokenSnoc(a + front, e);
      Associative(Spoken(a), Spoken(front), e.Token());
    }
  }

  lemma SpokenOne(e: Event)
    ensures Spoken([e]) == e.Token()
  {
    assert [e][..0] == [];
    assert "" + e.Token() == e.Token();
  }

  lemma {:induction false} DrainSpoken(arms: seq<DrainArm>)
    ensures Spoken(DrainEvents(arms)) == DrainedText(arms)
  {
    if arms == [] {
    } else {
      var front, arm := arms[..|arms| - 1], arms[|arms| - 1];
      DrainSpoken(front);
      if arm.DrainTranscript? {
        SpokenConcat(DrainEvents(front), [Transcript(arm.text, arm.final, arm.now)]);
        SpokenOne(Transcript(arm.text, arm.final, arm.now));
      } else {
        assert DrainEvents(front) + [] == DrainEvents(front);
      }
    }
  }

  lemma ArmSpoken(arm: Arm)
    ensures Spoken(ArmEvents(arm))
         == match arm
            case TranscriptArm(text, final, _) => if final then "" else text
            case DoneArm(drained, _) => DrainedText(drained)
            case _ => ""
  {
    match arm
    case DoneArm(drained, end) =>
      DrainSpoken(drained);
      SpokenConcat(DrainEvents(drained), [Shutdown(end)]);
      SpokenOne(Shutdown(end));
    case TickArm(at, now) => SpokenOne(FlushTick(at, now));
    case TranscriptArm(text, final, now) => SpokenOne(Transcript(text, final, now));
    case ErrorArm(error, now) => SpokenOne(NormalClose(now));
    case AudioArm =>
  }

  /** What the caption machine is told to handle is exactly what was received. */
  lemma {:induction false} ReceivedTextIsSpoken(arms: seq<Arm>)
    ensures Spoken(Events(arms)) == ReceivedText(arms)
  {
    if arms == [] {
    } else {
      var front, arm := arms[..|arms| - 1], arms[|arms| - 1];
      ReceivedTextIsSpoken(front);
      SpokenConcat(Events(front), ArmEvents(arm));
      ArmSpoken(arm);
    }
  }

  /** The errors among the arms of a schedule, and nothing else, reach the retry. */
  lemma ErrorsExactly(arms: seq<Arm>, arm: Arm)
    ensures OnErrors(FRESH, Errors(arms + [arm]))
         == if arm.ErrorArm? then OnError(OnErrors(FRESH, Errors(arms)), arm.error) else OnErrors(FRESH, Errors(arms))
  {
    assert (arms + [arm])[..|arms|] == arms;
    if arm.ErrorArm? {
      assert (Errors(arms) + [arm.error])[..|Errors(arms)|] == Errors(arms);
    } else {
      assert Errors(arms) + [] == Errors(arms);
    }
  }

  lemma {:induction false} OnErrorsConcat(r: Retry, a: seq<ClientError>, b: seq<ClientError>)
    ensures OnErrors(r, a + b) == OnErrors(OnErrors(r, a), b)
  {
    if b == [] {
      assert a + b == a;
    } else {
      assert (a + b)[..|a + b| - 1] == a + b[..|b| - 1];
      OnErrorsConcat(r, a, b[..|b| - 1]);
    }
  }

  /** What has been handled after one more arm. */
  lemma TakeArm(sink: bool, before: Caption, arms: seq<Arm>, i: nat)
    requires i < |arms|
    ensures Run(sink, before, Events(arms[..i + 1])) == Run(sink, Run(sink, before, Events(arms[..i])), ArmEvents(arms[i]))
    ensures OnErrors(FRESH, Errors(arms[..i + 1])) == OnErrors(OnErrors(FRESH, Errors(arms[..i])), ArmErrors(arms[i]))
  {
    assert arms[..i + 1][..i] == arms[..i];
    RunConcat(sink, before, Events(arms[..i]), ArmEvents(arms[i]));
    OnErrorsConcat(FRESH, Errors(arms[..i]), ArmErrors(arms[i]));
  }

  lemma ReceivedTextIsShown(arms: seq<Arm>)
    ensures var s := Run(true, INITIAL, Events(arms));
            Replay(s.log).settled + s.pending == ReceivedText(arms)
  {
    RunKeepsView(Events(arms));
    ReceivedTextIsSpoken(arms);
  }

  lemma {:induction false} EventsKeepView(s: Caption, events: seq<Event>, spoken: string)
    requires ViewAgrees(s, spoken)
    ensures ViewAgrees(Run(true, s, events), spoken + Spoken(events))
  {
    if events == [] {
      assert spoken + "" == spoken;
    } else {
      var front, e := events[..|events| - 1], events[|events| - 1];
      EventsKeepView(s, front, spoken);
      StepKeepsView(Run(true, s, front), e, spoken + Spoken(front));
      Associative(spoken, Spoken(front), e.Token());
    }
  }

  /** After a drain all text, what trailed in during the drain included, is settled in finals. */
  lemma DrainSettles(s: Caption, arms: seq<DrainArm>, end: int, spoken: string)
    requires ViewAgrees(s, spoken)
    ensures var t := Run(true, s, DrainEvents(arms) + [Shutdown(end)]);
            && ViewAgrees(t, spoken + DrainedText(arms))
            && Replay(t.log).settled == spoken + DrainedText(arms)
  {
    var events := DrainEvents(arms) + [Shutdown(end)];
    EventsKeepView(s, events, spoken);
    ArmSpoken(DoneArm(arms, end));
    ArmExactly(s, DoneArm(arms, end));
    var t := Run(true, s, events);
    assert Replay(t.log).settled + "" == Replay(t.log).settled;
  }

  lemma StillRunning(arms: seq<Arm>, n: nat)
    requires 0 < n <= |arms| && !arms[n - 1].DoneArm?
    requires forall j :: 0 <= j < n - 1 ==> !arms[j].DoneArm?
    ensures forall j :: 0 <= j < n ==> !arms[j].DoneArm?
  {
  }

  class CaptionTranscriber {
    /** Whether the broadcast callback is set; it is, for every transcriber a room creates. */
    const hasBroadcast: bool
    var pendingText: string
    var broadcastDirty: bool
    var lastBroadcast: int
    /** Every call of the callback so far. */
    ghost var log: seq<Broadcast>

    ghost function State(): Caption
      reads this
    {
      Caption(pendingText, broadcastDirty, lastBroadcast, log)
    }

    constructor (hasBroadcast: bool)
      ensures this.hasBroadcast == hasBroadcast
      ensures State() == INITIAL
    {
      this.hasBroadcast := hasBroadcast;
      pendingText, broadcastDirty, lastBroadcast := "", false, 0;
      log := [];
    }

    method HandleTranscript(text: string, final: bool, now: int)
      modifies this
      ensures State() == Step(hasBroadcast, old(State()), Transcript(text, final, now))
    {
      if final {
        if pendingText != "" {
          if hasBroadcast {
            log := log + [Broadcast(pendingText, true, FromMarker, now, now)];
            lastBroadcast := now;
          }
          pendingText := "";
          broadcastDirty := false;
        }
        return;
      }
      if text == "" {
        return;
      }
      pendingText := pendingText + text;
      broadcastDirty := true;
      if hasBroadcast {
        if now - lastBroadcast >= BROADCAST_MIN_INTERVAL {
          log := log + [Broadcast(pendingText, false, FromToken, now, now)];
          lastBroadcast := now;
          broadcastDirty := false;
        }
      }
    }

    method FlushPendingBroadcast(at: int, now: int)
      modifies this
      ensures State() == Step(hasBroadcast, old(State()), FlushTick(at, now))
    {
      if broadcastDirty && hasBroadcast && pendingText != "" {
        log := log + [Broadcast(pendingText, false, FromTick, at, now)];
        lastBroadcast := now;
        broadcastDirty := false;
      }
    }

    method FlushPendingFinal(now: int)
      modifies this
      ensures State() == Step(hasBroadcast, old(State()), NormalClose(now))
      ensures State() == Step(hasBroadcast, old(State()), Shutdown(now))
    {
      if pendingText == "" || !hasBroadcast {
        return;
      }
      log := log + [Broadcast(pendingText, true, FromMarker, now, now)];
      lastBroadcast := now;
      pendingText := "";
      broadcastDirty := false;
    }

    method DrainOnShutdown(arms: seq<DrainArm>, end: int)
      modifies this
      ensures State() == Run(hasBroadcast, old(State()), DrainEvents(arms) + [Shutdown(end)])
      ensures hasBroadcast ==> pendingText == ""
      ensures forall spoken :: hasBroadcast && ViewAgrees(old(State()), spoken) ==>
                ViewAgrees(State(), spoken + DrainedText(arms)) && Replay(log).settled == spoken + DrainedText(arms)
    {
      ghost var before := State();
      for i := 0 to |arms|
        invariant State() == Run(hasBroadcast, before, DrainEvents(arms[..i]))
      {
        assert arms[..i + 1][..i] == arms[..i];
        ghost var handled := DrainEvents(arms[..i]);
        assert handled + [] == handled;
        match arms[i]
        case DrainAudio =>
        case DrainTranscript(text, final, now) =>
          HandleTranscript(text, final, now);
          RunConcat(hasBroadcast, before, handled, [Transcript(text, final, now)]);
        case DrainError =>
      }
      assert arms[..|arms|] == arms;
      FlushPendingFinal(end);
      RunConcat(hasBroadcast, before, DrainEvents(arms), [Shutdown(end)]);
      forall spoken | hasBroadcast && ViewAgrees(before, spoken)
        ensures ViewAgrees(State(), spoken + DrainedText(arms)) && Replay(log).settled == spoken + DrainedText(arms)
      {
        DrainSettles(before, arms, end, spoken);
      }
    }

    /** The error arm of the main loop: finish the utterance on a normal close, else retry within bounds. */
    method HandleClientError(error: ClientError, now: int, attempts: nat, multiplier: real, ghost tries: seq<Try>)
      returns (attempts': nat, multiplier': real, ghost tries': seq<Try>)
      modifies this
      ensures State() == Run(hasBroadcast, old(State()), ArmEvents(ErrorArm(error, now)))
      ensures Retry(attempts', multiplier', tries') == OnError(Retry(attempts, multiplier, tries), error)
    {
      attempts', multiplier', tries' := attempts, multiplier, tries;
      ghost var before := State();
      if error.normalClose {
        FlushPendingFinal(now);
        assert Run(hasBroadcast, before, []) == before;
        return;
      }
      if !error.connected {
        if attempts < MAX_ATTEMPTS {
          attempts' := attempts + 1;
          tries' := tries + [Try(multiplier.Floor, error.reconnects)];
          multiplier' := if 2.0 * multiplier < BACKOFF_CAP then 2.0 * multiplier else BACKOFF_CAP;
          if error.reconnects {
            attempts' := 0;
            multiplier' := 1.0;
          }
        }
      }
    }

    /** One turn of the main loop: the chosen arm's caption events and reconnect errors, nothing else. */
    method HandleArm(arm: Arm, attempts: nat, multiplier: real, ghost tries: seq<Try>)
      returns (attempts': nat, multiplier': real, ghost tries': seq<Try>)
      modifies this
      ensures State() == Run(hasBroadcast, old(State()), ArmEvents(arm))
      ensures Retry(attempts', multiplier', tries') == OnErrors(Retry(attempts, multiplier, tries), ArmErrors(arm))
      ensures arm.DoneArm? && hasBroadcast ==> pendingText == ""
    {
      attempts', multiplier', tries' := attempts, multiplier, tries;
      match arm
      case DoneArm(drained, end) =>
        DrainOnShutdown(drained, end);
      case TickArm(at, now) =>
        FlushPendingBroadcast(at, now);
      case TranscriptArm(text, final, now) =>
        HandleTranscript(text, final, now);
      case ErrorArm(error, now) =>
        attempts', multiplier', tries' := HandleClientError(error, now, attempts, multiplier, tries);
      case AudioArm =>
    }

    /** A turn as seen from the start of the loop: one more arm of the schedule has been handled. */
    method HandleNext(arms: seq<Arm>, i: nat, attempts: nat, multiplier: real,
                      ghost before: Caption, ghost tries: seq<Try>)
      returns (attempts': nat, multiplier': real, ghost tries': seq<Try>)
      requires i < |arms|
      requires State() == Run(hasBroadcast, before, Events(arms[..i]))
      requires Retry(attempts, multiplier, tries) == OnErrors(FRESH, Errors(arms[..i]))
      modifies this
      ensures State() == Run(hasBroadcast, before, Events(arms[..i + 1]))
      ensures Retry(attempts', multiplier', tries') == OnErrors(FRESH, Errors(arms[..i + 1]))
      ensures arms[i].DoneArm? && hasBroadcast ==> pendingText == ""
    {
      TakeArm(hasBroadcast, before, arms, i);
      attempts', multiplier', tries' := HandleArm(arms[i], attempts, multiplier, tries);
    }

    /**
     * The main loop against any schedule of ready arms. It handles arms up to and including the first
     * cancellation; captions and reconnects evolve exactly as their step functions say, independently of
     * each other and of the audio arm; a cancellation leaves nothing pending; and settled and pending text
     * together are the token texts received, those of the drain included.
     */
    method RunLoop(arms: seq<Arm>) returns (handled: nat, ghost retry: Retry)
      modifies this
      ensures handled <= |arms|
      ensures forall j :: 0 <= j < handled - 1 ==> !arms[j].DoneArm?
      ensures handled < |arms| ==> handled > 0 && arms[handled - 1].DoneArm?
      ensures State() == Run(hasBroadcast, old(State()), Events(arms[..handled]))
      ensures retry == OnErrors(FRESH, Errors(arms[..handled]))
      ensures handled > 0 && arms[handled - 1].DoneArm? && hasBroadcast ==> pendingText == ""
      ensures hasBroadcast && old(State()) == INITIAL ==>
                Replay(log).settled + pendingText == ReceivedText(arms[..handled])
    {
      ghost var before := State();
      var modalConnectAttempts: nat := 0;
      var backoffMultiplier := 1.0;
      ghost var tries: seq<Try> := [];
      handled := 0;
      assert arms[..0] == [];
      while handled < |arms|
        invariant handled <= |arms|
        invariant forall j :: 0 <= j < handled ==> !arms[j].DoneArm?
        invariant State() == Run(hasBroadcast, before, Events(arms[..handled]))
        invariant Retry(modalConnectAttempts, backoffMultiplier, tries) == OnErrors(FRESH, Errors(arms[..handled]))
      {
        modalConnectAttempts, backoffMultiplier, tries :=
          HandleNext(arms, handled, modalConnectAttempts, backoffMultiplier, before, tries);
        var arm := arms[handled];
        handled := handled + 1;
        if arm.DoneArm? {
          break;
        }
        StillRunning(arms, handled);
      }
      retry := Retry(modalConnectAttempts, backoffMultiplier, tries);
      ReceivedTextIsShown(arms[..handled]);
    }
  }
}
