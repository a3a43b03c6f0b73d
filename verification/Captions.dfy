/**
 * The caption state machine of one speaker: tokens accumulate into an utterance, growing
 * partials are throttled, and an end marker turns the utterance into a final.
 *
 * `Step` says what one event does; `CaptionTranscriber` (in Transcriber.dfy) is the stateful
 * code proved against it; the lemmas here are about every run of `Step`.
 */
module Captions {
  import opened Options
  import opened Sequences

  /** The smallest gap, in nanoseconds, between two throttled partials (80 ms). */
  const BROADCAST_MIN_INTERVAL: int := 80_000_000

  /** What made the transcriber call its broadcast callback. */
  datatype Origin = FromToken | FromTick | FromMarker

  /**
   * One call of the callback: `at` is when it was called, `stamp` the time the transcriber recorded for it.
   * Of a final only the recorded time is kept.
   */
  datatype Broadcast = Broadcast(text: string, final: bool, origin: Origin, at: int, stamp: int)

  /**
   * What the transcriber handles, each with the clock reading taken while handling it. A token reads the clock
   * just before it calls the callback; a tick calls it at `at` and reads the clock when the call has returned.
   */
  datatype Event =
    | Transcript(text: string, final: bool, now: int)
    | FlushTick(at: int, now: int)
    | NormalClose(now: int)
    | Shutdown(now: int)
  {
    /** The end of an utterance. */
    predicate IsMarker() {
      (Transcript? && final) || NormalClose? || Shutdown?
    }

    /** When the event calls the callback, if it sends a partial. */
    function At(): int {
      if FlushTick? then at else now
    }

    /** The token text carried by the event; the text of an end marker is never looked at. */
    function Token(): string {
      if Transcript? && !final then text else ""
    }
  }

  /** `last` counts from Go's zero time, which is also its initial value. */
  datatype Caption = Caption(pending: string, dirty: bool, last: int, log: seq<Broadcast>)

  const INITIAL := Caption("", false, 0, [])

  function FinalizeUtterance(sink: bool, s: Caption, now: int): Caption {
    if s.pending == "" then s
    else if sink then Caption("", false, now, s.log + [Broadcast(s.pending, true, FromMarker, now, now)])
    else s.(pending := "", dirty := false)
  }

  function AcceptToken(sink: bool, s: Caption, text: string, now: int): Caption {
    if text == "" then s
    else
      var grown := s.(pending := s.pending + text, dirty := true);
      if sink && now - s.last >= BROADCAST_MIN_INTERVAL
      then Caption(grown.pending, false, now, s.log + [Broadcast(grown.pending, false, FromToken, now, now)])
      else grown
  }

  function FlushPartial(sink: bool, s: Caption, at: int, now: int): Caption {
    if s.dirty && sink && s.pending != ""
    then s.(dirty := false, last := now, log := s.log + [Broadcast(s.pending, false, FromTick, at, now)])
    else s
  }

  function FlushFinal(sink: bool, s: Caption, now: int): Caption {
    if sink then FinalizeUtterance(sink, s, now) else s
  }

  /** The effect of one event; `sink` says whether the broadcast callback is set. */
  function Step(sink: bool, s: Caption, e: Event): Caption {
    match e
    case Transcript(text, final, now) =>
      if final then FinalizeUtterance(sink, s, now) else AcceptToken(sink, s, text, now)
    case FlushTick(at, now) => FlushPartial(sink, s, at, now)
    case NormalClose(now) => FlushFinal(sink, s, now)
    case Shutdown(now) => FlushFinal(sink, s, now)
  }

  function Run(sink: bool, s: Caption, events: seq<Event>): Caption {
    if events == [] then s
    else Step(sink, Run(sink, s, events[..|events| - 1]), events[|events| - 1])
  }

  lemma {:induction false} RunConcat(sink: bool, s: Caption, a: seq<Event>, b: seq<Event>)
    ensures Run(sink, s, a + b) == Run(sink, Run(sink, s, a), b)
  {
    if b == [] {
      assert a + b == a;
    } else {
      assert (a + b)[..|a + b| - 1] == a + b[..|b| - 1];
      RunConcat(sink, s, a, b[..|b| - 1]);
    }
  }

  // ----- What one event sends -----

  /** The event sends a partial. */
  predicate SendsPartial(s: Caption, e: Event) {
    match e
    case Transcript(text, final, now) => !final && text != "" && now - s.last >= BROADCAST_MIN_INTERVAL
    case FlushTick(_, _) => s.dirty && s.pending != ""
    case _ => false
  }

  function Sent(s: Caption, e: Event): Option<Broadcast> {
    if e.IsMarker() && s.pending != "" then Some(Broadcast(s.pending, true, FromMarker, e.now, e.now))
    else if SendsPartial(s, e) then
      var origin := if e.FlushTick? then FromTick else FromToken;
      Some(Broadcast(s.pending + e.Token(), false, origin, e.At(), e.now))
    else None
  }

  /** An event sends the whole utterance so far, as a final or a partial, and records it; or nothing. */
  lemma StepSends(s: Caption, e: Event)
    ensures var t, sent := Step(true, s, e), Sent(s, e);
            && (sent.Some? ==> t.log == s.log + [sent.value] && t.last == e.now && !t.dirty)
            && (sent.None? ==> t.log == s.log && t.last == s.last)
            && t.pending == if e.IsMarker() then "" else s.pending + e.Token()
  {
    assert s.pending + "" == s.pending;
  }

  /** What each kind of event does to the utterance and what it sends, whatever went before. */
  lemma StepExactly(s: Caption, e: Event)
    ensures e.Transcript? && !e.final ==>
              var t := Step(true, s, e);
              && t.pending == s.pending + e.text
              && (t.log != s.log <==> e.text != "" && e.now >= s.last + 80_000_000)
              && (t.log != s.log ==>
                    && !t.dirty && t.last == e.now
                    && t.log == s.log + [Broadcast(s.pending + e.text, false, FromToken, e.now, e.now)])
              && (t.log == s.log ==> t.last == s.last && t.dirty == (s.dirty || e.text != ""))
    ensures e.FlushTick? ==>
              var t := Step(true, s, e);
              && t.pending == s.pending
              && (!t.dirty || s.pending == "")
              && t.log == s.log + (if s.dirty && s.pending != "" then [Broadcast(s.pending, false, FromTick, e.at, e.now)] else [])
    ensures e.NormalClose? || e.Shutdown? || (e.Transcript? && e.final) ==>
              var t := Step(true, s, e);
              && t.pending == ""
              && (s.pending != "" ==> !t.dirty && t.last == e.now)
              && t.log == s.log + (if s.pending != "" then [Broadcast(s.pending, true, FromMarker, e.now, e.now)] else [])
  {
    assert s.pending + "" == s.pending;
  }

  // ----- The viewer -----

  /** What a participant sees: finished text, then the line being spoken. */
  datatype View = View(settled: string, line: string) {
    function Shown(): string { settled + line }
  }

  /** A participant's client: a partial replaces the current line, a final appends and clears it. */
  function Replay(log: seq<Broadcast>): View {
    if log == [] then View("", "")
    else
      var before := Replay(log[..|log| - 1]);
      var b := log[|log| - 1];
      if b.final then View(before.settled + b.text, "") else View(before.settled, b.text)
  }

  lemma ReplaySnoc(log: seq<Broadcast>, b: Broadcast)
    ensures Replay(log + [b])
         == if b.final then View(Replay(log).settled + b.text, "") else View(Replay(log).settled, b.text)
  {
    assert (log + [b])[..|log|] == log;
  }

  /** All token text handled, in order. */
  function Spoken(events: seq<Event>): string {
    if events == [] then "" else Spoken(events[..|events| - 1]) + events[|events| - 1].Token()
  }

  /** Settled text and pending utterance make up what was spoken; the line lags behind the utterance. */
  ghost predicate ViewAgrees(s: Caption, spoken: string) {
    var v := Replay(s.log);
    && v.settled + s.pending == spoken
    && v.line <= s.pending
    && (s.dirty <==> v.line != s.pending)
  }

  lemma StepKeepsView(s: Caption, e: Event, spoken: string)
    requires ViewAgrees(s, spoken)
    ensures ViewAgrees(Step(true, s, e), spoken + e.Token())
  {
    var t := Step(true, s, e);
    Associative(Replay(s.log).settled, s.pending, e.Token());
    if t.log != s.log {
      ReplaySnoc(s.log, t.log[|s.log|]);
    }
  }

  /** One event adds at most one broadcast, and what it adds extends what the viewer already sees. */
  lemma StepShowsMore(s: Caption, e: Event, spoken: string)
    requires ViewAgrees(s, spoken)
    ensures s.log <= Step(true, s, e).log && |Step(true, s, e).log| <= |s.log| + 1
    ensures Replay(s.log).Shown() <= Replay(Step(true, s, e).log).Shown()
  {
    StepSends(s, e);
    if Sent(s, e).Some? {
      var v, b := Replay(s.log), Sent(s, e).value;
      assert v.line <= s.pending <= b.text;
      PrefixConcat(v.settled, v.line, b.text);
      ReplaySnoc(s.log, b);
      assert v.settled + b.text + "" == v.settled + b.text;
    }
  }

  lemma {:induction false} RunKeepsView(events: seq<Event>)
    ensures ViewAgrees(Run(true, INITIAL, events), Spoken(events))
  {
    if events == [] {
    } else {
      var front := events[..|events| - 1];
      RunKeepsView(front);
      StepKeepsView(Run(true, INITIAL, front), events[|events| - 1], Spoken(front));
    }
  }

  /** For every run: the viewer shows a prefix of what was spoken, and all of it unless text is held back. */
  lemma ViewerShowsSpokenPrefix(events: seq<Event>)
    ensures var s := Run(true, INITIAL, events);
            && Replay(s.log).Shown() <= Spoken(events)
            && (Replay(s.log).Shown() == Spoken(events) <==> !s.dirty)
            && (s.dirty <==> s.pending != "" && Replay(s.log).line != s.pending)
  {
    RunKeepsView(events);
    var s := Run(true, INITIAL, events);
    var v := Replay(s.log);
    assert Spoken(events) == v.settled + v.line + s.pending[|v.line|..];
    if v.Shown() == Spoken(events) {
      assert |v.line| == |s.pending|;
      assert s.pending[..|s.pending|] == s.pending;
    }
  }

  /** After a flush tick nothing handled is hidden from the viewer. */
  lemma FlushTickShowsAll(events: seq<Event>, at: int, now: int)
    ensures Replay(Run(true, INITIAL, events + [FlushTick(at, now)]).log).Shown() == Spoken(events)
  {
    var all := events + [FlushTick(at, now)];
    assert all[..|events|] == events;
    RunKeepsView(events);
    ViewerShowsSpokenPrefix(all);
    assert Spoken(all) == Spoken(events);
  }

  function ShownAfter(events: seq<Event>): string {
    Replay(Run(true, INITIAL, events).log).Shown()
  }

  lemma OneMoreShows(events: seq<Event>, e: Event)
    ensures ShownAfter(events) <= ShownAfter(events + [e])
  {
    assert (events + [e])[..|events|] == events;
    RunKeepsView(events);
    StepShowsMore(Run(true, INITIAL, events), e, Spoken(events));
  }

  /** Text once shown is never taken back or changed by anything handled later. */
  lemma {:induction false} ShownTextNeverShrinks(events: seq<Event>, more: seq<Event>)
    ensures ShownAfter(events) <= ShownAfter(events + more)
  {
    if more == [] {
      assert events + more == events;
    } else {
      var front, e := more[..|more| - 1], more[|more| - 1];
      ShownTextNeverShrinks(events, front);
      OneMoreShows(events + front, e);
      assert events + more == events + front + [e];
    }
  }

  // ----- Finals are the utterances -----

  function NonEmpty(text: string): seq<string> {
    if text == "" then [] else [text]
  }

  /** Where the first end marker is; the length when there is none. */
  function FirstMarker(events: seq<Event>): (k: nat)
    ensures k <= |events|
    ensures forall i :: 0 <= i < k ==> !events[i].IsMarker()
    ensures k < |events| ==> events[k].IsMarker()
  {
    if events == [] || events[0].IsMarker() then 0 else 1 + FirstMarker(events[1..])
  }

  /** The event stream cut at every end marker, empty utterances left out. */
  function Utterances(events: seq<Event>): seq<string>
    decreases |events|
  {
    var k := FirstMarker(events);
    if k == |events| then []
    else NonEmpty(Spoken(events[..k])) + Utterances(events[k + 1..])
  }

  /** The text spoken since the last end marker. */
  function OpenTail(events: seq<Event>): string
    decreases |events|
  {
    var k := FirstMarker(events);
    if k == |events| then Spoken(events) else OpenTail(events[k + 1..])
  }

  function Finals(log: seq<Broadcast>): seq<string> {
    if log == [] then []
    else Finals(log[..|log| - 1]) + (if log[|log| - 1].final then [log[|log| - 1].text] else [])
  }

  lemma {:induction false} FirstMarkerSnoc(events: seq<Event>, e: Event)
    ensures FirstMarker(events + [e])
         == if FirstMarker(events) < |events| || e.IsMarker() then FirstMarker(events) else |events| + 1
  {
    if events == [] || events[0].IsMarker() {
    } else {
      FirstMarkerSnoc(events[1..], e);
      assert (events + [e])[1..] == events[1..] + [e];
    }
  }

  lemma UtterancesCut(events: seq<Event>, k: nat)
    requires k == FirstMarker(events) < |events|
    ensures Utterances(events) == NonEmpty(Spoken(events[..k])) + Utterances(events[k + 1..])
    ensures OpenTail(events) == OpenTail(events[k + 1..])
  {
  }

  /** How cutting responds to one more event: only an end marker closes the open tail. */
  lemma {:induction false} UtterancesSnoc(events: seq<Event>, e: Event)
    ensures Utterances(events + [e])
         == Utterances(events) + (if e.IsMarker() then NonEmpty(OpenTail(events)) else [])
    ensures OpenTail(events + [e]) == if e.IsMarker() then "" else OpenTail(events) + e.Token()
    decreases |events|
  {
    var k := FirstMarker(events);
    if k < |events| {
      var all, rest := events + [e], events[k + 1..];
      assert FirstMarker(all) == k by { FirstMarkerSnoc(events, e); }
      assert all[k + 1..] == rest + [e] && all[..k] == events[..k];
      UtterancesCut(events, k);
      UtterancesCut(all, k);
      UtterancesSnoc(rest, e);
      Associative(NonEmpty(Spoken(events[..k])), Utterances(rest), if e.IsMarker() then NonEmpty(OpenTail(rest)) else []);
    } else {
      UncutSnoc(events, e);
    }
  }

  lemma UncutSnoc(events: seq<Event>, e: Event)
    requires FirstMarker(events) == |events|
    ensures Utterances(events + [e]) == if e.IsMarker() then NonEmpty(OpenTail(events)) else []
    ensures OpenTail(events + [e]) == if e.IsMarker() then "" else OpenTail(events) + e.Token()
  {
    FirstMarkerSnoc(events, e);
    assert (events + [e])[..|events|] == events;
    assert (events + [e])[|events| + 1..] == [];
    assert Utterances([]) == [];
    assert OpenTail([]) == "";
  }

  lemma FinalsSnoc(log: seq<Broadcast>, b: Broadcast)
    ensures Finals(log + [b]) == Finals(log) + (if b.final then [b.text] else [])
  {
    assert (log + [b])[..|log|] == log;
  }

  lemma StepFinals(s: Caption, e: Event)
    ensures Finals(Step(true, s, e).log) == Finals(s.log) + (if e.IsMarker() then NonEmpty(s.pending) else [])
    ensures Step(true, s, e).pending == if e.IsMarker() then "" else s.pending + e.Token()
  {
    StepSends(s, e);
    if Sent(s, e).Some? {
      FinalsSnoc(s.log, Sent(s, e).value);
    }
  }

  ghost predicate FinalsAgree(s: Caption, events: seq<Event>) {
    Finals(s.log) == Utterances(events) && s.pending == OpenTail(events)
  }

  lemma FinalsFollow(s: Caption, front: seq<Event>, e: Event)
    requires FinalsAgree(s, front)
    ensures FinalsAgree(Step(true, s, e), front + [e])
  {
    StepFinals(s, e);
    UtterancesSnoc(front, e);
  }

  /** For every run: the finals sent are exactly the utterances, and the pending text is the open tail. */
  lemma {:induction false} FinalsAreUtterances(events: seq<Event>)
    ensures FinalsAgree(Run(true, INITIAL, events), events)
  {
    if events == [] {
      assert Utterances([]) == [] && OpenTail([]) == "";
    } else {
      var front, e := events[..|events| - 1], events[|events| - 1];
      FinalsAreUtterances(front);
      FinalsFollow(Run(true, INITIAL, front), front, e);
      assert events == front + [e];
    }
  }

  /** A shutdown leaves nothing behind: no pending text, and every spoken word inside some final. */
  lemma ShutdownLeavesNothingPending(events: seq<Event>, now: int)
    ensures var s := Run(true, INITIAL, events + [Shutdown(now)]);
            s.pending == "" && !s.dirty && Replay(s.log) == View(Spoken(events), "")
  {
    MarkerSettlesAll(events, Shutdown(now));
  }

  /** So do a normal close and a final transcript. */
  lemma MarkerSettlesAll(events: seq<Event>, e: Event)
    requires e.Shutdown? || e.NormalClose? || (e.Transcript? && e.final)
    ensures var s := Run(true, INITIAL, events + [e]);
            s.pending == "" && !s.dirty && Replay(s.log) == View(Spoken(events), "")
  {
    var all := events + [e];
    assert all[..|events|] == events;
    RunKeepsView(events);
    RunKeepsView(all);
    assert Spoken(all) == Spoken(events);
    var s := Run(true, INITIAL, all);
    assert Replay(s.log).settled + "" == Replay(s.log).settled;
  }

  // ----- Partials of one utterance -----

  /** Consecutive broadcasts of one utterance grow, strictly while they are partials. */
  ghost predicate Growing(log: seq<Broadcast>) {
    && (forall i :: 0 <= i < |log| ==> log[i].text != "")
    && (forall i :: 0 < i < |log| && !log[i - 1].final ==>
          log[i - 1].text <= log[i].text && (log[i].final || log[i - 1].text != log[i].text))
  }

  lemma ReplayLine(log: seq<Broadcast>)
    ensures Replay(log).line == if log == [] || log[|log| - 1].final then "" else log[|log| - 1].text
  {
  }

  lemma GrowingSnoc(log: seq<Broadcast>, b: Broadcast)
    requires Growing(log) && b.text != ""
    requires Replay(log).line <= b.text && (b.final || Replay(log).line != b.text)
    ensures Growing(log + [b])
  {
    ReplayLine(log);
    var longer := log + [b];
    forall i | 0 < i < |longer| && !longer[i - 1].final
      ensures longer[i - 1].text <= longer[i].text && (longer[i].final || longer[i - 1].text != longer[i].text)
    {
      if i < |log| {
        assert longer[i - 1] == log[i - 1] && longer[i] == log[i];
      }
    }
  }

  lemma StepGrows(s: Caption, e: Event, spoken: string)
    requires Growing(s.log) && ViewAgrees(s, spoken)
    ensures Growing(Step(true, s, e).log)
  {
    StepSends(s, e);
    if Sent(s, e).Some? {
      var b := Sent(s, e).value;
      assert s.pending <= s.pending + e.Token();
      GrowingSnoc(s.log, b);
    }
  }

  lemma {:induction false} RunGrows(events: seq<Event>)
    ensures Growing(Run(true, INITIAL, events).log)
  {
    if events == [] {
    } else {
      var front := events[..|events| - 1];
      RunGrows(front);
      RunKeepsView(front);
      StepGrows(Run(true, INITIAL, front), events[|events| - 1], Spoken(front));
    }
  }

  /** For every run: partials of one utterance strictly grow and are prefixes of the final that ends it. */
  lemma {:induction false} PartialsGrowIntoTheFinal(events: seq<Event>, i: nat, j: nat)
    requires i < j < |Run(true, INITIAL, events).log|
    requires forall k :: i <= k < j ==> !Run(true, INITIAL, events).log[k].final
    ensures var log := Run(true, INITIAL, events).log;
            && "" < log[i].text <= log[j].text
            && (!log[j].final ==> log[i].text < log[j].text)
    decreases j
  {
    RunGrows(events);
    if i + 1 == j {
    } else {
      PartialsGrowIntoTheFinal(events, i, j - 1);
    }
  }

  // ----- Throttling -----

  /** Clock readings never go back, calls included, and start no earlier than the zero time. */
  ghost predicate MonotoneClock(events: seq<Event>) {
    && (forall i :: 0 <= i < |events| ==> 0 <= events[i].At() <= events[i].now)
    && (forall i, j :: 0 <= i < j < |events| ==> events[i].now <= events[j].At())
  }

  /** A call is recorded when it returns, a token's when it starts; the next call comes after the record. */
  ghost predicate Timed(log: seq<Broadcast>) {
    && (forall i :: 0 <= i < |log| ==> 0 <= log[i].at <= log[i].stamp)
    && (forall i :: 0 <= i < |log| && log[i].origin == FromToken ==> log[i].at == log[i].stamp)
    && (forall i, j :: 0 <= i < j < |log| ==> log[i].stamp <= log[j].at)
  }

  /** Each token-driven partial is a full interval later than everything recorded before it. */
  ghost predicate Throttled(log: seq<Broadcast>) {
    && Timed(log)
    && (forall i, j :: 0 <= i < j < |log| && log[j].origin == FromToken ==>
          log[i].stamp + BROADCAST_MIN_INTERVAL <= log[j].at)
  }

  /** The recorded time is that of the latest broadcast, and not in the future. */
  ghost predicate Recorded(s: Caption, now: int) {
    && Throttled(s.log)
    && s.last == (if s.log == [] then 0 else s.log[|s.log| - 1].stamp)
    && 0 <= s.last <= now
  }

  lemma ThrottledSnoc(log: seq<Broadcast>, b: Broadcast)
    requires Throttled(log) && 0 <= b.at <= b.stamp
    requires b.origin == FromToken ==> b.at == b.stamp
    requires log != [] ==>
               var last := log[|log| - 1].stamp;
               last <= b.at && (b.origin == FromToken ==> last + BROADCAST_MIN_INTERVAL <= b.at)
    ensures Throttled(log + [b])
  {
    forall i | 0 <= i < |log| ensures log[i].stamp <= log[|log| - 1].stamp {
      if i < |log| - 1 {
        assert log[i].stamp <= log[|log| - 1].at;
      }
    }
  }

  lemma StepThrottles(s: Caption, e: Event)
    requires Recorded(s, e.At()) && e.At() <= e.now
    ensures Recorded(Step(true, s, e), e.now)
  {
    StepSends(s, e);
    if Sent(s, e).Some? {
      ThrottledSnoc(s.log, Sent(s, e).value);
    }
  }

  lemma {:induction false} RunThrottles(events: seq<Event>)
    requires MonotoneClock(events)
    ensures Recorded(Run(true, INITIAL, events), if events == [] then 0 else events[|events| - 1].now)
  {
    if events == [] {
    } else {
      RunThrottles(events[..|events| - 1]);
      StepThrottles(Run(true, INITIAL, events[..|events| - 1]), events[|events| - 1]);
    }
  }

  /** What the last event of a run finds. */
  lemma RecordedBefore(front: seq<Event>, e: Event)
    requires MonotoneClock(front + [e])
    ensures MonotoneClock(front)
    ensures Recorded(Run(true, INITIAL, front), e.At()) && e.At() <= e.now
  {
    var all := front + [e];
    assert forall i :: 0 <= i < |front| ==> all[i] == front[i];
    assert all[|front|] == e;
    RunThrottles(front);
  }

  /** How many broadcasts of one origin were sent in the window from `t` to `u`. */
  function CountIn(log: seq<Broadcast>, origin: Origin, t: int, u: int): nat {
    if log == [] then 0
    else
      var b := log[|log| - 1];
      CountIn(log[..|log| - 1], origin, t, u) + (if b.origin == origin && t <= b.at <= u then 1 else 0)
  }

  lemma {:induction false} CountNarrowed(log: seq<Broadcast>, t: int, u: int, v: int)
    requires forall i :: 0 <= i < |log| ==> log[i].at <= v
    ensures CountIn(log, FromToken, t, u) <= CountIn(log, FromToken, t, v)
  {
    if log == [] {
    } else {
      CountNarrowed(log[..|log| - 1], t, u, v);
    }
  }

  lemma {:induction false} WindowBound(log: seq<Broadcast>, t: int, u: int)
    requires Throttled(log)
    ensures CountIn(log, FromToken, t, u) * BROADCAST_MIN_INTERVAL
         <= if t <= u + BROADCAST_MIN_INTERVAL then u - t + BROADCAST_MIN_INTERVAL else 0
    decreases |log|
  {
    if log == [] {
    } else {
      var front, b := log[..|log| - 1], log[|log| - 1];
      if b.origin == FromToken && t <= b.at <= u {
        CountNarrowed(front, t, u, b.at - BROADCAST_MIN_INTERVAL);
        WindowBound(front, t, b.at - BROADCAST_MIN_INTERVAL);
      } else {
        WindowBound(front, t, u);
      }
    }
  }

  function TicksIn(events: seq<Event>, t: int, u: int): nat {
    if events == [] then 0
    else
      var e := events[|events| - 1];
      TicksIn(events[..|events| - 1], t, u) + (if e.FlushTick? && t <= e.at <= u then 1 else 0)
  }

  lemma StepTickPartials(s: Caption, e: Event, t: int, u: int)
    ensures CountIn(Step(true, s, e).log, FromTick, t, u)
         <= CountIn(s.log, FromTick, t, u) + (if e.FlushTick? && t <= e.at <= u then 1 else 0)
  {
    var r := Step(true, s, e);
    if r.log != s.log {
      assert r.log[..|s.log|] == s.log;
    }
  }

  lemma {:induction false} TickPartialsNeedTicks(events: seq<Event>, t: int, u: int)
    ensures CountIn(Run(true, INITIAL, events).log, FromTick, t, u) <= TicksIn(events, t, u)
  {
    if events == [] {
    } else {
      var front := events[..|events| - 1];
      TickPartialsNeedTicks(front, t, u);
      StepTickPartials(Run(true, INITIAL, front), events[|events| - 1], t, u);
    }
  }

  /**
   * For every run under a monotone clock and every window of length `u - t`: at most one token-driven
   * partial per interval plus one, and all partials exceed that by at most one per flush tick.
   */
  lemma ThrottlingBound(events: seq<Event>, t: int, u: int)
    requires MonotoneClock(events) && t <= u
    ensures var log := Run(true, INITIAL, events).log;
            && CountIn(log, FromToken, t, u) <= (u - t) / BROADCAST_MIN_INTERVAL + 1
            && CountIn(log, FromToken, t, u) + CountIn(log, FromTick, t, u)
               <= (u - t) / BROADCAST_MIN_INTERVAL + 1 + TicksIn(events, t, u)
  {
    RunThrottles(events);
    WindowBound(Run(true, INITIAL, events).log, t, u);
    TickPartialsNeedTicks(events, t, u);
  }

  // ----- The interval between partials, exactly -----

  /** Any two partials are sent a full interval apart, as the comment on the interval promises; finals do not count. */
  ghost predicate IntervalKept(log: seq<Broadcast>) {
    forall i, j :: 0 <= i < j < |log| && !log[i].final && !log[j].final ==>
      log[i].at + BROADCAST_MIN_INTERVAL <= log[j].at
  }

  /** The latest partial, if any. */
  function LastPartial(log: seq<Broadcast>): Option<Broadcast> {
    if log == [] then None
    else if !log[|log| - 1].final then Some(log[|log| - 1])
    else LastPartial(log[..|log| - 1])
  }

  /** A flush tick that sends held-back text too soon after the last partial was sent. */
  predicate EarlyTick(s: Caption, e: Event) {
    && e.FlushTick? && s.dirty
    && LastPartial(s.log).Some? && e.at - LastPartial(s.log).value.at < BROADCAST_MIN_INTERVAL
  }

  lemma {:induction false} LastPartialLatest(log: seq<Broadcast>, i: nat)
    requires Timed(log) && i < |log| && !log[i].final
    ensures LastPartial(log).Some? && log[i].at <= LastPartial(log).value.at
  {
    var n := |log| - 1;
    if !log[n].final {
      assert i < n ==> log[i].stamp <= log[n].at;
    } else {
      LastPartialLatest(log[..n], i);
    }
  }

  lemma {:induction false} LastPartialWhere(log: seq<Broadcast>)
    ensures LastPartial(log).Some? ==> exists i :: 0 <= i < |log| && !log[i].final && log[i] == LastPartial(log).value
  {
    if log == [] {
    } else if !log[|log| - 1].final {
      assert log[|log| - 1] == LastPartial(log).value;
    } else {
      var front := log[..|log| - 1];
      LastPartialWhere(front);
      if i :| 0 <= i < |front| && !front[i].final && Some(front[i]) == LastPartial(front) {
        assert log[i] == front[i];
      }
    }
  }

  lemma LastPartialSnoc(log: seq<Broadcast>, b: Broadcast)
    ensures LastPartial(log + [b]) == if b.final then LastPartial(log) else Some(b)
  {
    assert (log + [b])[..|log|] == log;
  }

  lemma IntervalSnoc(log: seq<Broadcast>, b: Broadcast)
    requires Timed(log)
    ensures IntervalKept(log + [b])
            <==> IntervalKept(log)
                 && (b.final || LastPartial(log).None? || LastPartial(log).value.at + BROADCAST_MIN_INTERVAL <= b.at)
  {
    var longer := log + [b];
    if IntervalKept(longer) {
      forall i, j | 0 <= i < j < |log| && !log[i].final && !log[j].final
        ensures log[i].at + BROADCAST_MIN_INTERVAL <= log[j].at
      {
        assert longer[i] == log[i] && longer[j] == log[j];
      }
      LastPartialWhere(log);
      if i :| 0 <= i < |log| && !log[i].final && Some(log[i]) == LastPartial(log) {
        assert longer[i] == log[i] && longer[|log|] == b;
      }
    } else {
      forall i | 0 <= i < |log| && !log[i].final
        ensures LastPartial(log).Some? && log[i].at <= LastPartial(log).value.at
      {
        LastPartialLatest(log, i);
      }
    }
  }

  /** The last partial is recorded no later than the last broadcast, and so a token is never too early. */
  lemma LastPartialRecorded(s: Caption, now: int)
    requires Recorded(s, now)
    ensures LastPartial(s.log).Some? ==> 0 <= LastPartial(s.log).value.at <= LastPartial(s.log).value.stamp <= s.last
  {
    LastPartialWhere(s.log);
    if i :| 0 <= i < |s.log| && !s.log[i].final && Some(s.log[i]) == LastPartial(s.log) {
      assert i < |s.log| - 1 ==> s.log[i].stamp <= s.log[|s.log| - 1].at;
    }
  }

  lemma StepInterval(s: Caption, e: Event, spoken: string)
    requires Recorded(s, e.At()) && ViewAgrees(s, spoken)
    ensures IntervalKept(Step(true, s, e).log) <==> IntervalKept(s.log) && !EarlyTick(s, e)
  {
    LastPartialRecorded(s, e.At());
    StepSends(s, e);
    if Sent(s, e).Some? {
      IntervalSnoc(s.log, Sent(s, e).value);
    }
  }

  /** No event of the run is an early tick. */
  predicate NoEarlyTick(events: seq<Event>) {
    events == []
    || (var n := |events| - 1;
        NoEarlyTick(events[..n]) && !EarlyTick(Run(true, INITIAL, events[..n]), events[n]))
  }

  /** For every run under a monotone clock: the interval between partials is kept iff no flush tick is early. */
  lemma {:induction false} IntervalKeptExactly(events: seq<Event>)
    requires MonotoneClock(events)
    ensures IntervalKept(Run(true, INITIAL, events).log) <==> NoEarlyTick(events)
  {
    if events == [] {
    } else {
      var front, e := events[..|events| - 1], events[|events| - 1];
      assert events == front + [e];
      RecordedBefore(front, e);
      IntervalKeptExactly(front);
      RunKeepsView(front);
      StepInterval(Run(true, INITIAL, front), e, Spoken(front));
    }
  }

  /** What is sent for a token, a token soon after it, and a tick. */
  lemma TokensThenTick(first: int, second: int, at: int, now: int)
    requires BROADCAST_MIN_INTERVAL <= first <= second <= at <= now && second - first < BROADCAST_MIN_INTERVAL
    ensures var events := [Transcript("a", false, first), Transcript("b", false, second), FlushTick(at, now)];
            MonotoneClock(events)
            && Run(true, INITIAL, events).log
               == [Broadcast("a", false, FromToken, first, first), Broadcast("ab", false, FromTick, at, now)]
  {
    var a, b, c := Transcript("a", false, first), Transcript("b", false, second), FlushTick(at, now);
    assert [a, b, c][..2] == [a, b] && [a, b][..1] == [a] && [a][..0] == [];
    assert "" + "a" == "a" && "a" + "b" == "ab";
    var sent := Caption("a", false, first, [Broadcast("a", false, FromToken, first, first)]);
    assert Run(true, INITIAL, [a]) == Step(true, INITIAL, a) == sent;
    assert Run(true, INITIAL, [a, b]) == Step(true, sent, b) == Caption("ab", true, first, sent.log);
  }

  lemma TwoPartialsTooClose(b: Broadcast, c: Broadcast)
    requires !b.final && !c.final && c.at < b.at + BROADCAST_MIN_INTERVAL
    ensures !IntervalKept([b, c])
  {
    assert [b, c][0] == b && [b, c][1] == c;
  }

  /** It is not always kept: a tick 20 ms after a partial sends the token held back in between. */
  lemma EarlyTickBreaksInterval()
    ensures var events := [Transcript("a", false, 100_000_000), Transcript("b", false, 110_000_000),
                           FlushTick(120_000_000, 120_000_000)];
            MonotoneClock(events) && !IntervalKept(Run(true, INITIAL, events).log)
  {
    TokensThenTick(100_000_000, 110_000_000, 120_000_000, 120_000_000);
    TwoPartialsTooClose(Broadcast("a", false, FromToken, 100_000_000, 100_000_000),
                        Broadcast("ab", false, FromTick, 120_000_000, 120_000_000));
  }

  /** Recorded times do not show it: a slow call 70 ms after a partial is recorded 90 ms after it. */
  lemma SlowTickBreaksInterval()
    ensures var events := [Transcript("a", false, 100_000_000), Transcript("b", false, 155_000_000),
                           FlushTick(170_000_000, 190_000_000)];
            var log := Run(true, INITIAL, events).log;
            && MonotoneClock(events) && !IntervalKept(log)
            && |log| == 2 && log[1].stamp - log[0].stamp >= BROADCAST_MIN_INTERVAL
  {
    TokensThenTick(100_000_000, 155_000_000, 170_000_000, 190_000_000);
    TwoPartialsTooClose(Broadcast("a", false, FromToken, 100_000_000, 100_000_000),
                        Broadcast("ab", false, FromTick, 170_000_000, 190_000_000));
  }

  // ----- The recorded time, exactly -----

  /** An end marker has closed an utterance at a later clock reading, and no partial was sent since. */
  predicate FinalCameLater(events: seq<Event>) {
    events != []
    && var front, e := events[..|events| - 1], events[|events| - 1];
       var s := Run(true, INITIAL, front);
       || (e.IsMarker() && s.pending != "" && e.now > s.last)
       || (FinalCameLater(front) && !SendsPartial(s, e))
  }

  /** The time recorded for the latest partial; Go's zero time when there is none. */
  function PartialTime(log: seq<Broadcast>): int {
    if LastPartial(log).Some? then LastPartial(log).value.stamp else 0
  }

  lemma StepRecords(s: Caption, e: Event, later: bool)
    requires Recorded(s, e.At()) && e.At() <= e.now
    requires s.last == PartialTime(s.log) <==> !later
    ensures var t := Step(true, s, e);
            t.last == PartialTime(t.log)
            <==> !((e.IsMarker() && s.pending != "" && e.now > s.last) || (later && !SendsPartial(s, e)))
  {
    LastPartialRecorded(s, e.At());
    StepSends(s, e);
    if Sent(s, e).Some? {
      LastPartialSnoc(s.log, Sent(s, e).value);
    }
  }

  /** The recorded time is that of the latest partial, as its comment says, iff no final came later. */
  lemma {:induction false} LastBroadcastExactly(events: seq<Event>)
    requires MonotoneClock(events)
    ensures var s := Run(true, INITIAL, events);
            s.last == PartialTime(s.log) <==> !FinalCameLater(events)
  {
    if events == [] {
    } else {
      var front, e := events[..|events| - 1], events[|events| - 1];
      assert events == front + [e];
      RecordedBefore(front, e);
      LastBroadcastExactly(front);
      StepRecords(Run(true, INITIAL, front), e, FinalCameLater(front));
    }
  }

  lemma TokenThenMarker(first: int, end: int)
    requires BROADCAST_MIN_INTERVAL <= first < end
    ensures var events := [Transcript("a", false, first), Transcript("", true, end)];
            && FinalCameLater(events)
            && Run(true, INITIAL, events)
               == Caption("", false, end, [Broadcast("a", false, FromToken, first, first),
                                           Broadcast("a", true, FromMarker, end, end)])
  {
    var a, b := Transcript("a", false, first), Transcript("", true, end);
    var sent := Caption("a", false, first, [Broadcast("a", false, FromToken, first, first)]);
    assert [a, b][..1] == [a] && [a][..0] == [];
    assert "" + "a" == "a";
    assert Run(true, INITIAL, [a]) == Step(true, INITIAL, a) == sent;
  }

  /** A final does come later: a marker 50 ms after a partial. */
  lemma FinalMovesLastBroadcast()
    ensures var events := [Transcript("a", false, 100_000_000), Transcript("", true, 150_000_000)];
            var s := Run(true, INITIAL, events);
            && MonotoneClock(events) && FinalCameLater(events)
            && s.last == 150_000_000 && PartialTime(s.log) == 100_000_000
  {
    TokenThenMarker(100_000_000, 150_000_000);
    var sent := Broadcast("a", false, FromToken, 100_000_000, 100_000_000);
    var closing := Broadcast("a", true, FromMarker, 150_000_000, 150_000_000);
    LastPartialSnoc([], sent);
    LastPartialSnoc([sent], closing);
    assert [] + [sent] == [sent] && [sent] + [closing] == [sent, closing];
  }

  lemma NoSinkStep(s: Caption, e: Event)
    requires e.Transcript? ==> !e.final
    ensures Step(false, s, e).pending == s.pending + e.Token()
  {
    assert s.pending + "" == s.pending;
  }

  /** Neither a close nor a shutdown ends an utterance without a callback: only a final transcript does. */
  lemma {:induction false} NoSinkKeepsText(events: seq<Event>, tail: seq<Event>)
    requires events == [] || (events[|events| - 1].Transcript? && events[|events| - 1].final)
    requires forall i :: 0 <= i < |tail| && tail[i].Transcript? ==> !tail[i].final
    ensures Run(false, INITIAL, events + tail).pending == Spoken(tail)
  {
    if tail == [] {
      assert events + tail == events;
    } else {
      var front, e := tail[..|tail| - 1], tail[|tail| - 1];
      assert (events + tail)[..|events + tail| - 1] == events + front;
      NoSinkKeepsText(events, front);
      NoSinkStep(Run(false, INITIAL, events + front), e);
    }
  }

  /** Without a callback nothing is ever broadcast, whatever is handled. */
  lemma {:induction false} NoSinkNoBroadcast(events: seq<Event>)
    ensures Run(false, INITIAL, events).log == []
    ensures Run(false, INITIAL, events).last == 0
  {
    if events == [] {
    } else {
      NoSinkNoBroadcast(events[..|events| - 1]);
    }
  }
}
