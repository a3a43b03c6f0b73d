/**
 * The audio path of one transcriber as two goroutines and two bounded channels: decoded frames
 * arrive, the audio goroutine resamples and chunks them, the main loop sends the chunks.
 *
 * Every action below is one atomic step of one goroutine; an action that is not enabled does
 * nothing, so a list of actions stands for any interleaving and any outcome of the selects.
 */
module AudioPath {
  import opened Sequences
  import opened LossyQueues
  import opened Resampling
  import opened Chunking
  import opened Decoding

  const INPUT_CAPACITY: nat := 120
  const OUTPUT_CAPACITY: nat := 25
  /** 80 ms at the output rate. */
  const CHUNK_SIZE: nat := (OUTPUT_RATE * 80) / 1000

  datatype Phase = Running | Flushing | Stopped

  datatype Path = Path(
    inQueue: seq<seq<real>>,     // audioInputCh
    buffer: seq<real>,           // audioCache
    inFlight: seq<seq<real>>,    // chunks the audio goroutine is still enqueuing
    outQueue: seq<seq<real>>,    // audioOutCh
    cancelled: bool,
    phase: Phase,                // of the audio goroutine
    arrived: seq<seq<real>>,     // frames offered by the decoder
    consumed: seq<seq<real>>,    // frames taken by the audio goroutine
    produced: seq<seq<real>>,    // chunks cut, the flushed tail included
    taken: seq<seq<real>>,       // chunks taken from audioOutCh
    sent: seq<seq<real>>,        // chunks written to the connection
    lost: nat)                   // chunks dropped or taken and not sent

  const START := Path([], [], [], [], false, Running, [], [], [], [], [], 0)

  datatype Action =
    | Arrive(frame: seq<real>)   // decoder callback
    | Cancel                     // the transcriber's context is cancelled
    | TakeFrame                  // audio goroutine: take, resample and cut one frame
    | Enqueue                    // audio goroutine: one chunk into the output channel
    | DropFull                   // audio goroutine: output channel full, not cancelled
    | Abandon                    // audio goroutine: cancelled while enqueuing
    | InputDrained               // audio goroutine: cancelled and nothing left to read
    | FlushTail(push: bool)      // audio goroutine: emit the partial chunk and stop
    | Send(delivered: bool)      // main loop: take one chunk and try to write it

  function Next(s: Path, a: Action): Path {
    match a
    case Arrive(frame) =>
      s.(inQueue := Offer(s.inQueue, INPUT_CAPACITY, frame), arrived := s.arrived + [frame])
    case Cancel => s.(cancelled := true)
    case TakeFrame =>
      if s.phase != Running || s.inFlight != [] || s.inQueue == [] then s
      else
        var frame := s.inQueue[0];
        var held := s.buffer + Resampled(frame, LIVE_RATIO);
        var chunks := Chunks(CHUNK_SIZE, held);
        s.(inQueue := s.inQueue[1..], consumed := s.consumed + [frame],
           buffer := Residue(CHUNK_SIZE, held), inFlight := chunks, produced := s.produced + chunks)
    case Enqueue =>
      if s.inFlight == [] || |s.outQueue| >= OUTPUT_CAPACITY then s
      else s.(outQueue := s.outQueue + [s.inFlight[0]], inFlight := s.inFlight[1..])
    case DropFull =>
      if s.inFlight == [] || s.cancelled || |s.outQueue| < OUTPUT_CAPACITY then s
      else s.(inFlight := s.inFlight[1..], lost := s.lost + 1)
    case Abandon =>
      if s.inFlight == [] || !s.cancelled then s
      else s.(inFlight := [], lost := s.lost + |s.inFlight|)
    case InputDrained =>
      if s.phase != Running || s.inFlight != [] || !s.cancelled || s.inQueue != [] then s
      else s.(phase := Flushing)
    case FlushTail(push) =>
      if s.phase != Flushing then s
      else if s.buffer == [] then s.(phase := Stopped)
      else
        var flushed := s.(phase := Stopped, buffer := [], produced := s.produced + [s.buffer]);
        if push && |s.outQueue| < OUTPUT_CAPACITY
        then flushed.(outQueue := s.outQueue + [s.buffer])
        else flushed.(lost := s.lost + 1)
    case Send(delivered) =>
      if s.outQueue == [] then s
      else
        var chunk := s.outQueue[0];
        var after := s.(outQueue := s.outQueue[1..], taken := s.taken + [chunk]);
        if delivered && chunk != [] then after.(sent := s.sent + [chunk]) else after.(lost := s.lost + 1)
  }

  function Exec(actions: seq<Action>): Path {
    if actions == [] then START else Next(Exec(actions[..|actions| - 1]), actions[|actions| - 1])
  }

  lemma ExecSnoc(front: seq<Action>, a: Action)
    ensures Exec(front + [a]) == Next(Exec(front), a)
  {
    assert (front + [a])[..|front|] == front;
  }

  /** Some interleaving leads to the state. */
  ghost predicate Reachable(s: Path) {
    exists actions :: Exec(actions) == s
  }

  lemma StartReachable()
    ensures Reachable(START)
  {
    assert Exec([]) == START;
  }

  lemma NextReachable(s: Path, a: Action)
    requires Reachable(s)
    ensures Reachable(Next(s, a))
  {
    var actions :| Exec(actions) == s;
    ExecSnoc(actions, a);
  }

  // ----- What every step keeps -----

  /** The produced chunks that have left the audio goroutine's hands. */
  function Released(s: Path): seq<seq<real>>
    requires |s.inFlight| <= |s.produced|
  {
    s.produced[..|s.produced| - |s.inFlight|]
  }

  ghost predicate Bounded(s: Path) {
    && |s.inQueue| <= INPUT_CAPACITY
    && |s.outQueue| <= OUTPUT_CAPACITY
    && |s.buffer| < CHUNK_SIZE
    && (s.phase != Running ==> s.inFlight == [])
    && (s.phase == Stopped ==> s.buffer == [])
  }

  ghost predicate Ordered(s: Path) {
    && Subsequence(s.consumed + s.inQueue, s.arrived)
    && |s.inFlight| <= |s.produced|
    && s.produced[|s.produced| - |s.inFlight|..] == s.inFlight
    && Subsequence(s.taken + s.outQueue, Released(s))
    && Subsequence(s.sent, s.taken)
  }

  ghost predicate Conserving(s: Path) {
    && Flatten(s.produced) + s.buffer == Flatten(DecimateEach(s.consumed))
    && |s.sent| + |s.outQueue| + |s.inFlight| + s.lost == |s.produced|
    && (s.lost == 0 ==> s.sent == s.taken && s.taken + s.outQueue + s.inFlight == s.produced)
  }

  ghost predicate Inv(s: Path) {
    Bounded(s) && Ordered(s) && Conserving(s)
  }

  lemma ArriveKeeps(s: Path, frame: seq<real>)
    requires Inv(s)
    ensures Inv(Next(s, Arrive(frame)))
  {
    SubsequenceAppend(s.consumed + s.inQueue, s.arrived, frame);
    Associative(s.consumed, s.inQueue, [frame]);
  }

  lemma TakeFrameKeeps(s: Path)
    requires Inv(s) && s.phase == Running && s.inFlight == [] && s.inQueue != []
    ensures Inv(Next(s, TakeFrame))
  {
    var frame := s.inQueue[0];
    var t := Next(s, TakeFrame);
    var half := Resampled(frame, LIVE_RATIO);
    var held := s.buffer + half;
    var chunks := Chunks(CHUNK_SIZE, held);
    assert t.consumed + t.inQueue == s.consumed + s.inQueue;
    assert Released(t) == s.produced == Released(s);
    assert t.produced[|s.produced|..] == chunks;
    ChunksConserve(CHUNK_SIZE, held);
    ChunksFull(CHUNK_SIZE, held);
    LiveResamplingDecimates(frame);
    assert DecimateEach(t.consumed) == DecimateEach(s.consumed) + [half] by {
      assert t.consumed[..|s.consumed|] == s.consumed;
    }
    FlattenSnoc(DecimateEach(s.consumed), half);
    FlattenConcat(s.produced, chunks);
    Associative(Flatten(s.produced), Flatten(chunks), t.buffer);
    Associative(Flatten(s.produced), s.buffer, half);
    Associative(s.taken, s.outQueue, chunks);
    if s.lost == 0 {
      assert s.taken + s.outQueue == s.produced;
    }
  }

  lemma LeaveFlightKeeps(s: Path, a: Action)
    requires Inv(s) && s.inFlight != [] && (a == Enqueue || a == DropFull)
    ensures Inv(Next(s, a))
  {
    var t := Next(s, a);
    if t != s {
      var chunk := s.inFlight[0];
      assert Released(t) == Released(s) + [chunk];
      SubsequenceAppend(s.taken + s.outQueue, Released(s), chunk);
      Associative(s.taken, s.outQueue, [chunk]);
      assert s.inFlight == [chunk] + t.inFlight;
      if t.lost == 0 {
        Associative(s.taken + s.outQueue, [chunk], t.inFlight);
      }
    }
  }

  lemma AbandonKeeps(s: Path)
    requires Inv(s)
    ensures Inv(Next(s, Abandon))
  {
    var t := Next(s, Abandon);
    if t != s {
      assert Released(t) == s.produced == Released(s) + s.inFlight;
      SubsequenceExtend(s.taken + s.outQueue, Released(s), s.inFlight);
    }
  }

  lemma FlushTailOrdered(s: Path, push: bool)
    requires Inv(s) && s.phase == Flushing && s.buffer != []
    ensures Ordered(Next(s, FlushTail(push)))
  {
    assert Released(s) == s.produced;
    assert Released(Next(s, FlushTail(push))) == s.produced + [s.buffer];
    SubsequenceAppend(s.taken + s.outQueue, s.produced, s.buffer);
    Associative(s.taken, s.outQueue, [s.buffer]);
  }

  lemma NoneInFlight<T>(taken: seq<T>, queue: seq<T>, tail: T, produced: seq<T>)
    requires taken + queue + [] == produced
    ensures taken + (queue + [tail]) + [] == produced + [tail]
  {
    assert taken + queue == produced;
    Associative(taken, queue, [tail]);
  }

  lemma FlushTailConserves(s: Path, push: bool)
    requires Inv(s) && s.phase == Flushing && s.buffer != []
    ensures Conserving(Next(s, FlushTail(push)))
  {
    var t := Next(s, FlushTail(push));
    FlattenSnoc(s.produced, s.buffer);
    if t.lost == 0 {
      NoneInFlight(s.taken, s.outQueue, s.buffer, s.produced);
    }
  }

  lemma FlushTailKeeps(s: Path, push: bool)
    requires Inv(s)
    ensures Inv(Next(s, FlushTail(push)))
  {
    if s.phase == Flushing && s.buffer != [] {
      FlushTailOrdered(s, push);
      FlushTailConserves(s, push);
    }
  }

  lemma SendOrdered(s: Path, delivered: bool)
    requires Inv(s) && s.outQueue != []
    ensures var t := Next(s, Send(delivered));
            Ordered(t) && t.taken + t.outQueue == s.taken + s.outQueue
  {
    var t := Next(s, Send(delivered));
    var chunk := s.outQueue[0];
    assert t.taken + t.outQueue == s.taken + s.outQueue by {
      assert s.outQueue == [chunk] + t.outQueue;
      Associative(s.taken, [chunk], t.outQueue);
    }
    assert Subsequence(t.sent, t.taken) by {
      SubsequenceAppend(s.sent, s.taken, chunk);
    }
    assert Released(t) == Released(s);
  }

  lemma SendKeeps(s: Path, delivered: bool)
    requires Inv(s)
    ensures Inv(Next(s, Send(delivered)))
  {
    if s.outQueue != [] {
      SendOrdered(s, delivered);
      var t := Next(s, Send(delivered));
      assert t.taken + t.outQueue + t.inFlight == s.taken + s.outQueue + s.inFlight;
      assert Conserving(t);
    }
  }

  lemma StepKeeps(s: Path, a: Action)
    requires Inv(s)
    ensures Inv(Next(s, a))
  {
    match a
    case Arrive(frame) => ArriveKeeps(s, frame);
    case TakeFrame => if Next(s, a) != s { TakeFrameKeeps(s); }
    case Enqueue => if s.inFlight != [] { LeaveFlightKeeps(s, a); }
    case DropFull => if s.inFlight != [] { LeaveFlightKeeps(s, a); }
    case Abandon => AbandonKeeps(s);
    case FlushTail(push) => FlushTailKeeps(s, push);
    case Send(delivered) => SendKeeps(s, delivered);
    case _ =>
  }

  lemma {:induction false} ExecKeeps(actions: seq<Action>)
    ensures Inv(Exec(actions))
  {
    if actions == [] {
      EmptySubsequence(START.consumed + START.inQueue, START.arrived);
      EmptySubsequence(START.taken + START.outQueue, Released(START));
      EmptySubsequence(START.sent, START.taken);
    } else {
      ExecKeeps(actions[..|actions| - 1]);
      StepKeeps(Exec(actions[..|actions| - 1]), actions[|actions| - 1]);
    }
  }

  // ----- Every interleaving -----

  /** Queues stay within their bounds; frames are consumed and chunks are sent in the order they came. */
  lemma AudioInOrder(actions: seq<Action>)
    ensures var s := Exec(actions);
            && |s.inQueue| <= 120 && |s.outQueue| <= 25
            && Subsequence(s.consumed, s.arrived)
            && Subsequence(s.sent, s.produced)
  {
    ExecKeeps(actions);
    var s := Exec(actions);
    SubsequenceCut(s.consumed, s.inQueue, s.arrived);
    SubsequenceCut(s.taken, s.outQueue, Released(s));
    SubsequenceExtend(s.taken, Released(s), s.inFlight);
    assert Released(s) + s.inFlight == s.produced;
    SubsequenceTransitive(s.sent, s.taken, s.produced);
  }

  /**
   * Every chunk cut is sent, queued, being enqueued or counted as lost; and the chunks cut, with the partial
   * chunk still buffered, are the frames consumed, each decimated.
   */
  lemma AudioConserved(actions: seq<Action>)
    ensures var s := Exec(actions);
            && |s.sent| + |s.outQueue| + |s.inFlight| + s.lost == |s.produced|
            && Flatten(s.produced) + s.buffer == Flatten(DecimateEach(s.consumed))
            && (s.lost == 0 ==>
                  Flatten(s.sent + s.outQueue + s.inFlight) + s.buffer == Flatten(DecimateEach(s.consumed)))
  {
    ExecKeeps(actions);
  }

  // ----- When nothing is lost -----

  /** A frame offered to a full input queue. */
  function DroppedInput(s: Path, a: Action): nat {
    if a.Arrive? && |s.inQueue| >= 120 then 1 else 0
  }

  /** Chunks a step gives up: dropped from a full queue, abandoned, a refused tail, or a send that fails. */
  function DroppedChunks(s: Path, a: Action): nat {
    match a
    case DropFull => if s.inFlight != [] && !s.cancelled && |s.outQueue| >= 25 then 1 else 0
    case Abandon => if s.cancelled then |s.inFlight| else 0
    case FlushTail(push) =>
      if s.phase == Flushing && s.buffer != [] && !(push && |s.outQueue| < 25) then 1 else 0
    case Send(delivered) => if s.outQueue != [] && !(delivered && s.outQueue[0] != []) then 1 else 0
    case _ => 0
  }

  function InputDrops(actions: seq<Action>): nat {
    if actions == [] then 0
    else
      var front, a := actions[..|actions| - 1], actions[|actions| - 1];
      InputDrops(front) + DroppedInput(Exec(front), a)
  }

  function ChunkDrops(actions: seq<Action>): nat {
    if actions == [] then 0
    else
      var front, a := actions[..|actions| - 1], actions[|actions| - 1];
      ChunkDrops(front) + DroppedChunks(Exec(front), a)
  }

  lemma StepCounted(s: Path, a: Action)
    ensures var t := Next(s, a);
            && t.lost == s.lost + DroppedChunks(s, a)
            && |t.arrived| + |s.consumed| + |s.inQueue|
               == |s.arrived| + |t.consumed| + |t.inQueue| + DroppedInput(s, a)
  {
  }

  lemma {:induction false} DropsCounted(actions: seq<Action>)
    ensures var s := Exec(actions);
            && |s.arrived| == |s.consumed| + |s.inQueue| + InputDrops(actions)
            && s.lost == ChunkDrops(actions)
  {
    if actions == [] {
    } else {
      DropsCounted(actions[..|actions| - 1]);
      StepCounted(Exec(actions[..|actions| - 1]), actions[|actions| - 1]);
    }
  }

  /**
   * Every frame offered was consumed or is queued iff no frame met a full queue; no chunk is lost iff none was
   * dropped, abandoned, refused as a tail or failed to be sent.
   */
  lemma LossesExactly(actions: seq<Action>)
    ensures var s := Exec(actions);
            && (s.consumed + s.inQueue == s.arrived <==> InputDrops(actions) == 0)
            && (s.sent + s.outQueue + s.inFlight == s.produced <==> ChunkDrops(actions) == 0)
  {
    ExecKeeps(actions);
    DropsCounted(actions);
    var s := Exec(actions);
    SubsequenceLength(s.consumed + s.inQueue, s.arrived);
    if s.sent + s.outQueue + s.inFlight == s.produced {
      assert |s.sent + s.outQueue + s.inFlight| == |s.produced|;
    }
  }

  /** From end to end: with no drop anywhere and even frames, what was offered is all there, decimated, in order. */
  lemma UndroppedAudioArrives(actions: seq<Action>)
    requires InputDrops(actions) == 0 && ChunkDrops(actions) == 0
    requires AllEven(Exec(actions).arrived)
    ensures var s := Exec(actions);
            && s.arrived == s.consumed + s.inQueue
            && Flatten(s.sent + s.outQueue + s.inFlight) + s.buffer == Decimate(Flatten(s.consumed))
  {
    LossesExactly(actions);
    DropsCounted(actions);
    var s := Exec(actions);
    forall i | 0 <= i < |s.consumed| ensures |s.consumed[i]| % 2 == 0 {
      assert s.arrived[i] == s.consumed[i];
    }
    LosslessAudioIsDecimation(actions);
  }

  /** With nothing lost and only even frames, the framing leaves no trace in what is sent or waiting. */
  lemma LosslessAudioIsDecimation(actions: seq<Action>)
    requires Exec(actions).lost == 0 && AllEven(Exec(actions).consumed)
    ensures var s := Exec(actions);
            Flatten(s.sent + s.outQueue + s.inFlight) + s.buffer == Decimate(Flatten(s.consumed))
  {
    ExecKeeps(actions);
    EvenFramesDecimate(Exec(actions).consumed);
  }

  /** Once the audio goroutine has stopped it holds nothing back: all of it is in the chunks produced. */
  lemma StoppedHoldsNothing(actions: seq<Action>)
    requires Exec(actions).phase == Stopped
    ensures var s := Exec(actions);
            && s.buffer == [] && s.inFlight == []
            && Flatten(s.produced) == Flatten(DecimateEach(s.consumed))
            && (s.lost == 0 && s.outQueue == [] ==> Flatten(s.sent) == Flatten(DecimateEach(s.consumed)))
  {
    ExecKeeps(actions);
    var s := Exec(actions);
    assert Flatten(s.produced) + [] == Flatten(s.produced);
    assert s.taken + [] + [] == s.taken;
  }

  // ----- What keeps the path moving -----

  /** 120 frames and 25 chunks are kept: whatever finds fewer waiting joins the end of its queue. */
  lemma RoomIsUsed(s: Path, frame: seq<real>)
    ensures |s.inQueue| < 120 ==> Next(s, Arrive(frame)).inQueue == s.inQueue + [frame]
    ensures |s.outQueue| < 25 && s.inFlight != [] ==>
              var t := Next(s, Enqueue);
              t.outQueue == s.outQueue + [s.inFlight[0]] && t.inFlight == s.inFlight[1..]
    ensures |s.outQueue| < 25 && s.phase == Flushing && s.buffer != [] ==>
              Next(s, FlushTail(true)).outQueue == s.outQueue + [s.buffer]
  {
  }

  /** The actions of the audio goroutine. */
  predicate OfGoroutine(a: Action) {
    a.TakeFrame? || a.Enqueue? || a.DropFull? || a.Abandon? || a.InputDrained? || a.FlushTail?
  }

  /** An action of the audio goroutine that is enabled unless it has stopped or waits for input. */
  function NextMove(s: Path): Action {
    if s.inFlight != [] then if |s.outQueue| < 25 then Enqueue else if s.cancelled then Abandon else DropFull
    else if s.phase == Flushing then FlushTail(true)
    else if s.inQueue != [] then TakeFrame
    else InputDrained
  }

  /** The audio goroutine never waits for the other side: it can go on iff it has not stopped and has input or was cancelled. */
  lemma NeverStuck(actions: seq<Action>)
    ensures var s := Exec(actions);
            (exists a :: OfGoroutine(a) && Next(s, a) != s)
            <==> s.phase != Stopped && !(s.phase == Running && s.inFlight == [] && s.inQueue == [] && !s.cancelled)
  {
    ExecKeeps(actions);
    var s := Exec(actions);
    if s.phase != Stopped && !(s.phase == Running && s.inFlight == [] && s.inQueue == [] && !s.cancelled) {
      MoveMoves(s);
      assert OfGoroutine(NextMove(s));
    }
  }

  lemma MoveMoves(s: Path)
    requires Bounded(s) && s.phase != Stopped
    requires s.phase == Running && s.inFlight == [] && s.inQueue == [] ==> s.cancelled
    ensures Next(s, NextMove(s)) != s
  {
    var t := Next(s, NextMove(s));
    match NextMove(s)
    case Enqueue => assert |t.inFlight| < |s.inFlight|;
    case DropFull => assert |t.inFlight| < |s.inFlight|;
    case Abandon => assert t.inFlight == [];
    case FlushTail(_) => assert t.phase == Stopped;
    case TakeFrame => assert |t.consumed| > |s.consumed|;
    case InputDrained => assert t.phase == Flushing;
  }

  /**
   * Nothing queued is left behind: the goroutine turns to its tail only once cancelled and with no frame
   * waiting, so that if no frame was refused it has by then consumed all that arrived.
   */
  lemma DrainedBeforeFlush(front: seq<Action>, a: Action)
    requires Exec(front).phase == Running && Exec(front + [a]).phase != Running
    ensures var s := Exec(front);
            && s.cancelled && s.inQueue == [] && s.inFlight == []
            && (InputDrops(front) == 0 ==> s.consumed == s.arrived)
  {
    ExecSnoc(front, a);
    LossesExactly(front);
    assert Exec(front).consumed + [] == Exec(front).consumed;
  }

  ghost predicate SomeCancel(actions: seq<Action>) {
    exists i :: 0 <= i < |actions| && actions[i].Cancel?
  }

  lemma SomeCancelSnoc(front: seq<Action>, a: Action)
    ensures SomeCancel(front + [a]) <==> SomeCancel(front) || a.Cancel?
  {
    var all := front + [a];
    assert all[|front|] == a;
    if i :| 0 <= i < |front| && front[i].Cancel? {
      assert all[i].Cancel?;
    }
  }

  lemma StepCancels(s: Path, a: Action)
    ensures Next(s, a).cancelled <==> s.cancelled || a.Cancel?
  {
  }

  /** The context is cancelled iff somebody has cancelled it. */
  lemma {:induction false} CancelledExactly(actions: seq<Action>)
    ensures Exec(actions).cancelled <==> SomeCancel(actions)
  {
    if actions == [] {
    } else {
      var front, a := actions[..|actions| - 1], actions[|actions| - 1];
      CancelledExactly(front);
      StepCancels(Exec(front), a);
      SomeCancelSnoc(front, a);
      assert actions == front + [a];
    }
  }

  /** The tail is offered as it is; none is made up of an empty buffer. */
  lemma TailExactly(s: Path, push: bool)
    requires s.phase == Flushing
    ensures var t := Next(s, FlushTail(push));
            && t.phase == Stopped && t.buffer == []
            && t.produced == s.produced + (if s.buffer == [] then [] else [s.buffer])
            && (t.outQueue != s.outQueue <==> s.buffer != [] && push && |s.outQueue| < 25)
  {
    assert s.buffer == [] ==> s.produced + [] == s.produced;
  }

  // ----- Chunk sizes -----

  /** Chunks are full 80 ms chunks; only the tail flushed at the very end may be shorter, and it is not empty. */
  ghost predicate Sized(s: Path) {
    && (forall c :: c in s.produced ==> 0 < |c| <= CHUNK_SIZE)
    && (s.phase != Stopped ==> forall c :: c in s.produced ==> |c| == CHUNK_SIZE)
  }

  lemma TakeFrameSized(s: Path)
    requires Sized(s)
    ensures Sized(Next(s, TakeFrame))
  {
    if s.inQueue != [] {
      ChunksFull(CHUNK_SIZE, s.buffer + Resampled(s.inQueue[0], LIVE_RATIO));
    }
  }

  lemma FlushTailSized(s: Path, push: bool)
    requires Bounded(s) && Sized(s)
    ensures Sized(Next(s, FlushTail(push)))
  {
  }

  lemma StepSized(s: Path, a: Action)
    requires Bounded(s) && Sized(s)
    ensures Sized(Next(s, a))
  {
    if a.TakeFrame? {
      TakeFrameSized(s);
    } else if a.FlushTail? {
      FlushTailSized(s, a.push);
    } else {
      assert Next(s, a).produced == s.produced;
    }
  }

  lemma {:induction false} ExecSized(actions: seq<Action>)
    ensures Sized(Exec(actions))
  {
    if actions == [] {
    } else {
      var front := actions[..|actions| - 1];
      ExecSized(front);
      ExecKeeps(front);
      StepSized(Exec(front), actions[|actions| - 1]);
    }
  }

  /** Every chunk sent holds 1920 samples, or fewer but some once the audio goroutine has flushed its tail. */
  lemma SentChunkSizes(actions: seq<Action>, chunk: seq<real>)
    requires chunk in Exec(actions).sent
    ensures 0 < |chunk| <= 1920
    ensures Exec(actions).phase != Stopped ==> |chunk| == 1920
  {
    ExecSized(actions);
    AudioInOrder(actions);
    SubsequenceMembers(Exec(actions).sent, Exec(actions).produced);
  }

  /** Against the 200 ms (4800 samples) the design asks of chunks: all chunks sent hold that iff there are none. */
  lemma DesignedChunksExactly(actions: seq<Action>)
    ensures (forall i :: 0 <= i < |Exec(actions).sent| ==> |Exec(actions).sent[i]| == 4800) <==> Exec(actions).sent == []
  {
    var sent := Exec(actions).sent;
    if sent != [] {
      SentChunkSizes(actions, sent[0]);
    }
  }

  lemma OneChunk(size: nat, samples: seq<real>)
    requires |samples| == size > 0
    ensures Chunks(size, samples) == [samples]
  {
    assert samples[..size] == samples && samples[size..] == [];
    assert Chunks(size, []) == [];
  }

  /** A run that sends a chunk, of 1920 samples. */
  lemma ChunkIsSent(frame: seq<real>)
    requires |frame| == 3840
    ensures Exec([Arrive(frame)] + [TakeFrame] + [Enqueue] + [Send(true)]).sent == [Decimate(frame)]
    ensures |Decimate(frame)| == 1920
  {
    ExecSnoc([], Arrive(frame));
    assert [] + [Arrive(frame)] == [Arrive(frame)];
    var arrived := START.(inQueue := [frame], arrived := [frame]);
    assert Offer([], INPUT_CAPACITY, frame) == [frame] && [] + [frame] == [frame];
    assert Exec([Arrive(frame)]) == arrived;
    ExecSnoc([Arrive(frame)], TakeFrame);
    var cut := Exec([Arrive(frame)] + [TakeFrame]);
    LiveResamplingDecimates(frame);
    OneChunk(CHUNK_SIZE, Decimate(frame));
    assert [] + Decimate(frame) == Decimate(frame);
    assert cut.inFlight == [Decimate(frame)] && cut.outQueue == [] && cut.sent == [];
    ExecSnoc([Arrive(frame)] + [TakeFrame], Enqueue);
    ExecSnoc([Arrive(frame)] + [TakeFrame] + [Enqueue], Send(true));
  }

  // ----- Amplitude -----

  ghost predicate Quiet(pieces: seq<seq<real>>) {
    forall i :: 0 <= i < |pieces| ==> Within(pieces[i], -1.0, 1.0)
  }

  ghost predicate AllQuiet(s: Path) {
    && Quiet(s.inQueue) && Within(s.buffer, -1.0, 1.0)
    && Quiet(s.inFlight) && Quiet(s.outQueue) && Quiet(s.sent)
  }

  lemma {:induction false} ChunksWithin(size: nat, samples: seq<real>, lo: real, hi: real)
    requires size > 0 && Within(samples, lo, hi)
    ensures forall i :: 0 <= i < |Chunks(size, samples)| ==> Within(Chunks(size, samples)[i], lo, hi)
    ensures Within(Residue(size, samples), lo, hi)
    decreases |samples|
  {
    if |samples| < size {
    } else {
      ChunksWithin(size, samples[size..], lo, hi);
    }
  }

  lemma StepQuiet(s: Path, a: Action)
    requires AllQuiet(s) && (a.Arrive? ==> Within(a.frame, -1.0, 1.0))
    ensures AllQuiet(Next(s, a))
  {
    if a.TakeFrame? && s.inQueue != [] {
      ResampledWithin(s.inQueue[0], LIVE_RATIO, -1.0, 1.0);
      ChunksWithin(CHUNK_SIZE, s.buffer + Resampled(s.inQueue[0], LIVE_RATIO), -1.0, 1.0);
    }
  }

  /** If every decoded frame lies in [-1, 1], so does every sample ever sent. */
  lemma {:induction false} SentSamplesInRange(actions: seq<Action>)
    requires forall i :: 0 <= i < |actions| && actions[i].Arrive? ==> Within(actions[i].frame, -1.0, 1.0)
    ensures AllQuiet(Exec(actions))
  {
    if actions == [] {
    } else {
      SentSamplesInRange(actions[..|actions| - 1]);
      StepQuiet(Exec(actions[..|actions| - 1]), actions[|actions| - 1]);
    }
  }

  /** The frame is what some packet, whatever the decoder wrote into it, is clamped and downmixed to. */
  ghost predicate FromDecoder(frame: seq<real>) {
    exists packet: seq<real>, n: nat, channels: nat ::
      channels > 0 && |packet| == n * channels && frame == Delivered(packet, n, channels)
  }

  /** From packet to wire: when all frames come from the decoding loop, every sample ever sent lies in [-1, 1]. */
  lemma DecodedAudioInRange(actions: seq<Action>)
    requires forall i :: 0 <= i < |actions| && actions[i].Arrive? ==> FromDecoder(actions[i].frame)
    ensures AllQuiet(Exec(actions))
  {
    forall i | 0 <= i < |actions| && actions[i].Arrive? ensures Within(actions[i].frame, -1.0, 1.0) {
      var packet, n: nat, channels: nat :|
        channels > 0 && |packet| == n * channels && actions[i].frame == Delivered(packet, n, channels);
      DeliveredWithin(packet, n, channels);
    }
    SentSamplesInRange(actions);
  }
}
