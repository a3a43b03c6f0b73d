/**
 * The audio goroutine's loops as written, with the other goroutines acting between any two of
 * its channel operations. Whatever they do, the loops only ever make steps of AudioPath, so
 * everything proved there for every interleaving holds of them.
 */
module AudioLoop {
  import opened Sequences
  import opened Resampling
  import opened Chunking
  import opened AudioPath

  /** What other goroutines do before one channel operation, and which arm a select with several ready arms takes. */
  datatype Turn = Turn(others: seq<Action>, preferSend: bool)

  /** The turn taken where a schedule says nothing. */
  function TurnAt(turns: seq<Turn>, i: nat): Turn {
    if i < |turns| then turns[i] else Turn([], true)
  }

  /** One turn of the drain: foreign actions, then the turns of the frame taken, if there is one. */
  datatype DrainTurn = DrainTurn(others: seq<Action>, turns: seq<Turn>)

  /**
   * One turn of the goroutine's main loop: `seeDone` picks the cancellation arm when a frame is ready too;
   * `tail` is what others do between the end of the drain and the flush, and the arm the flush then takes.
   */
  datatype LoopTurn =
    LoopTurn(others: seq<Action>, seeDone: bool, turns: seq<Turn>, drain: seq<DrainTurn>, tail: Turn)

  /** Actions of the decoder, of the main loop and of whoever cancels. */
  ghost predicate Foreign(actions: seq<Action>) {
    forall i :: 0 <= i < |actions| ==> actions[i].Arrive? || actions[i].Cancel? || actions[i].Send?
  }

  ghost predicate AllForeign(turns: seq<Turn>) {
    forall i :: 0 <= i < |turns| ==> Foreign(turns[i].others)
  }

  ghost predicate AllForeignDrain(drain: seq<DrainTurn>) {
    forall i :: 0 <= i < |drain| ==> Foreign(drain[i].others) && AllForeign(drain[i].turns)
  }

  ghost predicate AllForeignLoop(schedule: seq<LoopTurn>) {
    forall i :: 0 <= i < |schedule| ==>
      && Foreign(schedule[i].others) && AllForeign(schedule[i].turns)
      && AllForeignDrain(schedule[i].drain) && Foreign(schedule[i].tail.others)
  }

  // ----- What the loops do to the state -----

  function Played(s: Path, actions: seq<Action>): Path {
    if actions == [] then s else Next(Played(s, actions[..|actions| - 1]), actions[|actions| - 1])
  }

  /** The first chunk in flight is pushed, dropped when the channel is full, or given up with the rest once cancelled. */
  function ChunkOffered(s: Path, preferSend: bool): Path {
    if |s.outQueue| < 25 && (preferSend || !s.cancelled) then Next(s, Enqueue)
    else if s.cancelled then Next(s, Abandon)
    else Next(s, DropFull)
  }

  /** After `n` chunks were offered, others acting before each. */
  function ChunksOffered(s: Path, turns: seq<Turn>, n: nat): Path {
    if n == 0 then s
    else
      var before, turn := ChunksOffered(s, turns, n - 1), TurnAt(turns, n - 1);
      if before.inFlight == [] then before else ChunkOffered(Played(before, turn.others), turn.preferSend)
  }

  function FrameProcessed(s: Path, turns: seq<Turn>): Path {
    var cut := Next(s, TakeFrame);
    ChunksOffered(cut, turns, |cut.inFlight|)
  }

  function Drained(s: Path, drain: seq<DrainTurn>): Path {
    if drain == [] then s
    else
      var before, turn := Drained(s, drain[..|drain| - 1]), drain[|drain| - 1];
      if before.phase != Running then before
      else
        var t := Played(before, turn.others);
        if t.inQueue == [] then Next(t, InputDrained) else FrameProcessed(t, turn.turns)
  }

  /** The turn takes the cancellation arm. */
  predicate SeesDone(t: Path, turn: LoopTurn) {
    t.cancelled && (turn.seeDone || t.inQueue == [])
  }

  /** The state after some turns of the goroutine, and whether it has left its main loop. */
  datatype Progress = Progress(state: Path, left: bool)

  function Ran(s: Path, schedule: seq<LoopTurn>): Progress {
    if schedule == [] then Progress(s, false)
    else
      var before, turn := Ran(s, schedule[..|schedule| - 1]), schedule[|schedule| - 1];
      if before.left then before else OneTurn(Played(before.state, turn.others), turn)
  }

  function OneTurn(t: Path, turn: LoopTurn): Progress {
    if SeesDone(t, turn) then Progress(Finished(Drained(t, turn.drain), turn.tail), true)
    else if t.inQueue == [] then Progress(t, false)
    else Progress(FrameProcessed(t, turn.turns), false)
  }

  /** The tail is flushed once the drain has found the input empty. */
  function Finished(d: Path, tail: Turn): Path {
    if d.phase == Flushing then Next(Played(d, tail.others), FlushTail(tail.preferSend)) else d
  }

  // ----- What others may change -----

  /** The part of the state that only the audio goroutine touches is the same, and the input queue only grows. */
  ghost predicate OnlyOthers(s: Path, t: Path) {
    && t.inFlight == s.inFlight && t.buffer == s.buffer && t.phase == s.phase
    && t.consumed == s.consumed && t.produced == s.produced
    && s.inQueue <= t.inQueue && (s.cancelled ==> t.cancelled)
  }

  lemma {:induction false} PlayedForeign(s: Path, actions: seq<Action>)
    requires Foreign(actions)
    ensures OnlyOthers(s, Played(s, actions))
  {
    if actions == [] {
    } else {
      PlayedForeign(s, actions[..|actions| - 1]);
    }
  }

  /** Playing actions continues the run that led to the state. */
  lemma {:induction false} PlayedContinues(before: seq<Action>, actions: seq<Action>, n: nat)
    requires n <= |actions|
    ensures Played(Exec(before), actions[..n]) == Exec(before + actions[..n])
  {
    if n == 0 {
      assert before + actions[..0] == before;
    } else {
      PlayedContinues(before, actions, n - 1);
      JoinOneMore(before, actions, n);
      ExecSnoc(before + actions[..n - 1], actions[n - 1]);
    }
  }

  lemma JoinOneMore<T>(before: seq<T>, actions: seq<T>, n: nat)
    requires 0 < n <= |actions|
    ensures before + actions[..n] == before + actions[..n - 1] + [actions[n - 1]]
    ensures actions[..n][..n - 1] == actions[..n - 1] && actions[..n][n - 1] == actions[n - 1]
  {
  }

  lemma {:induction false} PlayedReachable(s: Path, actions: seq<Action>)
    requires Reachable(s)
    ensures Reachable(Played(s, actions))
  {
    if actions == [] {
    } else {
      PlayedReachable(s, actions[..|actions| - 1]);
      NextReachable(Played(s, actions[..|actions| - 1]), actions[|actions| - 1]);
    }
  }

  // ----- One frame -----

  /** Only the chunks in flight, the output queue and the loss count change while chunks are offered. */
  ghost predicate OnlyChunks(s: Path, t: Path) {
    && t.buffer == s.buffer && t.phase == s.phase && t.consumed == s.consumed && t.produced == s.produced
    && s.inQueue <= t.inQueue && (s.cancelled ==> t.cancelled)
  }

  lemma ChunkOfferedKeeps(s: Path, preferSend: bool)
    requires s.inFlight != []
    ensures var t := ChunkOffered(s, preferSend);
            && OnlyChunks(s, t) && t.inQueue == s.inQueue && t.cancelled == s.cancelled
            && |t.inFlight| < |s.inFlight|
            && (!s.cancelled ==>
                  && t.inFlight == s.inFlight[1..]
                  && t.outQueue == (if |s.outQueue| < 25 then s.outQueue + [s.inFlight[0]] else s.outQueue))
            && (s.cancelled ==>
                  if preferSend && |s.outQueue| < 25
                  then t.inFlight == s.inFlight[1..] && t.outQueue == s.outQueue + [s.inFlight[0]]
                  else t.inFlight == [] && t.outQueue == s.outQueue)
    ensures Reachable(s) ==> Reachable(ChunkOffered(s, preferSend))
  {
    if Reachable(s) {
      NextReachable(s, Enqueue);
      NextReachable(s, Abandon);
      NextReachable(s, DropFull);
    }
  }

  lemma {:induction false} ChunksOfferedKeeps(s: Path, turns: seq<Turn>, n: nat)
    requires AllForeign(turns)
    ensures var t := ChunksOffered(s, turns, n);
            OnlyChunks(s, t) && |t.inFlight| <= if |s.inFlight| > n then |s.inFlight| - n else 0
    ensures Reachable(s) ==> Reachable(ChunksOffered(s, turns, n))
  {
    if n == 0 {
    } else {
      ChunksOfferedKeeps(s, turns, n - 1);
      var before, turn := ChunksOffered(s, turns, n - 1), TurnAt(turns, n - 1);
      if before.inFlight != [] {
        PlayedForeign(before, turn.others);
        if Reachable(s) {
          PlayedReachable(before, turn.others);
        }
        ChunkOfferedKeeps(Played(before, turn.others), turn.preferSend);
      }
    }
  }

  /** Left alone and not cancelled, the loop queues all chunks in order, as far as they fit. */
  lemma {:induction false} AllChunksQueued(s: Path, n: nat)
    requires !s.cancelled && n <= |s.inFlight| && |s.outQueue| + n <= 25
    ensures var t := ChunksOffered(s, [], n);
            && t.outQueue == s.outQueue + s.inFlight[..n] && t.inFlight == s.inFlight[n..]
            && !t.cancelled && t.lost == s.lost
  {
    if n == 0 {
    } else {
      AllChunksQueued(s, n - 1);
      var before := ChunksOffered(s, [], n - 1);
      ChunkOfferedKeeps(before, true);
      assert before.inFlight[0] == s.inFlight[n - 1];
      assert s.inFlight[..n - 1] + [s.inFlight[n - 1]] == s.inFlight[..n];
      Associative(s.outQueue, s.inFlight[..n - 1], [s.inFlight[n - 1]]);
    }
  }

  lemma NothingOffered(s: Path, turns: seq<Turn>, n: nat)
    requires ChunksOffered(s, turns, n).inFlight == []
    ensures ChunksOffered(s, turns, n + 1) == ChunksOffered(s, turns, n)
  {
  }

  lemma {:induction false} NothingMoreOffered(s: Path, turns: seq<Turn>, n: nat, m: nat)
    requires n <= m && ChunksOffered(s, turns, n).inFlight == []
    ensures ChunksOffered(s, turns, m) == ChunksOffered(s, turns, n)
  {
    if n == m {
    } else {
      NothingMoreOffered(s, turns, n, m - 1);
      NothingOffered(s, turns, m - 1);
    }
  }

  /** The goroutine is between two frames. */
  ghost predicate Idle(s: Path) {
    s.phase == Running && s.inFlight == []
  }

  /**
   * Whatever others do meanwhile, one turn takes exactly the oldest frame, resamples it, adds it to the buffer
   * and cuts the full chunks off; afterwards no chunk is in flight.
   */
  lemma FrameProcessedExactly(s: Path, turns: seq<Turn>)
    requires Idle(s) && s.inQueue != [] && AllForeign(turns)
    ensures var t := FrameProcessed(s, turns);
            var held := s.buffer + Resampled(s.inQueue[0], LIVE_RATIO);
            && Idle(t)
            && t.consumed == s.consumed + [s.inQueue[0]]
            && s.inQueue[1..] <= t.inQueue
            && t.produced == s.produced + Chunks(1920, held)
            && t.buffer == Residue(1920, held)
            && (s.cancelled ==> t.cancelled)
    ensures Reachable(s) ==> Reachable(FrameProcessed(s, turns))
  {
    var cut := Next(s, TakeFrame);
    if Reachable(s) {
      NextReachable(s, TakeFrame);
    }
    ChunksOfferedKeeps(cut, turns, |cut.inFlight|);
  }

  /** Frames taken and waiting only ever grow at their end. */
  lemma FrameProcessedInOrder(s: Path, turns: seq<Turn>)
    requires Idle(s) && s.inQueue != [] && AllForeign(turns)
    ensures var t := FrameProcessed(s, turns);
            s.consumed + s.inQueue <= t.consumed + t.inQueue
  {
    FrameProcessedExactly(s, turns);
    var t := FrameProcessed(s, turns);
    assert s.inQueue == [s.inQueue[0]] + s.inQueue[1..];
    Associative(s.consumed, [s.inQueue[0]], s.inQueue[1..]);
    PrefixConcat(t.consumed, s.inQueue[1..], t.inQueue);
  }

  // ----- The drain -----

  lemma {:induction false} DrainedKeeps(s: Path, drain: seq<DrainTurn>)
    requires Idle(s) && s.cancelled && AllForeignDrain(drain)
    ensures var t := Drained(s, drain);
            && t.cancelled && t.inFlight == []
            && (t.phase == Running || (t.phase == Flushing && t.inQueue == []))
            && s.consumed + s.inQueue <= t.consumed + t.inQueue
    ensures Reachable(s) ==> Reachable(Drained(s, drain))
  {
    if drain == [] {
    } else {
      var front, turn := drain[..|drain| - 1], drain[|drain| - 1];
      DrainedKeeps(s, front);
      var before := Drained(s, front);
      if before.phase == Running {
        DrainTurnKeeps(before, turn);
      }
    }
  }

  lemma DrainTurnKeeps(s: Path, turn: DrainTurn)
    requires Idle(s) && s.cancelled && Foreign(turn.others) && AllForeign(turn.turns)
    ensures var p := Played(s, turn.others);
            var t := if p.inQueue == [] then Next(p, InputDrained) else FrameProcessed(p, turn.turns);
            && t.cancelled && t.inFlight == []
            && (t.phase == Running || (t.phase == Flushing && t.inQueue == []))
            && s.consumed + s.inQueue <= t.consumed + t.inQueue
            && (Reachable(s) ==> Reachable(t))
  {
    var p := Played(s, turn.others);
    PlayedForeign(s, turn.others);
    PrefixConcat(s.consumed, s.inQueue, p.inQueue);
    if Reachable(s) {
      PlayedReachable(s, turn.others);
      NextReachable(p, InputDrained);
    }
    if p.inQueue != [] {
      FrameProcessedExactly(p, turn.turns);
      FrameProcessedInOrder(p, turn.turns);
    }
  }

  /** A drain that is over ignores the rest of its schedule. */
  lemma {:induction false} DrainedStays(s: Path, drain: seq<DrainTurn>, i: nat)
    requires i <= |drain| && Drained(s, drain[..i]).phase != Running
    ensures Drained(s, drain) == Drained(s, drain[..i])
    decreases |drain|
  {
    if i == |drain| {
      assert drain[..i] == drain;
    } else {
      var front := drain[..|drain| - 1];
      assert front[..i] == drain[..i];
      DrainedStays(s, front, i);
    }
  }

  ghost predicate NoArrivals(actions: seq<Action>) {
    forall i :: 0 <= i < |actions| ==> !actions[i].Arrive?
  }

  ghost predicate NoneArrives(turns: seq<Turn>) {
    forall i :: 0 <= i < |turns| ==> NoArrivals(turns[i].others)
  }

  lemma {:induction false} PlayedQuiet(s: Path, actions: seq<Action>)
    requires Foreign(actions) && NoArrivals(actions)
    ensures Played(s, actions).inQueue == s.inQueue
  {
    if actions == [] {
    } else {
      PlayedQuiet(s, actions[..|actions| - 1]);
    }
  }

  lemma {:induction false} ChunksOfferedQuiet(s: Path, turns: seq<Turn>, n: nat)
    requires AllForeign(turns) && NoneArrives(turns)
    ensures ChunksOffered(s, turns, n).inQueue == s.inQueue
  {
    if n == 0 {
    } else {
      ChunksOfferedQuiet(s, turns, n - 1);
      var before, turn := ChunksOffered(s, turns, n - 1), TurnAt(turns, n - 1);
      if before.inFlight != [] {
        PlayedQuiet(before, turn.others);
        PlayedForeign(before, turn.others);
        ChunkOfferedKeeps(Played(before, turn.others), turn.preferSend);
      }
    }
  }

  lemma DrainTurnQuiet(s: Path, turn: DrainTurn)
    requires Idle(s) && s.cancelled && Foreign(turn.others) && AllForeign(turn.turns)
    requires NoArrivals(turn.others) && NoneArrives(turn.turns)
    ensures var p := Played(s, turn.others);
            var t := if p.inQueue == [] then Next(p, InputDrained) else FrameProcessed(p, turn.turns);
            if s.inQueue == [] then t.phase == Flushing && t.consumed == s.consumed
            else t.phase == Running && t.consumed == s.consumed + [s.inQueue[0]] && t.inQueue == s.inQueue[1..]
  {
    var p := Played(s, turn.others);
    PlayedForeign(s, turn.others);
    PlayedQuiet(s, turn.others);
    if p.inQueue != [] {
      FrameProcessedExactly(p, turn.turns);
      ChunksOfferedQuiet(Next(p, TakeFrame), turn.turns, |Next(p, TakeFrame).inFlight|);
    }
  }

  lemma OneMoreTaken<T>(consumed: seq<T>, queue: seq<T>, n: nat)
    requires n < |queue|
    ensures consumed + queue[..n] + [queue[n]] == consumed + queue[..n + 1]
    ensures queue[n..][0] == queue[n] && queue[n..][1..] == queue[n + 1..]
  {
  }

  /** When no more frames arrive, the drain ends after one turn for each frame waiting and one more. */
  lemma {:induction false} DrainEnds(s: Path, drain: seq<DrainTurn>)
    requires Idle(s) && s.cancelled && AllForeignDrain(drain)
    requires forall i :: 0 <= i < |drain| ==> NoArrivals(drain[i].others) && NoneArrives(drain[i].turns)
    ensures var t := Drained(s, drain);
            if |drain| > |s.inQueue| then t.phase == Flushing && t.consumed == s.consumed + s.inQueue
            else t.phase == Running && t.consumed == s.consumed + s.inQueue[..|drain|] && t.inQueue == s.inQueue[|drain|..]
  {
    if drain == [] {
      assert s.consumed + s.inQueue[..0] == s.consumed;
    } else {
      var front, turn := drain[..|drain| - 1], drain[|drain| - 1];
      DrainEnds(s, front);
      DrainedKeeps(s, front);
      if Drained(s, front).phase == Running {
        DrainTurnQuiet(Drained(s, front), turn);
        if |front| < |s.inQueue| {
          OneMoreTaken(s.consumed, s.inQueue, |front|);
        } else {
          assert s.inQueue[..|front|] == s.inQueue;
        }
      }
    }
  }

  // ----- The whole goroutine -----

  lemma FinishedKeeps(d: Path, tail: Turn)
    requires d.cancelled && d.inFlight == [] && (d.phase == Running || d.phase == Flushing) && Foreign(tail.others)
    ensures var t := Finished(d, tail);
            t.inFlight == [] && t.cancelled && (t.phase == Running || t.phase == Stopped)
    ensures Reachable(d) ==> Reachable(Finished(d, tail))
  {
    PlayedForeign(d, tail.others);
    if Reachable(d) {
      PlayedReachable(d, tail.others);
      NextReachable(Played(d, tail.others), FlushTail(tail.preferSend));
    }
  }

  lemma OneTurnKeeps(s: Path, turn: LoopTurn)
    requires Idle(s) && Foreign(turn.others) && AllForeign(turn.turns)
    requires AllForeignDrain(turn.drain) && Foreign(turn.tail.others)
    ensures var r := OneTurn(Played(s, turn.others), turn);
            if r.left then r.state.inFlight == [] && r.state.cancelled && (r.state.phase == Running || r.state.phase == Stopped)
            else Idle(r.state)
    ensures Reachable(s) ==> Reachable(OneTurn(Played(s, turn.others), turn).state)
  {
    var t := Played(s, turn.others);
    PlayedForeign(s, turn.others);
    if Reachable(s) {
      PlayedReachable(s, turn.others);
    }
    if SeesDone(t, turn) {
      DrainedKeeps(t, turn.drain);
      FinishedKeeps(Drained(t, turn.drain), turn.tail);
    } else if t.inQueue != [] {
      FrameProcessedExactly(t, turn.turns);
    }
  }

  lemma {:induction false} RanKeeps(s: Path, schedule: seq<LoopTurn>)
    requires Reachable(s) && Idle(s) && AllForeignLoop(schedule)
    ensures var r := Ran(s, schedule);
            && Reachable(r.state)
            && if r.left then r.state.inFlight == [] && r.state.cancelled && (r.state.phase == Running || r.state.phase == Stopped)
               else Idle(r.state)
  {
    if schedule == [] {
    } else {
      var front, turn := schedule[..|schedule| - 1], schedule[|schedule| - 1];
      RanKeeps(s, front);
      if !Ran(s, front).left {
        OneTurnKeeps(Ran(s, front).state, turn);
      }
    }
  }

  lemma {:induction false} RanStays(s: Path, schedule: seq<LoopTurn>, i: nat)
    requires i <= |schedule| && Ran(s, schedule[..i]).left
    ensures Ran(s, schedule) == Ran(s, schedule[..i])
    decreases |schedule|
  {
    if i == |schedule| {
      assert schedule[..i] == schedule;
    } else {
      var front := schedule[..|schedule| - 1];
      assert front[..i] == schedule[..i];
      RanStays(s, front, i);
    }
  }

  ghost predicate NoCancel(actions: seq<Action>) {
    forall i :: 0 <= i < |actions| ==> !actions[i].Cancel?
  }

  ghost predicate SomeArrives(actions: seq<Action>) {
    exists i :: 0 <= i < |actions| && actions[i].Arrive?
  }

  lemma {:induction false} PlayedUncancelled(s: Path, actions: seq<Action>)
    requires Foreign(actions) && NoCancel(actions) && !s.cancelled
    ensures !Played(s, actions).cancelled
    ensures SomeArrives(actions) ==> Played(s, actions).inQueue != []
  {
    if actions == [] {
    } else {
      var front, a := actions[..|actions| - 1], actions[|actions| - 1];
      PlayedUncancelled(s, front);
      if SomeArrives(actions) && !a.Arrive? {
        var i :| 0 <= i < |actions| && actions[i].Arrive?;
        assert front[i].Arrive?;
      }
    }
  }

  lemma {:induction false} ChunksOfferedUncancelled(s: Path, turns: seq<Turn>, n: nat)
    requires AllForeign(turns) && !s.cancelled && forall i :: 0 <= i < |turns| ==> NoCancel(turns[i].others)
    ensures !ChunksOffered(s, turns, n).cancelled
  {
    if n == 0 {
    } else {
      ChunksOfferedUncancelled(s, turns, n - 1);
      var before, turn := ChunksOffered(s, turns, n - 1), TurnAt(turns, n - 1);
      if before.inFlight != [] {
        PlayedUncancelled(before, turn.others);
        PlayedForeign(before, turn.others);
        ChunkOfferedKeeps(Played(before, turn.others), turn.preferSend);
      }
    }
  }

  /** Nobody cancels during the turn, and a frame arrives before its receive. */
  ghost predicate Fed(turn: LoopTurn) {
    && NoCancel(turn.others) && SomeArrives(turn.others)
    && forall i :: 0 <= i < |turn.turns| ==> NoCancel(turn.turns[i].others)
  }

  /** While it is not cancelled and frames keep coming, the goroutine takes exactly one frame per turn. */
  lemma {:induction false} OneFramePerTurn(schedule: seq<LoopTurn>)
    requires AllForeignLoop(schedule) && forall i :: 0 <= i < |schedule| ==> Fed(schedule[i])
    ensures var r := Ran(START, schedule);
            !r.left && Idle(r.state) && !r.state.cancelled && |r.state.consumed| == |schedule|
  {
    if schedule == [] {
    } else {
      var front, turn := schedule[..|schedule| - 1], schedule[|schedule| - 1];
      assert forall i :: 0 <= i < |front| ==> Fed(schedule[i]);
      OneFramePerTurn(front);
      var s := Ran(START, front).state;
      var t := Played(s, turn.others);
      PlayedForeign(s, turn.others);
      PlayedUncancelled(s, turn.others);
      FrameProcessedExactly(t, turn.turns);
      ChunksOfferedUncancelled(Next(t, TakeFrame), turn.turns, |Next(t, TakeFrame).inFlight|);
    }
  }

  /**
   * Once the goroutine sees the cancellation and no more frames arrive it stops, at the latest after the 120
   * frames its queue can hold: everything waiting has then been consumed, and the tail is flushed.
   */
  lemma CancellationStops(schedule: seq<LoopTurn>, turn: LoopTurn)
    requires AllForeignLoop(schedule + [turn]) && !Ran(START, schedule).left
    requires var t := Played(Ran(START, schedule).state, turn.others); t.cancelled && (turn.seeDone || t.inQueue == [])
    requires |turn.drain| > 120
    requires forall i :: 0 <= i < |turn.drain| ==> NoArrivals(turn.drain[i].others) && NoneArrives(turn.drain[i].turns)
    ensures var t, r := Played(Ran(START, schedule).state, turn.others), Ran(START, schedule + [turn]);
            && r.left && r.state.phase == Stopped && r.state.buffer == []
            && r.state.consumed == t.consumed + t.inQueue
  {
    var all := schedule + [turn];
    assert all[..|schedule|] == schedule && all[|schedule|] == turn;
    assert forall i :: 0 <= i < |schedule| ==> all[i] == schedule[i];
    StartReachable();
    RanKeeps(START, schedule);
    TurnStops(Ran(START, schedule).state, turn);
  }

  lemma TurnStops(s: Path, turn: LoopTurn)
    requires Idle(s) && Reachable(s) && Foreign(turn.others) && AllForeignDrain(turn.drain) && Foreign(turn.tail.others)
    requires var t := Played(s, turn.others); t.cancelled && (turn.seeDone || t.inQueue == [])
    requires |turn.drain| > 120
    requires forall i :: 0 <= i < |turn.drain| ==> NoArrivals(turn.drain[i].others) && NoneArrives(turn.drain[i].turns)
    ensures var t, r := Played(s, turn.others), OneTurn(Played(s, turn.others), turn);
            && r.left && r.state.phase == Stopped && r.state.buffer == []
            && r.state.consumed == t.consumed + t.inQueue
  {
    var t := Played(s, turn.others);
    PlayedForeign(s, turn.others);
    PlayedReachable(s, turn.others);
    QueueBounded(t);
    DrainEnds(t, turn.drain);
    FinishedStops(Drained(t, turn.drain), turn.tail);
  }

  lemma FinishedStops(d: Path, tail: Turn)
    requires d.phase == Flushing && Foreign(tail.others)
    ensures var r := Finished(d, tail);
            r.phase == Stopped && r.buffer == [] && r.consumed == d.consumed
  {
    PlayedForeign(d, tail.others);
    TailExactly(Played(d, tail.others), tail.preferSend);
  }

  lemma QueueBounded(s: Path)
    requires Reachable(s)
    ensures |s.inQueue| <= 120
  {
    var actions :| Exec(actions) == s;
    AudioInOrder(actions);
  }

  class AudioTranscriber {
    var audioInputCh: seq<seq<real>>
    var audioCache: seq<real>
    var audioOutCh: seq<seq<real>>
    var cancelled: bool
    ghost var inFlight: seq<seq<real>>
    ghost var phase: Phase
    ghost var arrived: seq<seq<real>>
    ghost var consumed: seq<seq<real>>
    ghost var produced: seq<seq<real>>
    ghost var taken: seq<seq<real>>
    ghost var sent: seq<seq<real>>
    ghost var lost: nat

    ghost function State(): Path
      reads this
    {
      Path(audioInputCh, audioCache, inFlight, audioOutCh, cancelled, phase,
           arrived, consumed, produced, taken, sent, lost)
    }

    constructor ()
      ensures State() == START && Reachable(State())
    {
      audioInputCh, audioCache, audioOutCh, cancelled := [], [], [], false;
      inFlight, phase := [], Running;
      arrived, consumed, produced, taken, sent, lost := [], [], [], [], [], 0;
      StartReachable();
    }

    // ----- The other goroutines -----

    /** The decoder's callback: queue the frame or drop it. */
    method OnAudio(frame: seq<real>)
      modifies this
      ensures State() == Next(old(State()), Arrive(frame))
    {
      if |audioInputCh| < INPUT_CAPACITY {
        audioInputCh := audioInputCh + [frame];
      }
      arrived := arrived + [frame];
    }

    /** The main loop's audio arm; `delivered` says whether the client is connected and the write succeeds. */
    method SendAudioChunk(delivered: bool)
      modifies this
      ensures State() == Next(old(State()), Send(delivered))
    {
      if |audioOutCh| == 0 {
        return;
      }
      var chunk := audioOutCh[0];
      audioOutCh := audioOutCh[1..];
      taken := taken + [chunk];
      if |chunk| == 0 || !delivered {
        lost := lost + 1;
        return;
      }
      sent := sent + [chunk];
    }

    /** Any foreign actions, in any order. */
    method Others(actions: seq<Action>)
      requires Foreign(actions)
      modifies this
      ensures State() == Played(old(State()), actions)
      ensures OnlyOthers(old(State()), State())
    {
      ghost var before := State();
      for i := 0 to |actions|
        invariant State() == Played(before, actions[..i])
      {
        assert actions[..i + 1][..i] == actions[..i];
        match actions[i]
        case Arrive(frame) => OnAudio(frame);
        case Cancel => cancelled := true;
        case Send(delivered) => SendAudioChunk(delivered);
        case _ =>
      }
      assert actions[..|actions|] == actions;
      PlayedForeign(before, actions);
    }

    // ----- The audio goroutine -----

    /** Enqueues one chunk: push it, drop it when the channel is full, or give up once cancelled. */
    method EnqueueOne(chunk: seq<real>, preferSend: bool) returns (abandoned: bool)
      requires inFlight != [] && inFlight[0] == chunk
      modifies this
      ensures State() == ChunkOffered(old(State()), preferSend)
      ensures inFlight == if abandoned then [] else old(inFlight)[1..]
    {
      if |audioOutCh| < OUTPUT_CAPACITY && (preferSend || !cancelled) {
        audioOutCh := audioOutCh + [chunk];
        inFlight := inFlight[1..];
        return false;
      }
      if cancelled {
        lost := lost + |inFlight|;
        inFlight := [];
        return true;
      }
      lost := lost + 1;
      inFlight := inFlight[1..];
      return false;
    }

    method EnqueueAudioChunks(chunks: seq<seq<real>>, turns: seq<Turn>)
      requires inFlight == chunks && AllForeign(turns)
      modifies this
      ensures State() == ChunksOffered(old(State()), turns, |chunks|)
      ensures inFlight == [] && OnlyChunks(old(State()), State())
    {
      ghost var before := State();
      ChunksOfferedKeeps(before, turns, |chunks|);
      for i := 0 to |chunks|
        invariant State() == ChunksOffered(before, turns, i) && inFlight == chunks[i..]
      {
        var turn := TurnAt(turns, i);
        Others(turn.others);
        var abandoned := EnqueueOne(chunks[i], turn.preferSend);
        if abandoned {
          NothingMoreOffered(before, turns, i + 1, |chunks|);
          return;
        }
      }
    }

    /** Takes the next frame off the input channel, resamples it and adds it to the chunk buffer. */
    method CutFrame() returns (chunks: seq<seq<real>>)
      requires Idle(State()) && audioInputCh != []
      modifies this
      ensures State() == Next(old(State()), TakeFrame) && inFlight == chunks
      ensures chunks == Chunks(CHUNK_SIZE, old(audioCache) + Resampled(old(audioInputCh)[0], LIVE_RATIO))
      ensures audioCache == Residue(CHUNK_SIZE, old(audioCache) + Resampled(old(audioInputCh)[0], LIVE_RATIO))
      ensures consumed == old(consumed) + [old(audioInputCh)[0]] && audioInputCh == old(audioInputCh)[1..]
    {
      var frame := audioInputCh[0];
      var held := audioCache + Resampled(frame, LIVE_RATIO);
      chunks := Chunks(CHUNK_SIZE, held);
      audioInputCh, audioCache := audioInputCh[1..], Residue(CHUNK_SIZE, held);
      consumed, produced, inFlight := consumed + [frame], produced + chunks, chunks;
    }

    /** One received frame; an empty one is skipped, which cuts no chunk and leaves the buffer alone. */
    method ProcessInputFrame(turns: seq<Turn>)
      requires Idle(State()) && audioInputCh != [] && AllForeign(turns)
      modifies this
      ensures State() == FrameProcessed(old(State()), turns)
      ensures Idle(State()) && (old(cancelled) ==> cancelled)
      ensures consumed == old(consumed) + [old(audioInputCh)[0]]
    {
      FrameProcessedExactly(State(), turns);
      var chunks := CutFrame();
      EnqueueAudioChunks(chunks, turns);
    }

    /** After cancellation: the partial chunk is offered once, then the goroutine is done. */
    method FlushAudioCacheTail(preferSend: bool)
      requires phase == Flushing
      modifies this
      ensures State() == Next(old(State()), FlushTail(preferSend))
      ensures phase == Stopped && audioCache == []
    {
      phase := Stopped;
      var tail := audioCache;
      audioCache := [];
      if |tail| == 0 {
        return;
      }
      produced := produced + [tail];
      if |audioOutCh| < OUTPUT_CAPACITY && preferSend {
        audioOutCh := audioOutCh + [tail];
      } else {
        lost := lost + 1;
      }
    }

    /**
     * Works off the frames queued at cancellation, and those still arriving, until it finds none: by then
     * every frame that was queued has been consumed, in order.
     */
    method DrainAudioInput(drain: seq<DrainTurn>) returns (drained: bool)
      requires Idle(State()) && cancelled && AllForeignDrain(drain)
      modifies this
      ensures State() == Drained(old(State()), drain)
      ensures inFlight == [] && cancelled
      ensures phase == if drained then Flushing else Running
      ensures drained ==> audioInputCh == []
      ensures old(consumed + audioInputCh) <= consumed + audioInputCh
    {
      ghost var before := State();
      for i := 0 to |drain|
        invariant State() == Drained(before, drain[..i]) && Idle(State()) && cancelled
        invariant before.consumed + before.inQueue <= consumed + audioInputCh
      {
        assert drain[..i + 1][..i] == drain[..i];
        DrainedKeeps(before, drain[..i + 1]);
        Others(drain[i].others);
        if |audioInputCh| == 0 {
          phase := Flushing;
          DrainedStays(before, drain, i + 1);
          return true;
        }
        ProcessInputFrame(drain[i].turns);
      }
      assert drain[..|drain|] == drain;
      return false;
    }

    /**
     * The goroutine from its start, against any schedule. At the end of whatever part of it has run, the
     * queues are within their bounds, what was sent is an ordered part of what was produced, and every chunk
     * is accounted for; once it has stopped, all it consumed has been cut into chunks. The frames it has
     * consumed by then are those its turns say.
     */
    method ProcessAudioLoop(schedule: seq<LoopTurn>) returns (stopped: bool)
      requires State() == START && AllForeignLoop(schedule)
      modifies this
      ensures State() == Ran(START, schedule).state && Reachable(State())
      ensures stopped <==> phase == Stopped
      ensures (forall i :: 0 <= i < |schedule| ==> Fed(schedule[i])) ==> !stopped && |consumed| == |schedule|
      ensures |audioInputCh| <= 120 && |audioOutCh| <= 25
      ensures Subsequence(consumed, arrived) && Subsequence(sent, produced)
      ensures |sent| + |audioOutCh| + |inFlight| + lost == |produced|
      ensures Flatten(produced) + audioCache == Flatten(DecimateEach(consumed))
      ensures stopped ==> audioCache == [] && inFlight == []
      ensures stopped && lost == 0 && audioOutCh == [] ==> Flatten(sent) == Flatten(DecimateEach(consumed))
    {
      StartReachable();
      RanKeeps(START, schedule);
      stopped := RunSchedule(schedule);
      if forall i :: 0 <= i < |schedule| ==> Fed(schedule[i]) {
        OneFramePerTurn(schedule);
      }
      ghost var actions :| Exec(actions) == State();
      AudioInOrder(actions);
      AudioConserved(actions);
      if stopped {
        StoppedHoldsNothing(actions);
      }
    }

    method RunSchedule(schedule: seq<LoopTurn>) returns (stopped: bool)
      requires Idle(State()) && AllForeignLoop(schedule)
      modifies this
      ensures State() == Ran(old(State()), schedule).state
      ensures stopped <==> phase == Stopped
    {
      ghost var before := State();
      for i := 0 to |schedule|
        invariant Ran(before, schedule[..i]) == Progress(State(), false) && Idle(State())
      {
        assert schedule[..i + 1][..i] == schedule[..i];
        var turn := schedule[i];
        Others(turn.others);
        if cancelled && (turn.seeDone || |audioInputCh| == 0) {
          var drained := DrainAudioInput(turn.drain);
          if drained {
            Others(turn.tail.others);
            FlushAudioCacheTail(turn.tail.preferSend);
          }
          assert Ran(before, schedule[..i + 1]) == Progress(State(), true);
          RanStays(before, schedule, i + 1);
          return drained;
        }
        if |audioInputCh| > 0 {
          ProcessInputFrame(turn.turns);
        }
      }
      assert schedule[..|schedule|] == schedule;
      return false;
    }
  }
}
