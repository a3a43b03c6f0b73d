/**
 * The two reconnect loops: the transcriber's bounded retry towards the speech-to-text
 * service, and the room's unbounded retry towards the signaling server.
 */
module Backoff {

  function Pow2(n: nat): (p: nat)
    ensures p >= 1
  {
    if n == 0 then 1 else 2 * Pow2(n - 1)
  }

  lemma {:induction false} Pow2Monotone(a: nat, b: nat)
    requires a <= b
    ensures Pow2(a) <= Pow2(b)
  {
    if a == b {
    } else {
      Pow2Monotone(a, b - 1);
    }
  }

  function Min(a: nat, b: nat): nat {
    if a < b then a else b
  }

  // ----- Speech-to-text reconnect, bounded -----

  const MAX_ATTEMPTS: nat := 5
  const BACKOFF_CAP: real := 60.0

  /** One error taken from the client's error channel, with the answers the client gives while it is handled. */
  datatype ClientError = ClientError(normalClose: bool, connected: bool, reconnects: bool)

  /** A reconnect that was tried: how long it slept first, in seconds, and whether it succeeded. */
  datatype Try = Try(delay: int, ok: bool)

  datatype Retry = Retry(attempts: nat, multiplier: real, tries: seq<Try>)

  const FRESH := Retry(0, 1.0, [])

  function OnError(r: Retry, e: ClientError): Retry {
    if e.normalClose || e.connected || r.attempts >= MAX_ATTEMPTS then r
    else
      var tries := r.tries + [Try(r.multiplier.Floor, e.reconnects)];
      if e.reconnects then Retry(0, 1.0, tries)
      else
        var doubled := 2.0 * r.multiplier;
        Retry(r.attempts + 1, if doubled < BACKOFF_CAP then doubled else BACKOFF_CAP, tries)
  }

  function OnErrors(r: Retry, errors: seq<ClientError>): Retry {
    if errors == [] then r
    else OnError(OnErrors(r, errors[..|errors| - 1]), errors[|errors| - 1])
  }

  /** How many reconnects failed since the last one that succeeded. */
  function FailuresAtEnd(tries: seq<Try>): nat {
    if tries == [] || tries[|tries| - 1].ok then 0 else 1 + FailuresAtEnd(tries[..|tries| - 1])
  }

  /** Time slept since the last reconnect that succeeded. */
  function SleptAtEnd(tries: seq<Try>): int {
    if tries == [] || tries[|tries| - 1].ok then 0
    else tries[|tries| - 1].delay + SleptAtEnd(tries[..|tries| - 1])
  }

  /** The k-th try slept 2^(failures since the last success), and 2^(failures + 1) - 1 since that success. */
  ghost predicate OnSchedule(tries: seq<Try>, k: nat)
    requires k < |tries|
  {
    var failures := FailuresAtEnd(tries[..k]);
    && failures < MAX_ATTEMPTS
    && tries[k].delay == Pow2(failures)
    && SleptAtEnd(tries[..k]) + tries[k].delay == Pow2(failures + 1) - 1
  }

  /** Counter and multiplier are functions of the failures since the last success. */
  ghost predicate Synchronized(r: Retry) {
    && r.attempts == FailuresAtEnd(r.tries) <= MAX_ATTEMPTS
    && r.multiplier == Pow2(r.attempts) as real
    && SleptAtEnd(r.tries) == Pow2(r.attempts) - 1
    && forall k :: 0 <= k < |r.tries| ==> OnSchedule(r.tries, k)
  }

  lemma Pow2AtMost32(n: nat)
    requires n <= MAX_ATTEMPTS
    ensures Pow2(n) <= 32
  {
    Pow2Monotone(n, 5);
    assert Pow2(5) == 32 by { assert Pow2(3) == 8; }
  }

  lemma ScheduleSnoc(tries: seq<Try>, t: Try)
    requires forall k :: 0 <= k < |tries| ==> OnSchedule(tries, k)
    requires OnSchedule(tries + [t], |tries|)
    ensures forall k :: 0 <= k < |tries + [t]| ==> OnSchedule(tries + [t], k)
  {
    forall k | 0 <= k < |tries| ensures OnSchedule(tries + [t], k) {
      assert (tries + [t])[..k] == tries[..k];
      assert OnSchedule(tries, k);
    }
  }

  lemma OnErrorSynchronized(r: Retry, e: ClientError)
    requires Synchronized(r)
    ensures Synchronized(OnError(r, e))
  {
    if OnError(r, e) != r {
      Pow2AtMost32(r.attempts + 1);
      var t := Try(r.multiplier.Floor, e.reconnects);
      assert (r.tries + [t])[..|r.tries|] == r.tries;
      assert t.delay == Pow2(r.attempts);
      ScheduleSnoc(r.tries, t);
    }
  }

  lemma {:induction false} OnErrorsSynchronized(errors: seq<ClientError>)
    ensures Synchronized(OnErrors(FRESH, errors))
  {
    if errors == [] {
    } else {
      OnErrorsSynchronized(errors[..|errors| - 1]);
      OnErrorSynchronized(OnErrors(FRESH, errors[..|errors| - 1]), errors[|errors| - 1]);
    }
  }

  /**
   * For every run of errors: the multiplier is 2^attempts and stays below its cap, the k-th reconnect
   * sleeps 2^(failures since the last success), and the sleep from one success up to and including
   * the next try never exceeds 31 seconds.
   */
  lemma ReconnectSchedule(errors: seq<ClientError>)
    ensures var r := OnErrors(FRESH, errors);
            && r.attempts == FailuresAtEnd(r.tries) <= MAX_ATTEMPTS
            && r.multiplier == Pow2(r.attempts) as real < BACKOFF_CAP
            && SleptAtEnd(r.tries) <= 31
            && forall k :: 0 <= k < |r.tries| ==>
                 && r.tries[k].delay == Pow2(FailuresAtEnd(r.tries[..k]))
                 && SleptAtEnd(r.tries[..k]) + r.tries[k].delay <= 31
  {
    OnErrorsSynchronized(errors);
    var r := OnErrors(FRESH, errors);
    Pow2AtMost32(r.attempts);
    forall k | 0 <= k < |r.tries|
      ensures r.tries[k].delay == Pow2(FailuresAtEnd(r.tries[..k]))
      ensures SleptAtEnd(r.tries[..k]) + r.tries[k].delay <= 31
    {
      assert OnSchedule(r.tries, k);
      Pow2AtMost32(FailuresAtEnd(r.tries[..k]) + 1);
    }
  }

  /**
   * When a reconnect is tried: exactly when the connection is lost, the close was no normal one and fewer than
   * five tries have failed since the last success. It then succeeds or fails as the server answers.
   */
  lemma RetriedExactly(errors: seq<ClientError>, e: ClientError)
    ensures var r, t := OnErrors(FRESH, errors), OnErrors(FRESH, errors + [e]);
            if !e.normalClose && !e.connected && FailuresAtEnd(r.tries) < 5
            then |t.tries| == |r.tries| + 1 && t.tries[..|r.tries|] == r.tries && t.tries[|r.tries|].ok == e.reconnects
            else t.tries == r.tries
  {
    assert (errors + [e])[..|errors|] == errors;
    OnErrorsSynchronized(errors);
  }

  function AllFailing(n: nat): seq<ClientError> {
    seq(n, _ => ClientError(false, false, false))
  }

  lemma OneMoreFails(n: nat)
    requires n < MAX_ATTEMPTS
    ensures OnErrors(FRESH, AllFailing(n + 1)) == OnError(OnErrors(FRESH, AllFailing(n)), ClientError(false, false, false))
  {
    assert AllFailing(n + 1)[..n] == AllFailing(n);
  }

  /** The delays in figures: 1, 2, 4, 8 and 16 seconds, and no sixth try. */
  lemma RetryDelays()
    ensures OnErrors(FRESH, AllFailing(5)).tries
         == [Try(1, false), Try(2, false), Try(4, false), Try(8, false), Try(16, false)]
    ensures OnErrors(FRESH, AllFailing(6)) == OnErrors(FRESH, AllFailing(5))
  {
    assert OnErrors(FRESH, AllFailing(0)) == FRESH;
    OneMoreFails(0);
    OneMoreFails(1);
    OneMoreFails(2);
    OneMoreFails(3);
    OneMoreFails(4);
    assert AllFailing(6)[..5] == AllFailing(5);
  }

  /** Five consecutive failures are final: nothing that happens later makes the loop try again. */
  lemma {:induction false} FiveFailuresAbsorb(errors: seq<ClientError>, later: seq<ClientError>)
    requires FailuresAtEnd(OnErrors(FRESH, errors).tries) == MAX_ATTEMPTS
    ensures OnErrors(OnErrors(FRESH, errors), later) == OnErrors(FRESH, errors)
  {
    OnErrorsSynchronized(errors);
    if later == [] {
    } else {
      FiveFailuresAbsorb(errors, later[..|later| - 1]);
    }
  }

  // ----- Signaling reconnect, unbounded -----

  const MAX_DELAY: nat := 30

  /** One turn of the loop: is the room cancelled, does the connect succeed, does the rejoin succeed. */
  datatype Turn = Turn(cancelled: bool, connects: bool, rejoins: bool)

  datatype Outcome = Cancelled | Rejoined | StillTrying

  function FailedConnects(turns: seq<Turn>): nat {
    if turns == [] then 0
    else FailedConnects(turns[..|turns| - 1]) + (if turns[|turns| - 1].connects then 0 else 1)
  }

  lemma {:induction false} FailedConnectsMonotone(turns: seq<Turn>, i: nat, j: nat)
    requires i <= j <= |turns|
    ensures FailedConnects(turns[..i]) <= FailedConnects(turns[..j])
  {
    if i == j {
    } else {
      FailedConnectsMonotone(turns, i, j - 1);
      assert turns[..j][..j - 1] == turns[..j - 1];
    }
  }

  lemma CappedDoubling(c: nat)
    ensures Min(Min(Pow2(c), MAX_DELAY) * 2, MAX_DELAY) == Min(Pow2(c + 1), MAX_DELAY)
  {
  }

  /** The k-th delay in seconds: 2^(failed connects before it), capped at 30. */
  function Delay(turns: seq<Turn>, k: nat): nat
    requires k <= |turns|
  {
    Min(Pow2(FailedConnects(turns[..k])), MAX_DELAY)
  }

  lemma DelayStep(turns: seq<Turn>, k: nat)
    requires k < |turns|
    ensures Delay(turns, k + 1) == if turns[k].connects then Delay(turns, k) else Min(Delay(turns, k) * 2, MAX_DELAY)
  {
    assert turns[..k + 1][..k] == turns[..k];
    CappedDoubling(FailedConnects(turns[..k]));
  }

  /** The delays in figures: a second, doubled by every failed connect up to 30, whatever rejoins do. */
  lemma DelayFigures(turns: seq<Turn>)
    ensures Delay(turns, 0) == 1
    ensures forall k :: 0 <= k < |turns| ==>
              Delay(turns, k + 1) == if turns[k].connects then Delay(turns, k)
                                     else if Delay(turns, k) >= 15 then 30
                                     else Delay(turns, k) * 2
  {
    forall k | 0 <= k < |turns|
      ensures Delay(turns, k + 1) == if turns[k].connects then Delay(turns, k)
                                     else if Delay(turns, k) >= 15 then 30
                                     else Delay(turns, k) * 2
    {
      DelayStep(turns, k);
    }
  }

  /** Delays never shrink and never exceed 30 seconds. */
  lemma DelayMonotone(turns: seq<Turn>, i: nat, j: nat)
    requires i <= j <= |turns|
    ensures Delay(turns, i) <= Delay(turns, j) <= 30
  {
    FailedConnectsMonotone(turns, i, j);
    Pow2Monotone(FailedConnects(turns[..i]), FailedConnects(turns[..j]));
  }

  /** How many turns of a schedule are tried: up to a cancellation, or through the first success. */
  function Tried(turns: seq<Turn>): (n: nat)
    ensures n <= |turns|
  {
    if turns == [] || turns[0].cancelled then 0
    else if turns[0].connects && turns[0].rejoins then 1
    else 1 + Tried(turns[1..])
  }

  /** The loop tries exactly the turns before which nothing ended it. */
  lemma {:induction false} TriedExactly(turns: seq<Turn>, n: nat)
    requires n <= |turns|
    ensures Tried(turns) > n <==>
              && n < |turns|
              && (forall i :: 0 <= i <= n ==> !turns[i].cancelled)
              && (forall i :: 0 <= i < n ==> !(turns[i].connects && turns[i].rejoins))
  {
    if turns == [] || n == 0 {
    } else {
      TriedExactly(turns[1..], n - 1);
      if Tried(turns) > n {
        forall i | 1 <= i <= n ensures !turns[i].cancelled {
          assert turns[1..][i - 1] == turns[i];
        }
        forall i | 1 <= i < n ensures !(turns[i].connects && turns[i].rejoins) {
          assert turns[1..][i - 1] == turns[i];
        }
      }
    }
  }

  /** The design's bound of five tries holds iff a cancellation or a success comes in time. */
  lemma FiveTriesExactly(turns: seq<Turn>)
    ensures Tried(turns) <= 5 <==>
              || |turns| <= 5
              || (exists i :: 0 <= i < 6 && turns[i].cancelled)
              || (exists i :: 0 <= i < 5 && turns[i].connects && turns[i].rejoins)
  {
    if |turns| > 5 {
      TriedExactly(turns, 5);
    }
  }

  /** The code goes past that bound whenever the first six connects fail and nobody cancels. */
  lemma SixthTryHappens()
    ensures Tried(seq(6, _ => Turn(false, false, false))) == 6
  {
    TriedExactly(seq(6, _ => Turn(false, false, false)), 5);
  }

  /**
   * The loop run against a schedule of answers: the k-th turn sleeps the k-th delay.
   * It returns at the first cancellation or after the first connect-and-rejoin that succeeds, and only then.
   */
  method ReconnectHPB(turns: seq<Turn>) returns (outcome: Outcome, delays: seq<nat>)
    ensures |delays| == Tried(turns)
    ensures forall k :: 0 <= k < |delays| ==> !turns[k].cancelled && delays[k] == Delay(turns, k)
    ensures forall k :: 0 <= k < |delays| - 1 ==> !(turns[k].connects && turns[k].rejoins)
    ensures outcome == Rejoined <==> delays != [] && turns[|delays| - 1].connects && turns[|delays| - 1].rejoins
    ensures outcome == Cancelled <==>
              && (delays == [] || !(turns[|delays| - 1].connects && turns[|delays| - 1].rejoins))
              && |delays| < |turns| && turns[|delays|].cancelled
    ensures outcome == StillTrying ==> |delays| == |turns|
  {
    var backoff: nat := 1;
    delays := [];
    outcome := StillTrying;
    while |delays| < |turns|
      invariant |delays| <= |turns|
      invariant outcome == StillTrying
      invariant backoff == Delay(turns, |delays|)
      invariant forall k :: 0 <= k < |delays| ==>
                  !turns[k].cancelled && !(turns[k].connects && turns[k].rejoins) && delays[k] == Delay(turns, k)
      decreases |turns| - |delays|
    {
      var turn := turns[|delays|];
      if turn.cancelled {
        outcome := Cancelled;
        break;
      }
      DelayStep(turns, |delays|);
      delays := delays + [backoff];
      if !turn.connects {
        backoff := backoff * 2;
        if backoff > MAX_DELAY {
          backoff := MAX_DELAY;
        }
        continue;
      }
      if !turn.rejoins {
        continue;
      }
      outcome := Rejoined;
      break;
    }
    TriedExactly(turns, |delays|);
    if delays != [] {
      TriedExactly(turns, |delays| - 1);
    }
  }
}
