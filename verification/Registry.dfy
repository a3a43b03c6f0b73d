/**
 * The registry of rooms under concurrent `JoinRoom`, `LeaveRoom` and `Close`, at the granularity
 * of the manager's lock. A signaling client is known by the order of its creation; closing one
 * twice would panic.
 *
 * An action that is not enabled does nothing, so a list of actions stands for any interleaving.
 */
module Registry {
  import opened Options

  /** One call of `Close`: the tokens of its snapshot still to leave, and the client it is tearing down. */
  datatype Closer = Closer(remaining: seq<string>, current: set<nat>)

  datatype State = State(
    rooms: map<string, nat>,      // token -> the room's signaling client
    created: nat,
    failed: set<nat>,             // clients whose connect failed: never open, never closed
    tearing: set<nat>,            // clients of rooms taken out, teardown not finished
    closed: multiset<nat>,
    closers: map<nat, Closer>)    // by calling thread

  const INITIAL := State(map[], 0, {}, {}, multiset{}, map[])

  datatype Action =
    /** The whole of JoinRoom, which holds the lock throughout. */
    | Join(token: string, connects: bool, joinSent: bool, webrtcOk: bool)
    /** The locked part of LeaveRoom: look up and delete. */
    | Take(token: string)
    /** The rest of LeaveRoom: closes the client. */
    | Finish(client: nat)
    /** The locked part of Close: the snapshot, in map order. */
    | CloseBegin(thread: nat, order: seq<string>)
    /** Close calls LeaveRoom for its next token, the previous one being finished. */
    | CloseNext(thread: nat)

  function TakeRoom(s: State, token: string): State {
    if token !in s.rooms then s
    else s.(rooms := s.rooms - {token}, tearing := s.tearing + {s.rooms[token]})
  }

  /** An ordering of a set without repetition. */
  ghost predicate Lists(order: seq<string>, tokens: set<string>) {
    && (forall i, j :: 0 <= i < j < |order| ==> order[i] != order[j])
    && (forall t :: t in order <==> t in tokens)
  }

  ghost function Next(s: State, a: Action): State {
    match a
    case Join(token, connects, joinSent, webrtcOk) =>
      if token in s.rooms then s
      else
        var t := s.(created := s.created + 1);
        if !connects then t.(failed := s.failed + {s.created})
        else if !joinSent || !webrtcOk then t.(closed := s.closed + multiset{s.created})
        else t.(rooms := s.rooms[token := s.created])
    case Take(token) => TakeRoom(s, token)
    case Finish(client) =>
      if client !in s.tearing then s
      else s.(tearing := s.tearing - {client}, closed := s.closed + multiset{client})
    case CloseBegin(thread, order) =>
      if thread in s.closers || !Lists(order, s.rooms.Keys) then s
      else s.(closers := s.closers[thread := Closer(order, {})])
    case CloseNext(thread) =>
      if thread !in s.closers || s.closers[thread].remaining == [] || s.closers[thread].current * s.tearing != {} then s
      else
        var token := s.closers[thread].remaining[0];
        var current := if token in s.rooms then {s.rooms[token]} else {};
        TakeRoom(s, token).(closers := s.closers[thread := Closer(s.closers[thread].remaining[1..], current)])
  }

  ghost function Run(s: State, actions: seq<Action>): State {
    if actions == [] then s else Next(Run(s, actions[..|actions| - 1]), actions[|actions| - 1])
  }

  // ----- Every client has exactly one fate -----

  predicate Registered(s: State, client: nat) {
    client in s.rooms.Values
  }

  /** A created client is registered, being torn down, closed once, or was never opened; never two of these. */
  ghost predicate OneFate(s: State, client: nat) {
    var registered := if Registered(s, client) then 1 else 0;
    var tearing := if client in s.tearing then 1 else 0;
    var failed := if client in s.failed then 1 else 0;
    registered + tearing + failed + s.closed[client] == if client < s.created then 1 else 0
  }

  ghost predicate Inv(s: State) {
    && (forall a, b :: a in s.rooms && b in s.rooms && a != b ==> s.rooms[a] != s.rooms[b])
    && (forall c: nat :: OneFate(s, c))
  }

  lemma RegisteredWhere(s: State, client: nat)
    ensures Registered(s, client) <==> exists t :: t in s.rooms && s.rooms[t] == client
  {
  }

  lemma TakeKeeps(s: State, token: string)
    requires Inv(s)
    ensures Inv(TakeRoom(s, token))
  {
    if token in s.rooms {
      var t, gone := TakeRoom(s, token), s.rooms[token];
      assert Registered(s, gone);
      forall c: nat ensures OneFate(t, c) {
        RegisteredWhere(s, c);
        RegisteredWhere(t, c);
        assert OneFate(s, c);
        if Registered(s, c) && c != gone {
          var k :| k in s.rooms && s.rooms[k] == c;
          assert k in t.rooms && t.rooms[k] == c;
        }
      }
    }
  }

  lemma JoinKeeps(s: State, token: string, connects: bool, joinSent: bool, webrtcOk: bool)
    requires Inv(s)
    ensures Inv(Next(s, Join(token, connects, joinSent, webrtcOk)))
  {
    var t := Next(s, Join(token, connects, joinSent, webrtcOk));
    if t.rooms != s.rooms {
      assert t.rooms[token] == s.created;
    }
    assert OneFate(s, s.created);
    forall c: nat ensures OneFate(t, c) {
      RegisteredWhere(s, c);
      RegisteredWhere(t, c);
      assert OneFate(s, c);
      if t.rooms != s.rooms && Registered(s, c) {
        var k :| k in s.rooms && s.rooms[k] == c;
        assert k in t.rooms && t.rooms[k] == c;
      }
    }
    forall a, b | a in t.rooms && b in t.rooms && a != b ensures t.rooms[a] != t.rooms[b] {
      if a in s.rooms { assert Registered(s, s.rooms[a]); }
      if b in s.rooms { assert Registered(s, s.rooms[b]); }
    }
  }

  lemma FinishKeeps(s: State, client: nat)
    requires Inv(s)
    ensures Inv(Next(s, Finish(client)))
  {
    var t := Next(s, Finish(client));
    forall c: nat ensures OneFate(t, c) {
      assert OneFate(s, c);
    }
  }

  lemma SameClients(s: State, t: State)
    requires Inv(s) && t.(closers := s.closers) == s
    ensures Inv(t)
  {
    forall c: nat ensures OneFate(t, c) {
      assert OneFate(s, c);
    }
  }

  lemma NextKeeps(s: State, a: Action)
    requires Inv(s)
    ensures Inv(Next(s, a))
  {
    match a
    case Join(token, connects, joinSent, webrtcOk) => JoinKeeps(s, token, connects, joinSent, webrtcOk);
    case Take(token) => TakeKeeps(s, token);
    case Finish(client) => FinishKeeps(s, client);
    case CloseBegin(thread, order) => SameClients(s, Next(s, a));
    case CloseNext(thread) =>
      if thread in s.closers && s.closers[thread].remaining != [] {
        TakeKeeps(s, s.closers[thread].remaining[0]);
        if Next(s, a) != s {
          SameClients(TakeRoom(s, s.closers[thread].remaining[0]), Next(s, a));
        }
      }
  }

  lemma {:induction false} RunKeeps(actions: seq<Action>)
    ensures Inv(Run(INITIAL, actions))
  {
    if actions == [] {
    } else {
      RunKeeps(actions[..|actions| - 1]);
      NextKeeps(Run(INITIAL, actions[..|actions| - 1]), actions[|actions| - 1]);
    }
  }

  /**
   * For every interleaving: no client is closed twice, a registered client is open, no two tokens share a
   * client, and a client that was opened is registered, being torn down, or closed exactly once.
   */
  lemma ClientsClosedAtMostOnce(actions: seq<Action>, client: nat)
    ensures var s := Run(INITIAL, actions);
            && s.closed[client] <= 1
            && (Registered(s, client) || client in s.tearing ==> s.closed[client] == 0)
            && (client < s.created && client !in s.failed ==>
                  (s.closed[client] == 1 <==> !Registered(s, client) && client !in s.tearing))
            && (forall a, b :: a in s.rooms && b in s.rooms && a != b ==> s.rooms[a] != s.rooms[b])
  {
    RunKeeps(actions);
    assert OneFate(Run(INITIAL, actions), client);
  }

  // ----- A token keeps its room until somebody takes it -----

  /** The action looks up the token to take its room out. */
  predicate Takes(s: State, a: Action, token: string) {
    || (a.Take? && a.token == token)
    || (a.CloseNext? && a.thread in s.closers
        && var closer := s.closers[a.thread];
           closer.current * s.tearing == {} && closer.remaining != [] && closer.remaining[0] == token)
  }

  /** The action registers a new room for the token. */
  predicate Registers(s: State, a: Action, token: string) {
    a.Join? && a.token == token && token !in s.rooms && a.connects && a.joinSent && a.webrtcOk
  }

  /** What one action does to one token. */
  lemma OneStepOnToken(s: State, a: Action, token: string)
    ensures token in Next(s, a).rooms <==> Registers(s, a, token) || (token in s.rooms && !Takes(s, a, token))
    ensures token in s.rooms && !Takes(s, a, token) ==> Next(s, a).rooms[token] == s.rooms[token]
  {
  }

  ghost predicate TakesClient(s: State, a: Action, client: nat) {
    exists token :: token in s.rooms && s.rooms[token] == client && Takes(s, a, token)
  }

  /**
   * What one action does to the clients: a join of a new token creates one, which fails iff its connect does
   * and is closed at once iff a later step of the join does; only a leaver's lookup starts a teardown.
   */
  lemma OneStepOnClients(s: State, a: Action)
    requires Inv(s)
    ensures var t := Next(s, a);
            && t.created == s.created + (if a.Join? && a.token !in s.rooms then 1 else 0)
            && t.failed == s.failed + (if a.Join? && a.token !in s.rooms && !a.connects then {s.created} else {})
            && (a.Join? && a.token !in s.rooms ==>
                  (t.closed[s.created] == 1 <==> a.connects && (!a.joinSent || !a.webrtcOk)))
            && (forall c :: c in t.tearing && c !in s.tearing ==> TakesClient(s, a, c))
  {
    assert OneFate(s, s.created);
    if a.Take? && a.token in s.rooms {
      assert Takes(s, a, a.token);
    }
    if a.CloseNext? && Next(s, a) != s && s.closers[a.thread].remaining[0] in s.rooms {
      assert Takes(s, a, s.closers[a.thread].remaining[0]);
    }
  }

  /** When every connect succeeds, every client ever created is registered, being torn down, or closed once. */
  lemma {:induction false} OpenedClientsAccounted(actions: seq<Action>, client: nat)
    requires forall i :: 0 <= i < |actions| && actions[i].Join? ==> actions[i].connects
    ensures var s := Run(INITIAL, actions);
            && s.failed == {}
            && (client < s.created && !Registered(s, client) && client !in s.tearing ==> s.closed[client] == 1)
  {
    if actions == [] {
    } else {
      var front, a := actions[..|actions| - 1], actions[|actions| - 1];
      OpenedClientsAccounted(front, client);
      RunKeeps(front);
      OneStepOnClients(Run(INITIAL, front), a);
    }
    ClientsClosedAtMostOnce(actions, client);
  }

  /** Nobody takes the token during the run. */
  ghost predicate Untaken(s: State, actions: seq<Action>, token: string) {
    forall k :: 0 <= k < |actions| ==> !Takes(Run(s, actions[..k]), actions[k], token)
  }

  lemma UntakenSnoc(s: State, front: seq<Action>, a: Action, token: string)
    ensures Untaken(s, front + [a], token) <==> Untaken(s, front, token) && !Takes(Run(s, front), a, token)
  {
    var all := front + [a];
    assert all[..|front|] == front;
    forall k | 0 <= k < |front| ensures all[..k] == front[..k] && all[k] == front[k] {
    }
    if Untaken(s, all, token) {
      assert !Takes(Run(s, all[..|front|]), all[|front|], token);
      forall k | 0 <= k < |front| ensures !Takes(Run(s, front[..k]), front[k], token) {
        assert !Takes(Run(s, all[..k]), all[k], token);
      }
    }
  }

  /** A registered token keeps its room, and so is never joined twice, until some leaver takes it. */
  lemma {:induction false} RegisteredRoomStays(s: State, actions: seq<Action>, token: string)
    requires token in s.rooms && Untaken(s, actions, token)
    ensures token in Run(s, actions).rooms && Run(s, actions).rooms[token] == s.rooms[token]
  {
    if actions == [] {
    } else {
      var front, a := actions[..|actions| - 1], actions[|actions| - 1];
      assert actions == front + [a];
      UntakenSnoc(s, front, a, token);
      RegisteredRoomStays(s, front, token);
      OneStepOnToken(Run(s, front), a, token);
    }
  }

  /** Some join of the run registers the token, and no later action of the run takes it out. */
  ghost predicate LeftBehind(s: State, actions: seq<Action>, token: string) {
    actions != []
    && var front, a := actions[..|actions| - 1], actions[|actions| - 1];
       Registers(Run(s, front), a, token)
       || (LeftBehind(s, front, token) && !Takes(Run(s, front), a, token))
  }

  /** What is registered after a run was left behind by it, or was registered before and never taken. */
  lemma {:induction false} RegisteredAfterRun(s: State, actions: seq<Action>, token: string)
    ensures token in Run(s, actions).rooms
            <==> LeftBehind(s, actions, token) || (token in s.rooms && Untaken(s, actions, token))
  {
    if actions == [] {
    } else {
      var front, a := actions[..|actions| - 1], actions[|actions| - 1];
      assert actions == front + [a];
      RegisteredAfterRun(s, front, token);
      UntakenSnoc(s, front, a, token);
      OneStepOnToken(Run(s, front), a, token);
      if Untaken(s, front, token) && token in s.rooms {
        RegisteredRoomStays(s, front, token);
      }
    }
  }

  // ----- Closing the manager -----

  /** Every room still registered whose client is older than `n` is still on this closer's list. */
  ghost predicate Covered(s: State, thread: nat, n: nat) {
    && thread in s.closers
    && n <= s.created
    && forall t :: t in s.rooms && s.rooms[t] < n ==> t in s.closers[thread].remaining
  }

  lemma CoveredStep(s: State, a: Action, thread: nat, n: nat)
    requires Covered(s, thread, n)
    ensures Covered(Next(s, a), thread, n)
  {
    if a.CloseNext? && a.thread == thread && Next(s, a) != s {
      var list := s.closers[thread].remaining;
      assert list == [list[0]] + list[1..];
    }
  }

  lemma {:induction false} CoveredRun(s: State, actions: seq<Action>, thread: nat, n: nat)
    requires Covered(s, thread, n)
    ensures Covered(Run(s, actions), thread, n)
  {
    if actions == [] {
    } else {
      CoveredRun(s, actions[..|actions| - 1], thread, n);
      CoveredStep(Run(s, actions[..|actions| - 1]), actions[|actions| - 1], thread, n);
    }
  }

  lemma {:induction false} KeepsOverRun(s: State, actions: seq<Action>)
    requires Inv(s)
    ensures Inv(Run(s, actions))
  {
    if actions == [] {
    } else {
      KeepsOverRun(s, actions[..|actions| - 1]);
      NextKeeps(Run(s, actions[..|actions| - 1]), actions[|actions| - 1]);
    }
  }

  /** Some other leaver, not this closer, took the client's room out during the run. */
  ghost predicate TakenByOther(s: State, actions: seq<Action>, thread: nat, client: nat) {
    actions != []
    && var front, a := actions[..|actions| - 1], actions[|actions| - 1];
       || TakenByOther(s, front, thread, client)
       || (!(a.CloseNext? && a.thread == thread) && TakesClient(Run(s, front), a, client))
  }

  /** Who is tearing down a client: whoever was at the start, another leaver, or this closer right now. */
  lemma {:induction false} TearingWhose(s: State, actions: seq<Action>, thread: nat, client: nat)
    requires Inv(s) && thread in s.closers
    requires client in Run(s, actions).tearing
    ensures thread in Run(s, actions).closers
    ensures || client in s.tearing
            || TakenByOther(s, actions, thread, client)
            || client in Run(s, actions).closers[thread].current
  {
    if actions == [] {
    } else {
      var front, a := actions[..|actions| - 1], actions[|actions| - 1];
      var before := Run(s, front);
      CoveredRunThread(s, front, thread);
      KeepsOverRun(s, front);
      OneStepOnClients(before, a);
      if client in before.tearing {
        TearingWhose(s, front, thread, client);
      }
    }
  }

  lemma {:induction false} CoveredRunThread(s: State, actions: seq<Action>, thread: nat)
    requires thread in s.closers
    ensures thread in Run(s, actions).closers
  {
    if actions == [] {
    } else {
      CoveredRunThread(s, actions[..|actions| - 1], thread);
    }
  }

  predicate CloseReturned(s: State, thread: nat) {
    thread in s.closers && s.closers[thread].remaining == [] && s.closers[thread].current * s.tearing == {}
  }

  lemma SnapshotOlder(actions: seq<Action>)
    ensures var s := Run(INITIAL, actions);
            forall t :: t in s.rooms ==> s.rooms[t] < s.created
  {
    RunKeeps(actions);
    var s := Run(INITIAL, actions);
    forall t | t in s.rooms ensures s.rooms[t] < s.created {
      assert Registered(s, s.rooms[t]) && OneFate(s, s.rooms[t]);
    }
  }

  /**
   * Whatever runs beside a `Close`, when it returns the registry holds exactly the tokens some join registered
   * after the snapshot and nobody took out again, so it is empty iff there is no such join; and every older
   * client that was opened is closed, unless somebody else is tearing it down, who was doing so at the snapshot
   * or took its room out since.
   */
  lemma CloseEmptiesTheRegistry(before: seq<Action>, thread: nat, order: seq<string>, after: seq<Action>)
    requires var s := Run(INITIAL, before); thread !in s.closers && Lists(order, s.rooms.Keys)
    requires CloseReturned(Run(Next(Run(INITIAL, before), CloseBegin(thread, order)), after), thread)
    ensures var start := Next(Run(INITIAL, before), CloseBegin(thread, order));
            var s := Run(start, after);
            && (forall t :: t in s.rooms <==> LeftBehind(start, after, t))
            && (s.rooms == map[] <==> forall t :: !LeftBehind(start, after, t))
            && (forall t :: t in s.rooms ==> s.rooms[t] >= start.created)
            && (forall c: nat :: c < start.created && c !in s.failed ==>
                  || s.closed[c] == 1
                  || (c in s.tearing && (c in start.tearing || TakenByOther(start, after, thread, c))))
  {
    var start := Next(Run(INITIAL, before), CloseBegin(thread, order));
    var n, s := start.created, Run(start, after);
    SnapshotOlder(before);
    CoveredRun(start, after, thread, n);
    forall t ensures t in s.rooms <==> LeftBehind(start, after, t) {
      RegisteredAfterRun(start, after, t);
      if t in start.rooms && Untaken(start, after, t) {
        RegisteredRoomStays(start, after, t);
        assert false;
      }
    }
    if forall t :: !LeftBehind(start, after, t) {
      assert s.rooms.Keys == {};
    }
    RunKeeps(before);
    NextKeeps(Run(INITIAL, before), CloseBegin(thread, order));
    forall c: nat | c < n && c !in s.failed
      ensures s.closed[c] == 1 || (c in s.tearing && (c in start.tearing || TakenByOther(start, after, thread, c)))
    {
      OldClientFate(start, after, thread, c);
    }
  }

  lemma OldClientFate(start: State, after: seq<Action>, thread: nat, c: nat)
    requires Inv(start) && thread in start.closers && c < start.created
    requires var s := Run(start, after);
             CloseReturned(s, thread) && c !in s.failed && forall t :: t in s.rooms ==> s.rooms[t] >= start.created
    ensures var s := Run(start, after);
            s.closed[c] == 1 || (c in s.tearing && (c in start.tearing || TakenByOther(start, after, thread, c)))
  {
    var s := Run(start, after);
    KeepsOverRun(start, after);
    CreatedGrows(start, after);
    assert OneFate(s, c);
    if c in s.tearing {
      TearingWhose(start, after, thread, c);
    }
  }

  lemma {:induction false} CreatedGrows(s: State, actions: seq<Action>)
    ensures s.created <= Run(s, actions).created
  {
    if actions == [] {
    } else {
      CreatedGrows(s, actions[..|actions| - 1]);
    }
  }

  lemma RunSnoc(s: State, front: seq<Action>, a: Action)
    ensures Run(s, front + [a]) == Next(Run(s, front), a)
  {
    assert (front + [a])[..|front|] == front;
  }

  lemma {:induction false} RunCons(s: State, a: Action, rest: seq<Action>)
    ensures Run(s, [a] + rest) == Run(Next(s, a), rest)
  {
    if rest == [] {
      RunSnoc(s, [], a);
      assert [a] + rest == [] + [a];
    } else {
      var front, last := rest[..|rest| - 1], rest[|rest| - 1];
      RunCons(s, a, front);
      assert [a] + rest == [a] + front + [last];
      RunSnoc(s, [a] + front, last);
    }
  }

  /** A `Close` can always go on to its return: no teardown and no missing token blocks it. */
  lemma {:induction false} CloseCanReturn(s: State, thread: nat)
    requires thread in s.closers
    ensures exists after :: CloseReturned(Run(s, after), thread)
    decreases |s.closers[thread].remaining|, |s.closers[thread].current * s.tearing|, 1
  {
    var closer := s.closers[thread];
    if closer.current * s.tearing != {} {
      var c :| c in closer.current * s.tearing;
      var t := Next(s, Finish(c));
      assert t.closers[thread].current * t.tearing == closer.current * s.tearing - {c};
      ReturnLater(s, Finish(c), thread);
    } else if closer.remaining != [] {
      ReturnLater(s, CloseNext(thread), thread);
    } else {
      assert CloseReturned(Run(s, []), thread);
    }
  }

  lemma ReturnLater(s: State, a: Action, thread: nat)
    requires thread in s.closers && thread in Next(s, a).closers
    requires var was, will := s.closers[thread], Next(s, a).closers[thread];
             || |will.remaining| < |was.remaining|
             || (will.remaining == was.remaining && |will.current * Next(s, a).tearing| < |was.current * s.tearing|)
    ensures exists after :: CloseReturned(Run(s, after), thread)
    decreases |s.closers[thread].remaining|, |s.closers[thread].current * s.tearing|, 0
  {
    CloseCanReturn(Next(s, a), thread);
    var rest :| CloseReturned(Run(Next(s, a), rest), thread);
    RunCons(s, a, rest);
    assert CloseReturned(Run(s, [a] + rest), thread);
  }

  /** So every `Close` can return, whatever went before and in whatever order it lists the tokens. */
  lemma EveryCloseCanReturn(before: seq<Action>, thread: nat, order: seq<string>)
    requires var s := Run(INITIAL, before); thread !in s.closers && Lists(order, s.rooms.Keys)
    ensures exists after :: CloseReturned(Run(Next(Run(INITIAL, before), CloseBegin(thread, order)), after), thread)
  {
    CloseCanReturn(Next(Run(INITIAL, before), CloseBegin(thread, order)), thread);
  }

  /** In particular `Close` alone leaves no client open: with no other leaver all older ones are closed on return. */
  lemma CloseClosesItsClients(before: seq<Action>, thread: nat, order: seq<string>, after: seq<Action>, client: nat)
    requires var s := Run(INITIAL, before); thread !in s.closers && Lists(order, s.rooms.Keys) && s.tearing == {}
    requires CloseReturned(Run(Next(Run(INITIAL, before), CloseBegin(thread, order)), after), thread)
    requires forall i :: 0 <= i < |after| ==> !after[i].Take? && (after[i].CloseNext? ==> after[i].thread == thread)
    requires client < Run(INITIAL, before).created && client !in Run(INITIAL, before).failed
    ensures Run(Next(Run(INITIAL, before), CloseBegin(thread, order)), after).closed[client] == 1
  {
    var start := Next(Run(INITIAL, before), CloseBegin(thread, order));
    CloseEmptiesTheRegistry(before, thread, order, after);
    NoOtherTakes(start, after, thread, client);
    RunKeeps(before);
    NextKeeps(Run(INITIAL, before), CloseBegin(thread, order));
    OldClientsStayOpened(start, after, client);
  }

  lemma {:induction false} NoOtherTakes(s: State, actions: seq<Action>, thread: nat, client: nat)
    requires forall i :: 0 <= i < |actions| ==> !actions[i].Take? && (actions[i].CloseNext? ==> actions[i].thread == thread)
    ensures !TakenByOther(s, actions, thread, client)
  {
    if actions == [] {
    } else {
      NoOtherTakes(s, actions[..|actions| - 1], thread, client);
    }
  }

  lemma {:induction false} OldClientsStayOpened(s: State, actions: seq<Action>, client: nat)
    requires Inv(s) && client < s.created && client !in s.failed
    ensures client < Run(s, actions).created && client !in Run(s, actions).failed
  {
    if actions == [] {
    } else {
      var front := actions[..|actions| - 1];
      OldClientsStayOpened(s, front, client);
      KeepsOverRun(s, front);
      OneStepOnClients(Run(s, front), actions[|actions| - 1]);
    }
  }

  lemma {:induction false} NothingLeftBehind(s: State, actions: seq<Action>, token: string)
    requires forall i :: 0 <= i < |actions| ==> !actions[i].Join?
    ensures !LeftBehind(s, actions, token)
  {
    if actions == [] {
    } else {
      NothingLeftBehind(s, actions[..|actions| - 1], token);
    }
  }

  /** In particular, the registry ends empty when no join interleaves. */
  lemma CloseAmongLeaversEmpties(before: seq<Action>, thread: nat, order: seq<string>, after: seq<Action>)
    requires var s := Run(INITIAL, before); thread !in s.closers && Lists(order, s.rooms.Keys)
    requires CloseReturned(Run(Next(Run(INITIAL, before), CloseBegin(thread, order)), after), thread)
    requires forall i :: 0 <= i < |after| ==> !after[i].Join?
    ensures Run(Next(Run(INITIAL, before), CloseBegin(thread, order)), after).rooms == map[]
  {
    CloseEmptiesTheRegistry(before, thread, order, after);
    forall t ensures !LeftBehind(Next(Run(INITIAL, before), CloseBegin(thread, order)), after, t) {
      NothingLeftBehind(Next(Run(INITIAL, before), CloseBegin(thread, order)), after, t);
    }
  }

  /** A join between the snapshot and the return can leave a room behind. */
  lemma JoinDuringCloseSurvives()
    ensures exists after: seq<Action> ::
              var s := Run(Next(INITIAL, CloseBegin(0, [])), after);
              CloseReturned(s, 0) && s.rooms != map[]
  {
    var s := Next(INITIAL, CloseBegin(0, []));
    assert Lists([], INITIAL.rooms.Keys);
    var after := [Join("t", true, true, true)];
    assert after[..0] == [];
    assert Run(s, after) == Next(s, after[0]);
    assert "t" in Run(s, after).rooms;
  }

  // ----- The stateful form -----

  class Manager {
    var rooms: map<string, nat>
    var created: nat
    ghost var failed: set<nat>
    ghost var tearing: set<nat>
    ghost var closed: multiset<nat>

    ghost function Snapshot(): State
      reads this
    {
      State(rooms, created, failed, tearing, closed, map[])
    }

    constructor ()
      ensures Snapshot() == INITIAL
    {
      rooms, created := map[], 0;
      failed, tearing, closed := {}, {}, multiset{};
    }

    method JoinRoom(token: string, connects: bool, joinSent: bool, webrtcOk: bool) returns (room: Option<nat>)
      modifies this
      ensures Snapshot() == Next(old(Snapshot()), Join(token, connects, joinSent, webrtcOk))
      ensures room == if token in rooms then Some(rooms[token]) else None
    {
      if token in rooms {
        return Some(rooms[token]);
      }
      var client := created;
      created := created + 1;
      if !connects {
        failed := failed + {client};
        return None;
      }
      if !joinSent {
        closed := closed + multiset{client};
        return None;
      }
      if !webrtcOk {
        closed := closed + multiset{client};
        return None;
      }
      rooms := rooms[token := client];
      return Some(client);
    }

    /** Taking the room out under the lock gives the caller alone the right to close its client. */
    method LeaveRoom(token: string) returns (found: bool)
      requires Inv(Snapshot())
      modifies this
      ensures found <==> token in old(rooms)
      ensures !found ==> Snapshot() == old(Snapshot())
      ensures found ==> Snapshot() == Next(Next(old(Snapshot()), Take(token)), Finish(old(rooms)[token]))
      ensures rooms == old(rooms) - {token} && tearing == old(tearing) && created == old(created)
      ensures failed == old(failed)
      ensures Inv(Snapshot())
    {
      if token !in rooms {
        return false;
      }
      NextKeeps(Snapshot(), Take(token));
      NextKeeps(Next(Snapshot(), Take(token)), Finish(rooms[token]));
      var client := rooms[token];
      assert client !in tearing by {
        assert Registered(Snapshot(), client) && OneFate(Snapshot(), client);
      }
      rooms := rooms - {token};
      closed := closed + multiset{client};
      return true;
    }

    /** With nothing running beside it, closing leaves every room of the snapshot and ends with none. */
    method Close()
      requires Inv(Snapshot())
      modifies this
      ensures rooms == map[] && tearing == old(tearing) && created == old(created) && failed == old(failed)
      ensures Inv(Snapshot())
      ensures forall t :: t in old(rooms) ==> closed[old(rooms)[t]] == 1
    {
      var tokens := rooms.Keys;
      ghost var before := Snapshot();
      while tokens != {}
        invariant rooms.Keys <= tokens && tearing == old(tearing) && created == old(created) && failed == old(failed)
        invariant Inv(Snapshot())
        decreases tokens
      {
        var token :| token in tokens;
        var _ := LeaveRoom(token);
        tokens := tokens - {token};
      }
      assert rooms.Keys == {};
      forall t | t in before.rooms ensures closed[before.rooms[t]] == 1 {
        assert Registered(before, before.rooms[t]) && OneFate(before, before.rooms[t]);
        assert OneFate(Snapshot(), before.rooms[t]);
      }
    }
  }
}
