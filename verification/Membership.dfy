/**
 * Who is a speaker in a room: the state the orchestration loop keeps, and the effect of every
 * message on it, as functions. The class `Room` (in Room.dfy) is proved against them.
 */
module Membership {
  import opened Options

  // ----- Participant entries, as JSON decodes them -----

  datatype Json = JString(s: string) | JBool(b: bool) | JNumber(n: real) | JInt(i: int) | JOther
  type User = map<string, Json>

  function GetString(user: User, key: string): string {
    if key in user && user[key].JString? then user[key].s else ""
  }

  function GetBool(user: User, key: string): bool {
    key in user && user[key].JBool? && user[key].b
  }

  /** Go's conversion from float64 to int, which cuts towards zero. */
  function Truncate(x: real): int {
    if x >= 0.0 then x.Floor else -((-x).Floor)
  }

  /** The inCall flags; anything that is not a number counts as 0. */
  function CallFlags(user: User): int {
    if "inCall" !in user then 0
    else
      match user["inCall"]
      case JNumber(n) => Truncate(n)
      case JInt(i) => i
      case _ => 0
  }

  /** Bit 0 and bit 1 of a two's complement integer. */
  predicate InCall(flags: int) { flags % 2 == 1 }
  predicate WithAudio(flags: int) { flags / 2 % 2 == 1 }

  const NANOSECONDS: int := 1_000_000_000
  const STALE_PING_THRESHOLD: int := 600 * NANOSECONDS

  /** The participant stopped pinging more than ten minutes ago; no ping at all is not stale. */
  predicate Stale(user: User, now: int) {
    && "lastPing" in user && user["lastPing"].JNumber? && user["lastPing"].n > 0.0
    && now - Truncate(user["lastPing"].n) * NANOSECONDS > STALE_PING_THRESHOLD
  }

  function DisplayName(user: User): string {
    if GetString(user, "displayname") != "" then GetString(user, "displayname")
    else if GetString(user, "displayName") != "" then GetString(user, "displayName")
    else GetString(user, "userId")
  }

  // ----- The room -----

  datatype Speaker = Speaker(userID: string, name: string)

  /**
   * Peer connections and Modal clients are numbered in the order they were created; a speaker's client
   * carries the number of the peer it was created with. `closed` counts the closings of each peer.
   */
  datatype RoomState = RoomState(
    speakers: map<string, Speaker>,
    clients: map<string, nat>,
    internal: set<string>,
    peers: map<string, nat>,
    created: nat,
    closed: multiset<nat>)

  const EMPTY_ROOM := RoomState(map[], map[], {}, map[], 0, multiset{})
  const CAPACITY: nat := 100

  /** A participants entry with the answers the libraries give if a peer is created for it. */
  datatype Entry = Entry(user: User, peerOk: bool, pipelineOk: bool) {
    function SessionID(): string { GetString(user, "sessionId") }
    function AsSpeaker(): Speaker { Speaker(GetString(user, "userId"), DisplayName(user)) }
  }

  function CreatePeer(s: RoomState, id: string): RoomState {
    s.(peers := s.peers[id := s.created], created := s.created + 1)
  }

  function RemovePeer(s: RoomState, id: string): RoomState {
    if id in s.peers then s.(peers := s.peers - {id}, closed := s.closed + multiset{s.peers[id]}) else s
  }

  function AddSpeaker(s: RoomState, id: string, speaker: Speaker, peerOk: bool, pipelineOk: bool): RoomState {
    if id in s.speakers || |s.speakers| >= CAPACITY || !peerOk then s
    else
      var t := CreatePeer(s, id);
      if !pipelineOk then RemovePeer(t, id)
      else t.(speakers := t.speakers[id := speaker], clients := t.clients[id := s.created])
  }

  function RemoveSpeaker(s: RoomState, id: string): RoomState {
    if id !in s.speakers then s
    else RemovePeer(s.(speakers := s.speakers - {id}, clients := s.clients - {id}), id)
  }

  function MarkInternal(s: RoomState, id: string): RoomState {
    s.(internal := s.internal + {id})
  }

  datatype Verdict = Ignore | Internal | Drop | Admit

  /** What an entry asks for, given whether its session is already known to be internal. */
  function Judge(user: User, known: bool, now: int): Verdict {
    var flags := CallFlags(user);
    if GetString(user, "sessionId") == "" then Ignore
    else if GetBool(user, "internal") then Internal
    else if known then Ignore
    else if Stale(user, now) then Drop
    else if flags == 0 then Drop
    else if InCall(flags) && WithAudio(flags) then Admit
    else Ignore
  }

  // ----- What an entry means, in terms of the JSON it holds -----

  /** The text stored under a key: none when the key is absent or holds no string. */
  ghost predicate Holds(user: User, key: string, text: string) {
    if key in user && user[key].JString? then user[key].s == text else text == ""
  }

  ghost predicate ClaimsInternal(user: User) {
    "internal" in user && user["internal"] == JBool(true)
  }

  /** The flags an entry carries: the integer next to its inCall number on the way to zero; 0 if it has none. */
  ghost predicate HasFlags(user: User, flags: int) {
    if "inCall" in user && user["inCall"].JInt? then flags == user["inCall"].i
    else if "inCall" in user && user["inCall"].JNumber? then
      var n := user["inCall"].n;
      if n >= 0.0 then flags as real <= n < flags as real + 1.0 else flags as real - 1.0 < n <= flags as real
    else flags == 0
  }

  lemma CallFlagsExactly(user: User, flags: int)
    ensures HasFlags(user, flags) <==> CallFlags(user) == flags
  {
    if "inCall" in user && user["inCall"].JNumber? {
      TruncateTowardsZero(user["inCall"].n);
    }
  }

  /**
   * Whom an event admits and whom it drops. An entry without a session is ignored, one that claims to be
   * internal is marked, one of a session known to be internal is ignored. Of the rest a stale one is dropped;
   * a fresh one is admitted iff its two lowest flag bits are both set and dropped iff it has no flags at all,
   * so other flags neither add nor remove it.
   */
  lemma VerdictExactly(user: User, known: bool, now: int, id: string, flags: int)
    requires Holds(user, "sessionId", id) && HasFlags(user, flags)
    ensures Judge(user, known, now) == Internal <==> id != "" && ClaimsInternal(user)
    ensures id != "" && !ClaimsInternal(user) && !known ==>
              && (Judge(user, known, now) == Admit <==> !Stale(user, now) && flags % 4 == 3)
              && (Judge(user, known, now) == Drop <==> Stale(user, now) || flags == 0)
    ensures id == "" || (known && !ClaimsInternal(user)) ==> Judge(user, known, now) == Ignore
  {
    CallFlagsExactly(user, flags);
    LowBits(flags);
  }

  /** In particular: somebody who hangs up is dropped, whatever form the zero or missing flags take. */
  lemma HangingUpDrops(user: User, now: int, id: string)
    requires Holds(user, "sessionId", id) && id != "" && !ClaimsInternal(user)
    requires "inCall" !in user || user["inCall"] == JNumber(0.0) || user["inCall"] == JInt(0)
             || user["inCall"].JString? || user["inCall"].JBool?
    ensures Judge(user, false, now) == Drop
  {
    VerdictExactly(user, false, now, id, 0);
  }

  /** Which session an entry is about and which speaker it describes: the first name that is not empty counts. */
  lemma EntryDescribes(e: Entry, id: string, userID: string, lower: string, camel: string)
    requires Holds(e.user, "sessionId", id) && Holds(e.user, "userId", userID)
    requires Holds(e.user, "displayname", lower) && Holds(e.user, "displayName", camel)
    ensures e.SessionID() == id
    ensures e.AsSpeaker() == Speaker(userID, if lower != "" then lower else if camel != "" then camel else userID)
  {
  }

  lemma LowBits(flags: int)
    ensures InCall(flags) && WithAudio(flags) <==> flags % 4 == 3
  {
  }

  /** A ping at `ping` seconds is `age` seconds old at the reading `now` in nanoseconds. */
  ghost predicate Aged(ping: real, now: int, age: real) {
    now as real == (ping + age) * NANOSECONDS as real
  }

  /**
   * What cutting a ping to whole seconds means for its true age: a ping more than ten minutes old is always
   * stale, a stale one is more than 599 s old, and in between it is stale iff its age exceeds ten minutes less
   * the fraction cut off. A ping that is absent, no number or not positive never is.
   */
  lemma StaleExactly(user: User, now: int, age: real)
    requires "lastPing" in user && user["lastPing"].JNumber? ==> Aged(user["lastPing"].n, now, age)
    ensures Stale(user, now) ==> "lastPing" in user && user["lastPing"].JNumber? && user["lastPing"].n > 0.0
    ensures "lastPing" in user && user["lastPing"].JNumber? && user["lastPing"].n > 0.0 ==>
              var ping := user["lastPing"].n;
              && (Stale(user, now) <==> age > 600.0 - (ping - ping.Floor as real))
              && (age > 600.0 ==> Stale(user, now))
              && (Stale(user, now) ==> age > 599.0)
  {
    if "lastPing" in user && user["lastPing"].JNumber? && user["lastPing"].n > 0.0 {
      var ping := user["lastPing"].n;
      WholeNanoseconds(now, ping.Floor + 600);
      assert (ping + age) * NANOSECONDS as real > (ping.Floor + 600) as real * NANOSECONDS as real
             <==> ping + age > (ping.Floor + 600) as real;
    }
  }

  lemma WholeNanoseconds(now: int, seconds: int)
    ensures now > seconds * NANOSECONDS <==> now as real > seconds as real * NANOSECONDS as real
  {
    assert (seconds * NANOSECONDS) as real == seconds as real * NANOSECONDS as real;
  }

  /** Ten minutes are not always needed: a ping 599.25 s old can be stale. */
  lemma StaleBeforeTenMinutes()
    ensures var user: User := map["lastPing" := JNumber(1000.875)];
            Aged(1000.875, 1_600_125_000_000, 599.25) && Stale(user, 1_600_125_000_000)
  {
    assert (1000.875 as real).Floor == 1000;
  }

  /** Conversion to int drops the fraction and keeps the sign. */
  lemma TruncateTowardsZero(x: real)
    ensures x >= 0.0 ==> 0.0 <= Truncate(x) as real <= x < Truncate(x) as real + 1.0
    ensures x <= 0.0 ==> Truncate(x) as real - 1.0 < x <= Truncate(x) as real <= 0.0
  {
  }

  function Apply(s: RoomState, e: Entry, verdict: Verdict): RoomState {
    match verdict
    case Ignore => s
    case Internal => RemoveSpeaker(MarkInternal(s, e.SessionID()), e.SessionID())
    case Drop => RemoveSpeaker(s, e.SessionID())
    case Admit => AddSpeaker(s, e.SessionID(), e.AsSpeaker(), e.peerOk, e.pipelineOk)
  }

  function HandleEntry(s: RoomState, now: int, e: Entry): RoomState {
    Apply(s, e, Judge(e.user, e.SessionID() in s.internal, now))
  }

  function HandleEntries(s: RoomState, now: int, entries: seq<Entry>): RoomState {
    if entries == [] then s
    else HandleEntry(HandleEntries(s, now, entries[..|entries| - 1]), now, entries[|entries| - 1])
  }

  datatype Update = Update(all: bool, inCall: Json, users: seq<Entry>, changed: seq<Entry>) {
    /** The call ended for everyone: the update is ignored. */
    predicate EndsCall() { all && inCall.JNumber? && inCall.n == 0.0 }

    function Entries(): seq<Entry> { if users == [] then changed else users }
  }

  function HandleParticipants(s: RoomState, now: int, update: Option<Update>): RoomState {
    if update.None? || update.value.EndsCall() then s
    else HandleEntries(s, now, update.value.Entries())
  }

  /** A session that joined, and the id of our own session as read while handling it. */
  datatype Join = Join(sessionID: string, ownSession: string)

  function HandleJoins(s: RoomState, joins: seq<Join>): RoomState {
    if joins == [] then s
    else
      var before, j := HandleJoins(s, joins[..|joins| - 1]), joins[|joins| - 1];
      if j.sessionID == j.ownSession then MarkInternal(before, j.sessionID) else before
  }

  function HandleLeaves(s: RoomState, leaves: seq<string>): RoomState {
    if leaves == [] then s
    else RemoveSpeaker(HandleLeaves(s, leaves[..|leaves| - 1]), leaves[|leaves| - 1])
  }

  /** One turn of the orchestration loop that can touch the membership. */
  datatype Message =
    | ParticipantsEvent(now: int, update: Option<Update>)
    | RoomEvent(joins: seq<Join>, leaves: seq<string>)
    | Bye(sessionID: string)
    | Reconnected

  function Handle(s: RoomState, m: Message): RoomState {
    match m
    case ParticipantsEvent(now, update) => HandleParticipants(s, now, update)
    case RoomEvent(joins, leaves) => HandleLeaves(HandleJoins(s, joins), leaves)
    case Bye(sessionID) => RemoveSpeaker(s, sessionID)
    case Reconnected => s
  }

  function Run(s: RoomState, messages: seq<Message>): RoomState {
    if messages == [] then s
    else Handle(Run(s, messages[..|messages| - 1]), messages[|messages| - 1])
  }

  // ----- Speakers, clients and peers agree; every peer is open in the map or closed once -----

  ghost predicate Accounted(peers: map<string, nat>, created: nat, closed: multiset<nat>) {
    && (forall id :: id in peers ==> peers[id] < created)
    && (forall a, b :: a in peers && b in peers && a != b ==> peers[a] != peers[b])
    && (forall p: nat :: closed[p] == if p < created && p !in peers.Values then 1 else 0)
  }

  ghost predicate PeersAccounted(s: RoomState) {
    Accounted(s.peers, s.created, s.closed)
  }

  ghost predicate Agrees(s: RoomState) {
    && s.speakers.Keys == s.peers.Keys
    && s.clients == s.peers
    && PeersAccounted(s)
    && |s.speakers| <= 100
  }

  lemma RemovePeerAccounts(s: RoomState, id: string)
    requires PeersAccounted(s)
    ensures PeersAccounted(RemovePeer(s, id))
  {
    if id in s.peers {
      var t, gone := RemovePeer(s, id), s.peers[id];
      forall p: nat ensures p in t.peers.Values <==> p in s.peers.Values && p != gone {
        if p in s.peers.Values && p != gone {
          var k :| k in s.peers && s.peers[k] == p;
          assert k in t.peers && t.peers[k] == p;
        }
      }
    }
  }

  lemma CreatePeerAccounts(s: RoomState, id: string)
    requires PeersAccounted(s) && id !in s.peers
    ensures PeersAccounted(CreatePeer(s, id))
  {
    var t := CreatePeer(s, id);
    assert t.peers[id] == s.created;
    forall p: nat ensures p in t.peers.Values <==> p in s.peers.Values || p == s.created {
      if p in s.peers.Values {
        var k :| k in s.peers && s.peers[k] == p;
        assert k in t.peers && t.peers[k] == p;
      }
    }
  }

  lemma RemoveSpeakerAgrees(s: RoomState, id: string)
    requires Agrees(s)
    ensures Agrees(RemoveSpeaker(s, id))
  {
    if id in s.speakers {
      RemovePeerAccounts(s, id);
      assert RemoveSpeaker(s, id).speakers.Keys < s.speakers.Keys;
    }
  }

  /** What an addition that is not refused does. */
  lemma AddSpeakerAdds(s: RoomState, id: string, speaker: Speaker)
    requires id !in s.speakers && |s.speakers| < 100
    ensures AddSpeaker(s, id, speaker, true, true)
         == RoomState(s.speakers[id := speaker], s.clients[id := s.created], s.internal,
                      s.peers[id := s.created], s.created + 1, s.closed)
  {
  }

  lemma OneMoreKey<V>(m: map<string, V>, id: string, v: V)
    requires id !in m
    ensures m[id := v].Keys == m.Keys + {id} && |m[id := v]| == |m| + 1
  {
    assert m[id := v] - {id} == m;
    assert m[id := v].Keys == m.Keys + {id};
    assert |m[id := v].Keys| == |m.Keys| + 1;
  }

  lemma AdmitAgrees(s: RoomState, id: string, speaker: Speaker)
    requires Agrees(s) && id !in s.speakers && |s.speakers| < 100
    ensures Agrees(AddSpeaker(s, id, speaker, true, true))
  {
    AddSpeakerAdds(s, id, speaker);
    CreatePeerAccounts(s, id);
    OneMoreKey(s.speakers, id, speaker);
    OneMoreKey(s.peers, id, s.created);
  }

  lemma RollBackAgrees(s: RoomState, id: string, speaker: Speaker)
    requires Agrees(s) && id !in s.speakers
    ensures Agrees(AddSpeaker(s, id, speaker, true, false))
  {
    var t := AddSpeaker(s, id, speaker, true, false);
    assert PeersAccounted(t) by {
      CreatePeerAccounts(s, id);
      RemovePeerAccounts(CreatePeer(s, id), id);
    }
    assert t.peers == s.peers;
  }

  lemma AddSpeakerAgrees(s: RoomState, id: string, speaker: Speaker, peerOk: bool, pipelineOk: bool)
    requires Agrees(s)
    ensures Agrees(AddSpeaker(s, id, speaker, peerOk, pipelineOk))
  {
    if AddSpeaker(s, id, speaker, peerOk, pipelineOk) != s {
      if pipelineOk {
        AdmitAgrees(s, id, speaker);
      } else {
        RollBackAgrees(s, id, speaker);
      }
    }
  }

  /**
   * In an agreeing room an addition never overwrites a live peer, and one that fails rolls back fully: no
   * map changes, and the peer it may have created is closed. A peer is created iff the session is no speaker,
   * the room has fewer than 100, and the library succeeds; the addition then fails iff the pipeline does. A
   * session that speaks already keeps its record.
   */
  lemma AddSpeakerRollsBack(s: RoomState, id: string, speaker: Speaker, peerOk: bool, pipelineOk: bool)
    requires Agrees(s)
    ensures var t := AddSpeaker(s, id, speaker, peerOk, pipelineOk);
            && (t.created > s.created ==> id !in s.peers)
            && (id !in t.speakers ==>
                  && t.speakers == s.speakers && t.clients == s.clients && t.peers == s.peers
                  && (t.created > s.created ==> t.closed == s.closed + multiset{s.created}))
            && t.created == s.created + (if id !in s.speakers && |s.speakers| < 100 && peerOk then 1 else 0)
            && (id in s.speakers ==> t == s)
            && (id !in s.speakers ==> (id in t.speakers <==> t.created > s.created && pipelineOk))
            && (id in t.speakers && id !in s.speakers ==> t.speakers[id] == speaker && t.peers[id] == s.created)
  {
    var t := AddSpeaker(s, id, speaker, peerOk, pipelineOk);
    if t.created > s.created && id !in t.speakers {
      assert CreatePeer(s, id).peers - {id} == s.peers;
    }
  }

  lemma ApplyAgrees(s: RoomState, e: Entry, verdict: Verdict)
    requires Agrees(s)
    ensures Agrees(Apply(s, e, verdict))
  {
    match verdict
    case Ignore =>
    case Internal => RemoveSpeakerAgrees(MarkInternal(s, e.SessionID()), e.SessionID());
    case Drop => RemoveSpeakerAgrees(s, e.SessionID());
    case Admit => AddSpeakerAgrees(s, e.SessionID(), e.AsSpeaker(), e.peerOk, e.pipelineOk);
  }

  lemma {:induction false} HandleEntriesAgrees(s: RoomState, now: int, entries: seq<Entry>)
    requires Agrees(s)
    ensures Agrees(HandleEntries(s, now, entries))
  {
    if entries == [] {
    } else {
      var front := entries[..|entries| - 1];
      HandleEntriesAgrees(s, now, front);
      var before, e := HandleEntries(s, now, front), entries[|entries| - 1];
      ApplyAgrees(before, e, Judge(e.user, e.SessionID() in before.internal, now));
    }
  }

  lemma {:induction false} HandleJoinsOnlyMarks(s: RoomState, joins: seq<Join>)
    ensures HandleJoins(s, joins) == s.(internal := s.internal + OwnJoins(joins))
  {
    if joins == [] {
    } else {
      var front := joins[..|joins| - 1];
      HandleJoinsOnlyMarks(s, front);
      assert joins == front + [joins[|joins| - 1]];
    }
  }

  /** The sessions that joined and were our own when handled. */
  function OwnJoins(joins: seq<Join>): set<string> {
    set j | j in joins && j.sessionID == j.ownSession :: j.sessionID
  }

  lemma {:induction false} HandleLeavesAgrees(s: RoomState, leaves: seq<string>)
    requires Agrees(s)
    ensures Agrees(HandleLeaves(s, leaves))
  {
    if leaves == [] {
    } else {
      var front := leaves[..|leaves| - 1];
      HandleLeavesAgrees(s, front);
      RemoveSpeakerAgrees(HandleLeaves(s, front), leaves[|leaves| - 1]);
    }
  }

  lemma RemoveSpeakerOnlyRemoves(s: RoomState, id: string)
    ensures RemoveSpeaker(s, id).speakers == s.speakers - {id}
    ensures RemoveSpeaker(s, id).internal == s.internal
  {
  }

  lemma MinusOneMore<V>(m: map<string, V>, front: seq<string>, last: string)
    ensures m - (set id | id in front) - {last} == m - (set id | id in front + [last])
  {
  }

  lemma {:induction false} HandleLeavesOnlyRemoves(s: RoomState, leaves: seq<string>)
    ensures HandleLeaves(s, leaves).speakers == s.speakers - (set id | id in leaves)
    ensures HandleLeaves(s, leaves).internal == s.internal
  {
    if leaves == [] {
    } else {
      var front, last := leaves[..|leaves| - 1], leaves[|leaves| - 1];
      HandleLeavesOnlyRemoves(s, front);
      RemoveSpeakerOnlyRemoves(HandleLeaves(s, front), last);
      MinusOneMore(s.speakers, front, last);
      assert leaves == front + [last];
    }
  }

  lemma HandleAgrees(s: RoomState, m: Message)
    requires Agrees(s)
    ensures Agrees(Handle(s, m))
  {
    match m
    case ParticipantsEvent(now, update) =>
      if update.Some? {
        HandleEntriesAgrees(s, now, update.value.Entries());
      }
    case RoomEvent(joins, leaves) =>
      HandleJoinsOnlyMarks(s, joins);
      HandleLeavesAgrees(HandleJoins(s, joins), leaves);
    case Bye(sessionID) => RemoveSpeakerAgrees(s, sessionID);
    case Reconnected =>
  }

  /**
   * For every run of the orchestration loop: speakers, Modal clients and peers have the same keys, at most
   * 100 of them, and every peer ever created is either in the map and open, or closed exactly once.
   */
  lemma {:induction false} RunAgrees(messages: seq<Message>)
    ensures Agrees(Run(EMPTY_ROOM, messages))
  {
    if messages == [] {
    } else {
      RunAgrees(messages[..|messages| - 1]);
      HandleAgrees(Run(EMPTY_ROOM, messages[..|messages| - 1]), messages[|messages| - 1]);
    }
  }

  /** Leaving the room with no handler in flight: remove every listed speaker, then close what peers remain. */
  function CloseAllPeers(s: RoomState): RoomState {
    s.(peers := map[], closed := s.closed + multiset(s.peers.Values))
  }

  /** After a run and a leave nothing is left in the room and every peer ever created was closed exactly once. */
  lemma LeavingClosesEveryPeerOnce(messages: seq<Message>, order: seq<string>)
    requires forall id :: id in Run(EMPTY_ROOM, messages).speakers ==> id in order
    ensures var s := CloseAllPeers(HandleLeaves(Run(EMPTY_ROOM, messages), order));
            && s.speakers == map[] && s.clients == map[] && s.peers == map[]
            && forall p: nat :: s.closed[p] == if p < s.created then 1 else 0
  {
    RunAgrees(messages);
    var s := HandleLeaves(Run(EMPTY_ROOM, messages), order);
    HandleLeavesAgrees(Run(EMPTY_ROOM, messages), order);
    HandleLeavesOnlyRemoves(Run(EMPTY_ROOM, messages), order);
    assert s.speakers.Keys == {};
    assert s.peers == map[];
  }

  // ----- Internal sessions -----

  /** The only way into `speakers` is an entry of a session that is not internal. */
  ghost predicate KeepsInternalOut(s: RoomState, t: RoomState) {
    && s.internal <= t.internal
    && (forall id :: id in t.speakers && id !in s.speakers ==> id !in t.internal)
    && (forall id :: id in t.speakers && id in t.internal ==> id in s.internal)
  }

  lemma HandleEntryKeepsInternalOut(s: RoomState, now: int, e: Entry)
    ensures KeepsInternalOut(s, HandleEntry(s, now, e))
  {
  }

  lemma {:induction false} HandleEntriesKeepInternalOut(s: RoomState, now: int, entries: seq<Entry>)
    ensures KeepsInternalOut(s, HandleEntries(s, now, entries))
  {
    if entries == [] {
    } else {
      var before := HandleEntries(s, now, entries[..|entries| - 1]);
      HandleEntriesKeepInternalOut(s, now, entries[..|entries| - 1]);
      HandleEntryKeepsInternalOut(before, now, entries[|entries| - 1]);
    }
  }

  /** Participants events keep speakers and internal sessions apart. */
  lemma ParticipantsKeepDisjoint(s: RoomState, now: int, update: Option<Update>)
    requires s.speakers.Keys !! s.internal
    ensures var t := HandleParticipants(s, now, update);
            t.speakers.Keys !! t.internal
  {
    if update.Some? {
      HandleEntriesKeepInternalOut(s, now, update.value.Entries());
    }
  }

  /** Room events keep them apart iff every session of ours that joins is not a speaker, or leaves in the same event. */
  lemma RoomEventDisjointExactly(s: RoomState, joins: seq<Join>, leaves: seq<string>)
    requires s.speakers.Keys !! s.internal
    ensures var t := Handle(s, RoomEvent(joins, leaves));
            t.speakers.Keys !! t.internal
            <==> forall j :: j in joins && j.sessionID == j.ownSession ==>
                   j.sessionID !in s.speakers || j.sessionID in leaves
  {
    HandleJoinsOnlyMarks(s, joins);
    HandleLeavesOnlyRemoves(HandleJoins(s, joins), leaves);
    var t := Handle(s, RoomEvent(joins, leaves));
    assert t.speakers.Keys == s.speakers.Keys - (set id | id in leaves);
    assert t.internal == s.internal + OwnJoins(joins);
    if j :| j in joins && j.sessionID == j.ownSession && j.sessionID in s.speakers && j.sessionID !in leaves {
      assert j.sessionID in t.speakers.Keys * t.internal;
    }
  }

  /** A session in the call with audio that bears no internal mark. */
  function InCallUser(id: string): User {
    map["sessionId" := JString(id), "inCall" := JNumber(3.0)]
  }

  lemma InCallUserAdmitted(id: string, now: int)
    requires id != ""
    ensures GetString(InCallUser(id), "sessionId") == id
    ensures Judge(InCallUser(id), false, now) == Admit
  {
    assert CallFlags(InCallUser(id)) == 3;
  }

  /** A participants event with that session as its one entry. */
  function InCallEvent(now: int, id: string): Message {
    ParticipantsEvent(now, Some(Update(false, JOther, [Entry(InCallUser(id), true, true)], [])))
  }

  lemma InCallEventAdmits(now: int, id: string)
    requires id != ""
    ensures Run(EMPTY_ROOM, [InCallEvent(now, id)]).speakers.Keys == {id}
    ensures Run(EMPTY_ROOM, [InCallEvent(now, id)]).internal == {}
  {
    var m := InCallEvent(now, id);
    var entries := m.update.value.Entries();
    assert [m][..0] == [] && entries[..0] == [];
    assert Run(EMPTY_ROOM, [m]) == Handle(EMPTY_ROOM, m);
    InCallUserAdmitted(id, now);
    assert HandleEntries(EMPTY_ROOM, now, entries) == HandleEntry(EMPTY_ROOM, now, entries[0]);
    assert Handle(EMPTY_ROOM, m).speakers == map[id := entries[0].AsSpeaker()];
  }

  // ----- Messages, in figures -----

  /** What each message does to the speakers and the internal sessions. */
  lemma RoomEventExactly(s: RoomState, joins: seq<Join>, leaves: seq<string>)
    ensures var t := Handle(s, RoomEvent(joins, leaves));
            && t.speakers == s.speakers - (set id | id in leaves)
            && t.internal == s.internal + (set j | j in joins && j.sessionID == j.ownSession :: j.sessionID)
  {
    HandleJoinsOnlyMarks(s, joins);
    HandleLeavesOnlyRemoves(HandleJoins(s, joins), leaves);
  }

  lemma ByeExactly(s: RoomState, id: string)
    ensures Handle(s, Bye(id)).speakers == s.speakers - {id}
    ensures Handle(s, Bye(id)).internal == s.internal
    ensures Handle(s, Reconnected) == s
  {
    RemoveSpeakerOnlyRemoves(s, id);
  }

  /**
   * Which entries of a participants message count: none without an update or when the call ended for everyone,
   * else the users, or the changed ones when no users are listed.
   */
  lemma ParticipantsExactly(s: RoomState, now: int, u: Update)
    ensures Handle(s, ParticipantsEvent(now, None)) == s
    ensures u.all && u.inCall == JNumber(0.0) ==> Handle(s, ParticipantsEvent(now, Some(u))) == s
    ensures !u.all || u.inCall != JNumber(0.0) ==>
              Handle(s, ParticipantsEvent(now, Some(u)))
              == HandleEntries(s, now, if |u.users| > 0 then u.users else u.changed)
  {
  }

  /** They do overlap in some run: the bot is admitted as a participant before it is seen joining as our own. */
  lemma RoomEventCanOverlap(now: int)
    ensures var admitted := [InCallEvent(now, "bot")];
            var joined := admitted + [RoomEvent([Join("bot", "bot")], [])];
            && Run(EMPTY_ROOM, admitted).speakers.Keys !! Run(EMPTY_ROOM, admitted).internal
            && "bot" in Run(EMPTY_ROOM, joined).speakers && "bot" in Run(EMPTY_ROOM, joined).internal
  {
    InCallEventAdmits(now, "bot");
    var joins := [Join("bot", "bot")];
    var admitted := [InCallEvent(now, "bot")];
    assert (admitted + [RoomEvent(joins, [])])[..1] == admitted;
    assert joins[..0] == [];
    assert HandleJoins(Run(EMPTY_ROOM, admitted), joins) == MarkInternal(Run(EMPTY_ROOM, admitted), "bot");
  }

  /**
   * An update that ends the call for everyone closes nothing, so nobody is left speaking iff nobody was:
   * against what the design asks of a room that ends.
   */
  lemma EndedCallKeepsSpeakers(s: RoomState, now: int, update: Update)
    requires update.all && update.inCall == JNumber(0.0)
    ensures var t := HandleParticipants(s, now, Some(update));
            && (t.speakers == map[] <==> s.speakers == map[])
            && t.peers == s.peers && t.closed == s.closed
  {
  }

  /** A run after which the call has ended and a speaker with an open peer remains. */
  lemma EndedCallCanLeaveSpeaker(now: int, users: seq<Entry>)
    ensures var ended := ParticipantsEvent(now, Some(Update(true, JNumber(0.0), users, [])));
            var s := Run(EMPTY_ROOM, [InCallEvent(now, "alice"), ended]);
            "alice" in s.speakers && "alice" in s.peers
  {
    InCallEventAdmits(now, "alice");
    var ended := ParticipantsEvent(now, Some(Update(true, JNumber(0.0), users, [])));
    var messages := [InCallEvent(now, "alice"), ended];
    assert messages[..1] == [InCallEvent(now, "alice")];
    RunAgrees(messages);
  }

  lemma HandleKeepsInternal(s: RoomState, m: Message)
    ensures s.internal <= Handle(s, m).internal
    ensures forall id :: id in s.internal && id !in s.speakers ==> id !in Handle(s, m).speakers
  {
    match m
    case ParticipantsEvent(now, update) =>
      if update.Some? {
        HandleEntriesKeepInternalOut(s, now, update.value.Entries());
      }
    case RoomEvent(joins, leaves) =>
      HandleJoinsOnlyMarks(s, joins);
      HandleLeavesOnlyRemoves(HandleJoins(s, joins), leaves);
    case _ =>
  }

  /** Once internal, always internal, and never a speaker again, across any messages and reconnects. */
  lemma {:induction false} InternalForever(s: RoomState, messages: seq<Message>, id: string)
    requires id in s.internal
    ensures id in Run(s, messages).internal
    ensures id !in s.speakers ==> id !in Run(s, messages).speakers
  {
    if messages == [] {
    } else {
      InternalForever(s, messages[..|messages| - 1], id);
      HandleKeepsInternal(Run(s, messages[..|messages| - 1]), messages[|messages| - 1]);
    }
  }
}
