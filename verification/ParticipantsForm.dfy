/**
 * The closed form of a participants event: what becomes of one session is decided by that
 * session's own entries, so order across sessions and repetition of the event do not matter.
 */
module ParticipantsForm {
  import opened Membership

  /** One session's share of the room state. */
  datatype Member = Member(speaking: bool, internal: bool)

  function MemberOf(s: RoomState, id: string): Member {
    Member(id in s.speakers, id in s.internal)
  }

  function Decide(m: Member, verdict: Verdict): Member {
    match verdict
    case Ignore => m
    case Internal => Member(false, true)
    case Drop => m.(speaking := false)
    case Admit => m.(speaking := true)
  }

  /** The fold of a session's own entries over its share of the state. */
  function DecideAll(m: Member, now: int, users: seq<User>): Member {
    if users == [] then m
    else
      var before := DecideAll(m, now, users[..|users| - 1]);
      Decide(before, Judge(users[|users| - 1], before.internal, now))
  }

  /** The entries about one session; the empty id names none. */
  function Own(entries: seq<Entry>, id: string): seq<User> {
    if entries == [] then []
    else
      var e := entries[|entries| - 1];
      Own(entries[..|entries| - 1], id) + (if e.SessionID() == id && id != "" then [e.user] else [])
  }

  /** Whether an entry can still ask for an addition, whatever the entries before it did. */
  predicate MayAdmit(s: RoomState, now: int, e: Entry) {
    Judge(e.user, e.SessionID() in s.internal, now) == Admit
  }

  /** The sessions some entry asks to add. */
  function Candidates(s: RoomState, now: int, entries: seq<Entry>): set<string> {
    set e | e in entries && MayAdmit(s, now, e) :: e.SessionID()
  }

  /**
   * Nothing can refuse an addition: the libraries succeed for every entry that asks for one, and the speakers
   * together with the sessions asked for fit into the room. Entries that ask for none do not count.
   */
  ghost predicate Unrefused(s: RoomState, now: int, entries: seq<Entry>) {
    && (forall e :: e in entries && MayAdmit(s, now, e) ==> e.peerOk && e.pipelineOk)
    && |s.speakers.Keys + Candidates(s, now, entries)| <= 100
  }

  /** An addition asked for now fails. */
  predicate Refuses(s: RoomState, e: Entry) {
    e.SessionID() !in s.speakers && (|s.speakers| >= 100 || !e.peerOk || !e.pipelineOk)
  }

  /** Of the session's own entries the last one that is not ignored asks for an addition, and it is refused. */
  predicate LeftOut(s: RoomState, now: int, entries: seq<Entry>, id: string) {
    entries != []
    && var front, e := entries[..|entries| - 1], entries[|entries| - 1];
       var before := HandleEntries(s, now, front);
       if e.SessionID() != id || id == "" then LeftOut(s, now, front, id)
       else
         match Judge(e.user, id in before.internal, now)
         case Ignore => LeftOut(s, now, front, id)
         case Internal => false
         case Drop => false
         case Admit => Refuses(before, e)
  }

  // ----- Projection -----

  lemma OwnSnoc(front: seq<Entry>, e: Entry, id: string)
    ensures Own(front + [e], id) == Own(front, id) + (if e.SessionID() == id && id != "" then [e.user] else [])
  {
    assert (front + [e])[..|front|] == front;
  }

  lemma DecideAllSnoc(m: Member, now: int, front: seq<User>, user: User)
    ensures var before := DecideAll(m, now, front);
            DecideAll(m, now, front + [user]) == Decide(before, Judge(user, before.internal, now))
  {
    assert (front + [user])[..|front|] == front;
  }

  /** The actual share lags behind the ideal one only by additions that were refused. */
  ghost predicate Lags(actual: Member, ideal: Member) {
    actual.internal == ideal.internal && (actual.speaking ==> ideal.speaking)
  }

  lemma ApplyProjects(s: RoomState, e: Entry, verdict: Verdict, id: string)
    ensures var t := Apply(s, e, verdict);
            && (e.SessionID() != id ==> MemberOf(t, id) == MemberOf(s, id))
            && (e.SessionID() == id ==>
                  MemberOf(t, id)
                  == if verdict == Admit && Refuses(s, e) then MemberOf(s, id) else Decide(MemberOf(s, id), verdict))
  {
  }

  lemma EntryProjects(s: RoomState, now: int, e: Entry, id: string)
    ensures var own := MemberOf(s, id);
            var verdict := Judge(e.user, own.internal, now);
            MemberOf(HandleEntry(s, now, e), id)
            == if e.SessionID() != id || id == "" || (verdict == Admit && Refuses(s, e)) then own
               else Decide(own, verdict)
  {
    var verdict := Judge(e.user, e.SessionID() in s.internal, now);
    ApplyProjects(s, e, verdict, id);
    if e.SessionID() == "" {
      assert verdict == Ignore;
    }
  }

  lemma OtherSessionUntouched(s: RoomState, now: int, e: Entry, id: string)
    requires e.SessionID() != id
    ensures MemberOf(HandleEntry(s, now, e), id) == MemberOf(s, id)
    ensures SameRecords(s, HandleEntry(s, now, e), id)
  {
    var verdict := Judge(e.user, e.SessionID() in s.internal, now);
    ApplyProjects(s, e, verdict, id);
    match verdict
    case Ignore =>
    case Internal => RemovalLeavesOthers(MarkInternal(s, e.SessionID()), e.SessionID(), id);
    case Drop => RemovalLeavesOthers(s, e.SessionID(), id);
    case Admit => AdditionLeavesOthers(s, e, id);
  }

  /** Name, client and peer of a session are the same in both states. */
  ghost predicate SameRecords(s: RoomState, t: RoomState, id: string) {
    && (id in t.speakers <==> id in s.speakers) && (id in s.speakers ==> t.speakers[id] == s.speakers[id])
    && (id in t.clients <==> id in s.clients) && (id in s.clients ==> t.clients[id] == s.clients[id])
    && (id in t.peers <==> id in s.peers) && (id in s.peers ==> t.peers[id] == s.peers[id])
  }

  lemma RemovalLeavesOthers(s: RoomState, gone: string, id: string)
    requires gone != id
    ensures SameRecords(s, RemoveSpeaker(s, gone), id)
  {
  }

  lemma AdditionLeavesOthers(s: RoomState, e: Entry, id: string)
    requires e.SessionID() != id
    ensures SameRecords(s, AddSpeaker(s, e.SessionID(), e.AsSpeaker(), e.peerOk, e.pipelineOk), id)
  {
  }

  // ----- The closed form -----

  /**
   * The closed form, for every event and without any assumption: a session's internal mark is the fold of its
   * own entries; so is its membership, iff it is not left out; and when left out it merely fails to speak.
   */
  lemma {:induction false} ClosedFormExactly(s: RoomState, now: int, entries: seq<Entry>, id: string)
    ensures var actual := MemberOf(HandleEntries(s, now, entries), id);
            var ideal := DecideAll(MemberOf(s, id), now, Own(entries, id));
            && Lags(actual, ideal)
            && (actual == ideal <==> !LeftOut(s, now, entries, id))
  {
    if entries == [] {
    } else {
      var front, e := entries[..|entries| - 1], entries[|entries| - 1];
      assert entries == front + [e];
      ClosedFormExactly(s, now, front, id);
      EntryProjects(HandleEntries(s, now, front), now, e, id);
      OwnSnoc(front, e, id);
      DecideAllSnoc(MemberOf(s, id), now, Own(front, id), e.user);
      assert Own(front, id) + [] == Own(front, id);
    }
  }

  /** They do differ in some run: a session whose peer cannot be created does not speak, though its entry admits it. */
  lemma RefusedAdditionLeftOut(now: int)
    ensures var entries := [Entry(InCallUser("alice"), false, true)];
            && LeftOut(EMPTY_ROOM, now, entries, "alice")
            && !MemberOf(HandleEntries(EMPTY_ROOM, now, entries), "alice").speaking
            && DecideAll(MemberOf(EMPTY_ROOM, "alice"), now, Own(entries, "alice")).speaking
  {
    var e := Entry(InCallUser("alice"), false, true);
    InCallUserAdmitted("alice", now);
    assert [e][..0] == [] && [e.user][..0] == [];
    assert Own([e], "alice") == [e.user];
    assert HandleEntries(EMPTY_ROOM, now, [e]) == HandleEntry(EMPTY_ROOM, now, e) == EMPTY_ROOM;
  }

  lemma SubsetSize<T>(a: set<T>, b: set<T>)
    requires a <= b
    ensures |a| <= |b|
  {
    assert b == a + (b - a);
  }

  lemma HandleEntriesKeepsMarks(s: RoomState, now: int, entries: seq<Entry>)
    ensures s.internal <= HandleEntries(s, now, entries).internal
  {
    HandleEntriesKeepInternalOut(s, now, entries);
  }

  /** Only sessions asked for become speakers. */
  lemma {:induction false} SpeakersAmong(s: RoomState, now: int, entries: seq<Entry>)
    ensures HandleEntries(s, now, entries).speakers.Keys <= s.speakers.Keys + Candidates(s, now, entries)
  {
    if entries == [] {
    } else {
      var front, e := entries[..|entries| - 1], entries[|entries| - 1];
      var before := HandleEntries(s, now, front);
      SpeakersAmong(s, now, front);
      HandleEntriesKeepsMarks(s, now, front);
      forall id | id in HandleEntry(before, now, e).speakers && id !in before.speakers
        ensures id == e.SessionID() && MayAdmit(s, now, e)
      {
        EntryProjects(before, now, e, id);
        assert MemberOf(HandleEntry(before, now, e), id).speaking && !MemberOf(before, id).speaking;
      }
      assert e in entries && forall f :: f in front ==> f in entries;
    }
  }

  lemma UnrefusedFront(s: RoomState, now: int, front: seq<Entry>, e: Entry)
    requires Unrefused(s, now, front + [e])
    ensures Unrefused(s, now, front)
  {
    assert forall f :: f in front ==> f in front + [e];
    SubsetSize(s.speakers.Keys + Candidates(s, now, front), s.speakers.Keys + Candidates(s, now, front + [e]));
  }

  lemma CandidatesSnoc(s: RoomState, now: int, front: seq<Entry>, e: Entry)
    requires MayAdmit(s, now, e)
    ensures Candidates(s, now, front + [e]) == Candidates(s, now, front) + {e.SessionID()}
  {
    var all := front + [e];
    assert e in all && forall f :: f in front ==> f in all;
  }

  lemma RoomLeft(a: set<string>, b: set<string>, id: string)
    requires a <= b && id in b && id !in a
    ensures |a| < |b|
  {
    SubsetSize(a + {id}, b);
  }

  lemma RoomForOneMore(s: RoomState, now: int, front: seq<Entry>, e: Entry)
    requires Unrefused(s, now, front + [e]) && MayAdmit(s, now, e)
    ensures !Refuses(HandleEntries(s, now, front), e)
  {
    var all, before := front + [e], HandleEntries(s, now, front);
    SpeakersAmong(s, now, front);
    CandidatesSnoc(s, now, front, e);
    assert e in all;
    if e.SessionID() !in before.speakers {
      RoomLeft(before.speakers.Keys, s.speakers.Keys + Candidates(s, now, all), e.SessionID());
    }
  }

  lemma {:induction false} NobodyLeftOut(s: RoomState, now: int, entries: seq<Entry>, id: string)
    requires Unrefused(s, now, entries)
    ensures !LeftOut(s, now, entries, id)
  {
    if entries == [] {
    } else {
      var front, e := entries[..|entries| - 1], entries[|entries| - 1];
      assert entries == front + [e];
      UnrefusedFront(s, now, front, e);
      NobodyLeftOut(s, now, front, id);
      HandleEntriesKeepsMarks(s, now, front);
      if MayAdmit(s, now, e) {
        RoomForOneMore(s, now, front, e);
      }
    }
  }

  /** When no addition can be refused, each session's membership is exactly the fold of its own entries. */
  lemma ClosedForm(s: RoomState, now: int, entries: seq<Entry>, id: string)
    requires Unrefused(s, now, entries)
    ensures MemberOf(HandleEntries(s, now, entries), id) == DecideAll(MemberOf(s, id), now, Own(entries, id))
  {
    ClosedFormExactly(s, now, entries, id);
    NobodyLeftOut(s, now, entries, id);
  }

  // ----- Order and repetition -----

  lemma SameMembers(a: RoomState, b: RoomState)
    requires forall id :: MemberOf(a, id) == MemberOf(b, id)
    ensures a.speakers.Keys == b.speakers.Keys && a.internal == b.internal
  {
    forall id ensures id in a.speakers <==> id in b.speakers {
      assert MemberOf(a, id) == MemberOf(b, id);
    }
    forall id ensures id in a.internal <==> id in b.internal {
      assert MemberOf(a, id) == MemberOf(b, id);
    }
  }

  /** Two events that tell each session the same, however they interleave the sessions, have the same outcome. */
  lemma OrderAcrossSessionsIrrelevant(s: RoomState, now: int, a: seq<Entry>, b: seq<Entry>)
    requires Unrefused(s, now, a) && Unrefused(s, now, b)
    requires forall id :: Own(a, id) == Own(b, id)
    ensures HandleEntries(s, now, a).speakers.Keys == HandleEntries(s, now, b).speakers.Keys
    ensures HandleEntries(s, now, a).internal == HandleEntries(s, now, b).internal
  {
    forall id ensures MemberOf(HandleEntries(s, now, a), id) == MemberOf(HandleEntries(s, now, b), id) {
      ClosedForm(s, now, a, id);
      ClosedForm(s, now, b, id);
    }
    SameMembers(HandleEntries(s, now, a), HandleEntries(s, now, b));
  }

  /** Internal marks need no such condition: every event that tells each session the same leaves the same marks. */
  lemma MarksIgnoreOrder(s: RoomState, now: int, a: seq<Entry>, b: seq<Entry>)
    requires forall id :: Own(a, id) == Own(b, id)
    ensures HandleEntries(s, now, a).internal == HandleEntries(s, now, b).internal
  {
    forall id ensures id in HandleEntries(s, now, a).internal <==> id in HandleEntries(s, now, b).internal {
      ClosedFormExactly(s, now, a, id);
      ClosedFormExactly(s, now, b, id);
    }
  }

  /** The sessions an event marks as internal. */
  function Marked(entries: seq<Entry>): set<string> {
    set e | e in entries && e.SessionID() != "" && GetBool(e.user, "internal") :: e.SessionID()
  }

  lemma ApplyMarks(s: RoomState, e: Entry, verdict: Verdict)
    ensures Apply(s, e, verdict).internal == s.internal + (if verdict.Internal? then {e.SessionID()} else {})
  {
    match verdict
    case Internal => RemoveSpeakerOnlyRemoves(MarkInternal(s, e.SessionID()), e.SessionID());
    case Drop => RemoveSpeakerOnlyRemoves(s, e.SessionID());
    case _ =>
  }

  lemma EntryMarks(s: RoomState, now: int, e: Entry)
    ensures HandleEntry(s, now, e).internal
         == s.internal + (if e.SessionID() != "" && GetBool(e.user, "internal") then {e.SessionID()} else {})
  {
    ApplyMarks(s, e, Judge(e.user, e.SessionID() in s.internal, now));
  }

  /** For every event, whatever is refused: the internal sessions are the old ones and those some entry marks. */
  lemma {:induction false} MarksExactly(s: RoomState, now: int, entries: seq<Entry>)
    ensures HandleEntries(s, now, entries).internal == s.internal + Marked(entries)
  {
    if entries == [] {
    } else {
      var front, e := entries[..|entries| - 1], entries[|entries| - 1];
      MarksExactly(s, now, front);
      assert entries == front + [e];
      MarkedSnoc(front, e);
      EntryMarks(HandleEntries(s, now, front), now, e);
    }
  }

  lemma MarkedSnoc(front: seq<Entry>, e: Entry)
    ensures Marked(front + [e])
         == Marked(front) + (if e.SessionID() != "" && GetBool(e.user, "internal") then {e.SessionID()} else {})
  {
    assert e in front + [e] && forall f :: f in front ==> f in front + [e];
  }

  ghost predicate DistinctSessions(entries: seq<Entry>) {
    forall i, j :: 0 <= i < j < |entries| ==> entries[i].SessionID() != entries[j].SessionID()
  }

  lemma {:induction false} OwnOfAbsent(entries: seq<Entry>, id: string)
    requires forall e :: e in entries ==> e.SessionID() != id || id == ""
    ensures Own(entries, id) == []
  {
    if entries == [] {
    } else {
      var front, last := entries[..|entries| - 1], entries[|entries| - 1];
      assert last in entries && forall e :: e in front ==> e in entries;
      OwnOfAbsent(front, id);
    }
  }

  lemma {:induction false} OwnOfDistinct(entries: seq<Entry>, e: Entry)
    requires DistinctSessions(entries) && e in entries && e.SessionID() != ""
    ensures Own(entries, e.SessionID()) == [e.user]
  {
    var front, last := entries[..|entries| - 1], entries[|entries| - 1];
    assert entries == front + [last];
    OwnSnoc(front, last, e.SessionID());
    var i :| 0 <= i < |entries| && entries[i] == e;
    if i == |front| {
      forall f | f in front ensures f.SessionID() != e.SessionID() {
        var j :| 0 <= j < |front| && front[j] == f;
        assert entries[j] == f;
      }
      OwnOfAbsent(front, e.SessionID());
    } else {
      assert front[i] == e && entries[i].SessionID() != entries[|front|].SessionID();
      OwnOfDistinct(front, e);
    }
  }

  /** In particular, entries of distinct sessions may come in any order. */
  lemma PermutedEventSameOutcome(s: RoomState, now: int, a: seq<Entry>, b: seq<Entry>)
    requires Unrefused(s, now, a) && DistinctSessions(a) && DistinctSessions(b)
    requires multiset(a) == multiset(b)
    ensures HandleEntries(s, now, a).speakers.Keys == HandleEntries(s, now, b).speakers.Keys
    ensures HandleEntries(s, now, a).internal == HandleEntries(s, now, b).internal
  {
    SameElements(a, b);
    assert Candidates(s, now, a) == Candidates(s, now, b);
    forall id ensures Own(a, id) == Own(b, id) {
      if e :| e in a && e.SessionID() == id && id != "" {
        OwnOfDistinct(a, e);
        OwnOfDistinct(b, e);
      } else {
        OwnOfAbsent(a, id);
        OwnOfAbsent(b, id);
      }
    }
    OrderAcrossSessionsIrrelevant(s, now, a, b);
  }

  lemma SameElements<T>(a: seq<T>, b: seq<T>)
    requires multiset(a) == multiset(b)
    ensures forall x :: x in a <==> x in b
  {
    forall x ensures x in a <==> x in b {
      assert x in a <==> x in multiset(a);
      assert x in b <==> x in multiset(b);
    }
  }

  /** Entries treat two shares alike or leave both alone, unless an internal mark is involved. */
  lemma {:induction false} DecideAllUniform(now: int, users: seq<User>, m: Member, n: Member)
    requires !m.internal && !n.internal
    requires forall u :: u in users ==> GetString(u, "sessionId") == "" || !GetBool(u, "internal")
    ensures var a, b := DecideAll(m, now, users), DecideAll(n, now, users);
            !a.internal && !b.internal && (a == b || (a == m && b == n))
  {
    if users == [] {
    } else {
      var front, last := users[..|users| - 1], users[|users| - 1];
      assert last in users && forall u :: u in front ==> u in users;
      DecideAllUniform(now, front, m, n);
    }
  }

  lemma {:induction false} InternalMarkDecides(now: int, users: seq<User>, m: Member, u: User)
    requires u in users && GetString(u, "sessionId") != "" && GetBool(u, "internal")
    ensures DecideAll(m, now, users) == Member(false, true)
  {
    var front, last := users[..|users| - 1], users[|users| - 1];
    assert users == front + [last];
    if u in front {
      InternalMarkDecides(now, front, m, u);
    } else {
      assert u == last;
    }
  }

  lemma {:induction false} NoMarkKeepsInternal(now: int, users: seq<User>, m: Member)
    requires m.internal
    requires forall u :: u in users ==> GetString(u, "sessionId") == "" || !GetBool(u, "internal")
    ensures DecideAll(m, now, users) == m
  {
    if users == [] {
    } else {
      var front, last := users[..|users| - 1], users[|users| - 1];
      assert last in users && forall u :: u in front ==> u in users;
      NoMarkKeepsInternal(now, front, m);
    }
  }

  lemma DecideAllIdempotent(now: int, users: seq<User>, m: Member)
    ensures DecideAll(DecideAll(m, now, users), now, users) == DecideAll(m, now, users)
  {
    var once := DecideAll(m, now, users);
    if u :| u in users && GetString(u, "sessionId") != "" && GetBool(u, "internal") {
      InternalMarkDecides(now, users, m, u);
      InternalMarkDecides(now, users, once, u);
    } else if m.internal {
      NoMarkKeepsInternal(now, users, m);
    } else {
      DecideAllUniform(now, users, m, m);
      DecideAllUniform(now, users, m, once);
    }
  }

  lemma UnrefusedAgain(s: RoomState, now: int, entries: seq<Entry>)
    requires Unrefused(s, now, entries)
    ensures Unrefused(HandleEntries(s, now, entries), now, entries)
  {
    var once := HandleEntries(s, now, entries);
    SpeakersAmong(s, now, entries);
    HandleEntriesKeepsMarks(s, now, entries);
    forall e | e in entries && MayAdmit(once, now, e) ensures MayAdmit(s, now, e) {
    }
    SubsetSize(once.speakers.Keys + Candidates(once, now, entries), s.speakers.Keys + Candidates(s, now, entries));
  }

  /** Handling the same event again at the same time changes neither the speakers nor the internal sessions. */
  lemma RepeatedEventChangesNothing(s: RoomState, now: int, entries: seq<Entry>)
    requires Unrefused(s, now, entries)
    ensures var once := HandleEntries(s, now, entries);
            var twice := HandleEntries(once, now, entries);
            twice.speakers.Keys == once.speakers.Keys && twice.internal == once.internal
  {
    var once := HandleEntries(s, now, entries);
    var twice := HandleEntries(once, now, entries);
    UnrefusedAgain(s, now, entries);
    forall id ensures MemberOf(twice, id) == MemberOf(once, id) {
      ClosedForm(s, now, entries, id);
      ClosedForm(once, now, entries, id);
      DecideAllIdempotent(now, Own(entries, id), MemberOf(s, id));
    }
    SameMembers(twice, once);
  }

  /** Internal marks again need no condition. */
  lemma RepeatedEventKeepsMarks(s: RoomState, now: int, entries: seq<Entry>)
    ensures var once := HandleEntries(s, now, entries);
            HandleEntries(once, now, entries).internal == once.internal
  {
    MarksExactly(s, now, entries);
    MarksExactly(HandleEntries(s, now, entries), now, entries);
  }

  lemma SettledEntry(s: RoomState, now: int, e: Entry, m: Member)
    requires e.SessionID() != "" ==> MemberOf(s, e.SessionID()) == Decide(m, Judge(e.user, m.internal, now))
    ensures HandleEntry(s, now, e) == s
  {
  }

  lemma {:induction false} SettledEntries(s: RoomState, once: RoomState, now: int, entries: seq<Entry>)
    requires forall e :: e in entries && e.SessionID() != "" ==>
               var m := MemberOf(s, e.SessionID());
               MemberOf(once, e.SessionID()) == Decide(m, Judge(e.user, m.internal, now))
    ensures HandleEntries(once, now, entries) == once
  {
    if entries == [] {
    } else {
      var front, last := entries[..|entries| - 1], entries[|entries| - 1];
      assert last in entries && forall e :: e in front ==> e in entries;
      SettledEntries(s, once, now, front);
      SettledEntry(once, now, last, MemberOf(s, last.SessionID()));
    }
  }

  /** When no session is listed twice, handling the event again touches nothing: no peer opens or closes either. */
  lemma RepeatedEventTouchesNothing(s: RoomState, now: int, entries: seq<Entry>)
    requires Unrefused(s, now, entries) && DistinctSessions(entries)
    ensures HandleEntries(HandleEntries(s, now, entries), now, entries) == HandleEntries(s, now, entries)
  {
    var once := HandleEntries(s, now, entries);
    forall e | e in entries && e.SessionID() != ""
      ensures var m := MemberOf(s, e.SessionID());
              MemberOf(once, e.SessionID()) == Decide(m, Judge(e.user, m.internal, now))
    {
      ClosedForm(s, now, entries, e.SessionID());
      OwnOfDistinct(entries, e);
      assert [e.user][..0] == [];
    }
    SettledEntries(s, once, now, entries);
  }

  // ----- Beyond capacity order matters -----

  function Name(k: nat): (name: string)
    ensures |name| == k
  {
    seq(k, _ => 'x')
  }

  /** The k-th guest is in the call with audio, and the libraries succeed for it. */
  function Guest(k: nat): Entry {
    Entry(InCallUser(Name(k)), true, true)
  }

  function Guests(n: nat): (guests: seq<Entry>)
    ensures |guests| == n
    ensures forall i :: 0 <= i < n ==> guests[i] == Guest(i + 1)
  {
    seq(n, i requires 0 <= i < n => Guest(i + 1))
  }

  lemma GuestHandled(s: RoomState, now: int, k: nat)
    requires k > 0 && s.internal == {} && Name(k) !in s.speakers
    ensures Guest(k).SessionID() == Name(k)
    ensures var t := HandleEntry(s, now, Guest(k));
            && t.internal == {}
            && t.speakers.Keys == s.speakers.Keys + (if |s.speakers| < 100 then {Name(k)} else {})
            && |t.speakers| == |s.speakers| + (if |s.speakers| < 100 then 1 else 0)
  {
    InCallUserAdmitted(Name(k), now);
    assert HandleEntry(s, now, Guest(k)) == AddSpeaker(s, Name(k), Guest(k).AsSpeaker(), true, true);
    if |s.speakers| < 100 {
      AddSpeakerAdds(s, Name(k), Guest(k).AsSpeaker());
      OneMoreKey(s.speakers, Name(k), Guest(k).AsSpeaker());
    }
  }

  /** As long as they fit, all guests are admitted. */
  lemma {:induction false} GuestsAdmitted(now: int, n: nat)
    requires n <= 100
    ensures var s := HandleEntries(EMPTY_ROOM, now, Guests(n));
            && s.internal == {} && |s.speakers| == n
            && forall id :: id in s.speakers ==> |id| <= n
  {
    if n == 0 {
    } else {
      assert Guests(n)[..n - 1] == Guests(n - 1);
      GuestsAdmitted(now, n - 1);
      var before := HandleEntries(EMPTY_ROOM, now, Guests(n - 1));
      GuestHandled(before, now, n);
    }
  }

  lemma HandleEntriesSnoc(s: RoomState, now: int, front: seq<Entry>, e: Entry)
    ensures HandleEntries(s, now, front + [e]) == HandleEntry(HandleEntries(s, now, front), now, e)
  {
    assert (front + [e])[..|front|] == front;
  }

  lemma TwoMore(s: RoomState, now: int, front: seq<Entry>, a: Entry, b: Entry)
    ensures HandleEntries(s, now, front + [a, b]) == HandleEntry(HandleEntry(HandleEntries(s, now, front), now, a), now, b)
  {
    HandleEntriesSnoc(s, now, front, a);
    HandleEntriesSnoc(s, now, front + [a], b);
    assert front + [a] + [b] == front + [a, b];
  }

  /** With one place left, the first of two guests gets it. */
  lemma FirstComeFirstServed(now: int, j: nat, k: nat)
    requires j != k && j >= 100 && k >= 100
    ensures var s := HandleEntries(EMPTY_ROOM, now, Guests(99) + [Guest(j), Guest(k)]);
            Name(j) in s.speakers && Name(k) !in s.speakers
  {
    GuestsAdmitted(now, 99);
    TwoMore(EMPTY_ROOM, now, Guests(99), Guest(j), Guest(k));
    var before := HandleEntries(EMPTY_ROOM, now, Guests(99));
    GuestHandled(before, now, j);
    var after := HandleEntry(before, now, Guest(j));
    GuestHandled(after, now, k);
  }

  lemma GuestsDistinct(n: nat, j: nat, k: nat)
    requires j != k && j > n && k > n
    ensures DistinctSessions(Guests(n) + [Guest(j), Guest(k)])
  {
    var all := Guests(n) + [Guest(j), Guest(k)];
    forall i | 0 <= i < |all|
      ensures |all[i].SessionID()| == if i < n then i + 1 else if i == n then j else k
    {
      InCallUserAdmitted(Name(if i < n then i + 1 else if i == n then j else k), 0);
    }
  }

  /** Two events that list the same 101 distinct sessions in a different order, and whose speakers differ. */
  lemma OrderMattersBeyondCapacity(now: int)
    ensures var front := Guests(99);
            var a, b := front + [Guest(100), Guest(101)], front + [Guest(101), Guest(100)];
            && DistinctSessions(a) && DistinctSessions(b) && multiset(a) == multiset(b)
            && HandleEntries(EMPTY_ROOM, now, a).speakers.Keys != HandleEntries(EMPTY_ROOM, now, b).speakers.Keys
  {
    var front := Guests(99);
    var a, b := front + [Guest(100), Guest(101)], front + [Guest(101), Guest(100)];
    GuestsDistinct(99, 100, 101);
    GuestsDistinct(99, 101, 100);
    FirstComeFirstServed(now, 100, 101);
    FirstComeFirstServed(now, 101, 100);
    assert Name(100) in HandleEntries(EMPTY_ROOM, now, a).speakers.Keys;
    assert Name(100) !in HandleEntries(EMPTY_ROOM, now, b).speakers.Keys;
  }
}
