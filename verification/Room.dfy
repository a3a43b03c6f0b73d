/**
 * A room and its WebRTC manager as the program keeps them: maps and sets updated in place,
 * loops over the entries of a message. Every method is proved to do what Membership says.
 */
module Room {
  import opened Membership
  import opened Options

  /** The loop step of closing: the peer closed next is a new one. */
  lemma ShutOneMore(peers: map<string, nat>, rest: set<string>, shut: set<nat>, id: string)
    requires forall a, b :: a in peers && b in peers && a != b ==> peers[a] != peers[b]
    requires id in rest && rest <= peers.Keys
    requires shut == set k | k in peers && k !in rest :: peers[k]
    ensures peers[id] !in shut
    ensures shut + {peers[id]} == set k | k in peers && k !in rest - {id} :: peers[k]
  {
  }

  /** After the last turn of that loop every peer was closed. */
  lemma AllShut(peers: map<string, nat>, rest: set<string>, shut: set<nat>, created: nat, closed: multiset<nat>)
    requires Accounted(peers, created, closed) && rest == {}
    requires shut == set k | k in peers && k !in rest :: peers[k]
    ensures shut == peers.Values
    ensures Accounted(map[], created, closed + multiset(shut))
  {
  }

  class WebRTCManager {
    var peers: map<string, nat>
    /** How many peer connections were created; each is known by its number. */
    var created: nat
    /** How often each peer connection was closed. Closing one twice would panic. */
    ghost var closed: multiset<nat>

    constructor ()
      ensures peers == map[] && created == 0 && closed == multiset{}
    {
      peers, created, closed := map[], 0, multiset{};
    }

    method CreatePeer(id: string, ok: bool) returns (peer: Option<nat>)
      modifies this
      ensures !ok ==> peer == None && peers == old(peers) && created == old(created)
      ensures ok ==> peer == Some(old(created)) && peers == old(peers)[id := old(created)] && created == old(created) + 1
      ensures closed == old(closed)
    {
      if !ok {
        return None;
      }
      peer := Some(created);
      peers := peers[id := created];
      created := created + 1;
    }

    method RemovePeer(id: string) returns (found: bool)
      modifies this
      ensures found <==> id in old(peers)
      ensures found ==> peers == old(peers) - {id} && closed == old(closed) + multiset{old(peers)[id]}
      ensures !found ==> peers == old(peers) && closed == old(closed)
      ensures created == old(created)
    {
      if id !in peers {
        return false;
      }
      closed := closed + multiset{peers[id]};
      peers := peers - {id};
      return true;
    }

    /** Closes every peer still in the map, each once, in whatever order the map yields them. */
    method Close()
      requires Accounted(peers, created, closed)
      modifies this
      ensures peers == map[] && created == old(created)
      ensures closed == old(closed) + multiset(old(peers).Values)
      ensures Accounted(peers, created, closed)
    {
      var rest := peers.Keys;
      ghost var shut: set<nat> := {};
      while rest != {}
        invariant peers == old(peers) && created == old(created)
        invariant rest <= peers.Keys
        invariant shut == set id | id in peers && id !in rest :: peers[id]
        invariant closed == old(closed) + multiset(shut)
        decreases rest
      {
        var id :| id in rest;
        ShutOneMore(peers, rest, shut, id);
        closed := closed + multiset{peers[id]};
        shut := shut + {peers[id]};
        rest := rest - {id};
      }
      AllShut(peers, rest, shut, created, old(closed));
      peers := map[];
    }
  }

  class Room {
    const webrtc: WebRTCManager
    var speakers: map<string, Speaker>
    var modalClients: map<string, nat>
    var internalSessions: set<string>

    ghost function State(): RoomState
      reads this, webrtc
    {
      RoomState(speakers, modalClients, internalSessions, webrtc.peers, webrtc.created, webrtc.closed)
    }

    constructor ()
      ensures fresh(webrtc) && State() == EMPTY_ROOM
    {
      webrtc := new WebRTCManager();
      speakers, modalClients, internalSessions := map[], map[], {};
    }

    method AddSpeaker(id: string, speaker: Speaker, peerOk: bool, pipelineOk: bool) returns (added: bool)
      modifies this, webrtc
      ensures State() == Membership.AddSpeaker(old(State()), id, speaker, peerOk, pipelineOk)
      ensures added <==> id in speakers
    {
      if id in speakers {
        return true;
      }
      if |speakers| >= CAPACITY {
        return false;
      }
      var peer := webrtc.CreatePeer(id, peerOk);
      if peer.None? {
        return false;
      }
      if !pipelineOk {
        var _ := webrtc.RemovePeer(id);
        return false;
      }
      speakers := speakers[id := speaker];
      modalClients := modalClients[id := peer.value];
      return true;
    }

    method RemoveSpeaker(id: string) returns (found: bool)
      modifies this, webrtc
      ensures State() == Membership.RemoveSpeaker(old(State()), id)
      ensures found <==> id in old(speakers)
    {
      if id !in speakers {
        return false;
      }
      speakers := speakers - {id};
      modalClients := modalClients - {id};
      var _ := webrtc.RemovePeer(id);
      return true;
    }

    method HandleEntry(now: int, e: Entry)
      modifies this, webrtc
      ensures State() == Membership.HandleEntry(old(State()), now, e)
    {
      var id := GetString(e.user, "sessionId");
      if id == "" {
        return;
      }
      if GetBool(e.user, "internal") {
        internalSessions := internalSessions + {id};
        var _ := RemoveSpeaker(id);
        return;
      }
      if id in internalSessions {
        return;
      }
      if Stale(e.user, now) {
        var _ := RemoveSpeaker(id);
        return;
      }
      var flags := CallFlags(e.user);
      if flags == 0 {
        var _ := RemoveSpeaker(id);
      } else if InCall(flags) && WithAudio(flags) {
        var _ := AddSpeaker(id, e.AsSpeaker(), e.peerOk, e.pipelineOk);
      }
    }

    /** The loop over the entries of one participants event. */
    method HandleAll(now: int, entries: seq<Entry>)
      modifies this, webrtc
      ensures State() == HandleEntries(old(State()), now, entries)
    {
      ghost var before := State();
      for i := 0 to |entries|
        invariant State() == HandleEntries(before, now, entries[..i])
      {
        assert entries[..i + 1][..i] == entries[..i];
        HandleEntry(now, entries[i]);
      }
      assert entries[..|entries|] == entries;
    }

    method HandleParticipantsEvent(now: int, update: Option<Update>)
      modifies this, webrtc
      ensures State() == HandleParticipants(old(State()), now, update)
    {
      if update.None? {
        return;
      }
      if update.value.all {
        if update.value.inCall.JNumber? && update.value.inCall.n == 0.0 {
          return;
        }
      }
      var entries := update.value.users;
      if |entries| == 0 {
        entries := update.value.changed;
      }
      HandleAll(now, entries);
    }

    method HandleRoomEvent(joins: seq<Join>, leaves: seq<string>)
      modifies this, webrtc
      ensures State() == Handle(old(State()), RoomEvent(joins, leaves))
    {
      ghost var before := State();
      for i := 0 to |joins|
        invariant State() == HandleJoins(before, joins[..i])
      {
        assert joins[..i + 1][..i] == joins[..i];
        if joins[i].sessionID == joins[i].ownSession {
          internalSessions := internalSessions + {joins[i].sessionID};
        }
      }
      assert joins[..|joins|] == joins;
      RemoveAll(leaves);
    }

    /** Removes the listed sessions one by one, those that are no speakers being skipped. */
    method RemoveAll(leaves: seq<string>)
      modifies this, webrtc
      ensures State() == HandleLeaves(old(State()), leaves)
    {
      ghost var before := State();
      for i := 0 to |leaves|
        invariant State() == HandleLeaves(before, leaves[..i])
      {
        assert leaves[..i + 1][..i] == leaves[..i];
        var _ := RemoveSpeaker(leaves[i]);
      }
      assert leaves[..|leaves|] == leaves;
    }

    method HandleBye(sessionID: string)
      modifies this, webrtc
      ensures State() == Handle(old(State()), Bye(sessionID))
    {
      var _ := RemoveSpeaker(sessionID);
    }

    /** The room part of leaving, no handler being in flight: all speakers, then whatever peers are left. */
    method TearDown(sessionIDs: seq<string>)
      requires Agrees(State())
      requires forall id :: id in speakers ==> id in sessionIDs
      modifies this, webrtc
      ensures State() == CloseAllPeers(HandleLeaves(old(State()), sessionIDs))
      ensures speakers == map[] && modalClients == map[] && webrtc.peers == map[]
      ensures forall p: nat :: webrtc.closed[p] == if p < webrtc.created then 1 else 0
    {
      HandleLeavesAgrees(State(), sessionIDs);
      HandleLeavesOnlyRemoves(State(), sessionIDs);
      RemoveAll(sessionIDs);
      assert speakers.Keys == {};
      webrtc.Close();
    }
  }
}
