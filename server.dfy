/**
 * The socket event handlers of the signaling server: a class whose fields are
 * the server's `userMap` and `rooms`, the transport's room membership, and the
 * events emitted so far, each emission with the sockets it reaches.
 */
module Signaling {
  import opened Basics
  import opened OrderedMaps
  import opened Transport
  import opened Registry

  /** An outbound event, one constructor per event name the server emits. */
  datatype Event =
    | NewSocket(id: SocketId, username: Option<string>)
    | Participants(entries: seq<(SocketId, string)>)
    | ReciveOffer(from: SocketId, offer: Payload)
    | ReciveAnswer(from: SocketId, answer: Payload)
    | ReciveIcecandidate(from: SocketId, candidate: Payload)
    | StartScreenShare(id: SocketId)
    | StopScreenShare(id: SocketId)
    | ViewersCount(count: nat)
    | BrodcastMessage(message: Payload, from: SocketId)
    | ReceivePersonalMessage(message: Payload, from: SocketId, username: Option<string>)
    | ParticipantLeft(id: SocketId)

  /** The event name on the wire, spelled as the server spells it. */
  function EventName(e: Event): (name: string)
    ensures name != ""
  {
    match e
    case NewSocket(_, _) => "new-socket"
    case Participants(_) => "participants"
    case ReciveOffer(_, _) => "recive-offer"
    case ReciveAnswer(_, _) => "recive-answer"
    case ReciveIcecandidate(_, _) => "recive-icecandidate"
    case StartScreenShare(_) => "start-screen-share"
    case StopScreenShare(_) => "stop-screen-share"
    case ViewersCount(_) => "viewers-count"
    case BrodcastMessage(_, _) => "brodcast-message"
    case ReceivePersonalMessage(_, _, _) => "receive-personal-message"
    case ParticipantLeft(_) => "participant-left"
  }

  /** Two events go out under the same name exactly when they are the same kind of event. */
  lemma EventNamesDistinct(a: Event, b: Event)
    ensures EventName(a) == EventName(b) <==>
      && (a.NewSocket? <==> b.NewSocket?)
      && (a.Participants? <==> b.Participants?)
      && (a.ReciveOffer? <==> b.ReciveOffer?)
      && (a.ReciveAnswer? <==> b.ReciveAnswer?)
      && (a.ReciveIcecandidate? <==> b.ReciveIcecandidate?)
      && (a.StartScreenShare? <==> b.StartScreenShare?)
      && (a.StopScreenShare? <==> b.StopScreenShare?)
      && (a.ViewersCount? <==> b.ViewersCount?)
      && (a.BrodcastMessage? <==> b.BrodcastMessage?)
      && (a.ReceivePersonalMessage? <==> b.ReceivePersonalMessage?)
      && (a.ParticipantLeft? <==> b.ParticipantLeft?)
  {
  }

  /** One emit: the event and the sockets it reaches, resolved when it is emitted. */
  datatype Emission = Emission(recipients: set<SocketId>, event: Event)

  /** What `disconnect` of `sid` emits, given the membership after the transport let `sid` go. */
  function DisconnectEmissions(rooms: Rooms, t: Membership, sid: SocketId): (r: seq<Emission>)
    ensures |r| <= 1
    ensures r == [] <==> forall j :: 0 <= j < |rooms| ==> !HasKey(rooms[j].1, sid)
    ensures forall e :: e in r ==> e.event == ParticipantLeft(sid)
  {
    match FirstRoomWith(rooms, sid)
    case None => []
    case Some(i) => [Emission(Members(t, rooms[i].0), ParticipantLeft(sid))]
  }

  /**
   * `participant-left` reaches the remaining members of the call the scan
   * found (the first that lists the socket) and never the socket that left.
   */
  lemma ParticipantLeftRecipients(rooms: Rooms, t: Membership, sid: SocketId)
    ensures forall e :: e in DisconnectEmissions(rooms, LeaveAll(t, sid), sid) ==>
      FirstRoomWith(rooms, sid).Some? &&
      e.recipients == Members(t, rooms[FirstRoomWith(rooms, sid).value].0) - {sid}
  {
    match FirstRoomWith(rooms, sid)
    case None =>
    case Some(i) =>
  }

  /** Every participant the server lists for a call is in the transport room of that call. */
  ghost predicate InSync(rooms: Rooms, t: Membership) {
    forall e, s :: e in rooms && HasKey(e.1, s) ==> s in Members(t, e.0)
  }

  /** `sid` is listed in at most one call. */
  predicate InOneCallAtMost(rooms: Rooms, sid: SocketId) {
    forall i, j :: 0 <= i < j < |rooms| ==> !(HasKey(rooms[i].1, sid) && HasKey(rooms[j].1, sid))
  }

  /** `join-call` keeps the listed participants in their transport rooms. */
  lemma JoinCallKeepsInSync(rooms: Rooms, t: Membership, c: CallId, sid: SocketId, name: string)
    requires InSync(rooms, t)
    ensures InSync(JoinCallRooms(rooms, c, sid, name), Join(t, c, sid))
  {
    var r, t' := JoinCallRooms(rooms, c, sid, name), Join(t, c, sid);
    var before := RoomOf(rooms, c);
    forall e, s | e in r && HasKey(e.1, s) ensures s in Members(t', e.0) {
      if e.0 == c {
        if s != sid {
          if e != (c, Put(before, sid, name)) {
            assert e in rooms;
          } else {
            var k :| 0 <= k < |e.1| && e.1[k].0 == s;
            assert e.1[k] in Put(before, sid, name);
            assert e.1[k] in before;
            assert Get(rooms, c) == Some(before);
            assert (c, before) in rooms;
          }
        }
      } else {
        assert e in rooms;
      }
    }
  }

  /** After disconnect each stored call is either the shrunk first call or an untouched call that never listed `sid`. */
  lemma DisconnectEntries(rooms: Rooms, sid: SocketId, i: nat)
    requires RoomsValid(rooms) && InOneCallAtMost(rooms, sid)
    requires FirstRoomWith(rooms, sid) == Some(i)
    ensures forall e :: e in DisconnectRooms(rooms, sid) ==>
      e == (rooms[i].0, Remove(rooms[i].1, sid)) || (e in rooms && !HasKey(e.1, sid))
  {
    var r := DisconnectRooms(rooms, sid);
    var (c, p) := rooms[i];
    var left := Remove(p, sid);
    assert rooms[i] in rooms;
    assert (c, p) !in r by {
      if |left| != 0 {
        GetByEntry(r, c);
      }
    }
    forall e | e in r && e != (c, left) ensures e in rooms && !HasKey(e.1, sid) {
      var j :| 0 <= j < |rooms| && rooms[j] == e;
      assert j != i;
    }
  }

  /**
   * Disconnect keeps the listed participants in their transport rooms, provided
   * the socket was listed in one call at most: the scan stops at the first call.
   */
  lemma DisconnectKeepsInSync(rooms: Rooms, t: Membership, sid: SocketId)
    requires RoomsValid(rooms) && InSync(rooms, t) && InOneCallAtMost(rooms, sid)
    ensures InSync(DisconnectRooms(rooms, sid), LeaveAll(t, sid))
  {
    var r, t' := DisconnectRooms(rooms, sid), LeaveAll(t, sid);
    match FirstRoomWith(rooms, sid)
    case None =>
      forall e, s | e in r && HasKey(e.1, s) ensures s in Members(t', e.0) {
        var j :| 0 <= j < |rooms| && rooms[j] == e;
      }
    case Some(i) =>
      var (c, p) := rooms[i];
      var left := Remove(p, sid);
      assert rooms[i] in rooms;
      DisconnectEntries(rooms, sid, i);
      forall e, s | e in r && HasKey(e.1, s) ensures s in Members(t', e.0) {
        if e == (c, left) {
          RemoveKeys(p, sid, s);
          assert s != sid && s in Members(t, c);
        } else {
          assert e in rooms && s != sid;
          assert s in Members(t, e.0);
        }
        assert Members(t', e.0) == Members(t, e.0) - {sid};
      }
  }

  /**
   * A socket listed in two calls stays listed in the later one after it
   * disconnects, although the transport no longer has it in that call's room.
   */
  lemma DisconnectLeavesLaterCall(t: Membership)
    ensures var rooms: Rooms := [("c1", [("A", "a")]), ("c2", [("A", "a")])];
      && DisconnectRooms(rooms, "A") == [("c2", [("A", "a")])]
      && !InSync(DisconnectRooms(rooms, "A"), LeaveAll(t, "A"))
  {
    var rooms: Rooms := [("c1", [("A", "a")]), ("c2", [("A", "a")])];
    assert rooms[0].1[0].0 == "A";
    assert IndexOf(rooms, "c1") == Some(0);
    var r := DisconnectRooms(rooms, "A");
    assert r[0] in r && r[0].1[0].0 == "A";
  }

  class Server {
    var userMap: UserMap
    var rooms: Rooms
    var transport: Membership
    var outbox: seq<Emission>

    ghost predicate Valid()
      reads this
    {
      RoomsValid(rooms)
    }

    /** The server starts with no usernames, no calls and no emissions. */
    constructor ()
      ensures Valid()
      ensures userMap == map[] && rooms == [] && transport == map[] && outbox == []
    {
      userMap, rooms, transport, outbox := map[], [], map[], [];
    }

    /** The transport's connect: the new socket joins the room named by its own id. */
    method Connect(sid: SocketId)
      requires Valid()
      modifies this
      ensures Valid()
      ensures transport == Join(old(transport), sid, sid)
      ensures userMap == old(userMap) && rooms == old(rooms) && outbox == old(outbox)
    {
      transport := Join(transport, sid, sid);
    }

    /** `set-username`: the last username set for a socket wins. */
    method SetUsername(sid: SocketId, username: string)
      requires Valid()
      modifies this
      ensures Valid()
      ensures userMap == old(userMap)[sid := username]
      ensures rooms == old(rooms) && transport == old(transport) && outbox == old(outbox)
    {
      userMap := userMap[sid := username];
    }

    /**
     * `join-call`: join the call's transport room, store the sender in the call
     * under its username (or the placeholder), tell the other members, and send
     * the sender the call's participants as they are after the insertion.
     */
    method JoinCall(sid: SocketId, callId: CallId)
      requires Valid()
      modifies this
      ensures Valid()
      ensures transport == Join(old(transport), callId, sid)
      ensures rooms == JoinCallRooms(old(rooms), callId, sid, DisplayName(old(userMap), sid))
      ensures userMap == old(userMap)
      ensures outbox == old(outbox) + [
        Emission(ToOthers(transport, callId, sid), NewSocket(sid, Some(DisplayName(userMap, sid)))),
        Emission({sid}, Participants(RoomOf(rooms, callId)))]
    {
      ghost var before := rooms;
      transport := Join(transport, callId, sid);
      var username := DisplayName(userMap, sid);
      if !HasKey(rooms, callId) {
        rooms := Put(rooms, callId, []);
        CreateThenJoin(before, callId, sid, username);
      }
      rooms := Put(rooms, callId, Put(RoomOf(rooms, callId), sid, username));
      assert rooms == JoinCallRooms(before, callId, sid, username);
      outbox := outbox + [Emission(ToOthers(transport, callId, sid), NewSocket(sid, Some(username)))];
      outbox := outbox + [Emission({sid}, Participants(RoomOf(rooms, callId)))];
    }

    /** `offer`: relayed to `to` with the sender attached; nothing stored changes. */
    method Offer(sid: SocketId, to: RoomId, offer: Payload)
      requires Valid()
      modifies this
      ensures Valid()
      ensures outbox == old(outbox) + [Emission(ToOthers(transport, to, sid), ReciveOffer(sid, offer))]
      ensures userMap == old(userMap) && rooms == old(rooms) && transport == old(transport)
    {
      outbox := outbox + [Emission(ToOthers(transport, to, sid), ReciveOffer(sid, offer))];
    }

    /** `answer`: relayed to `to` with the sender attached; nothing stored changes. */
    method Answer(sid: SocketId, to: RoomId, answer: Payload)
      requires Valid()
      modifies this
      ensures Valid()
      ensures outbox == old(outbox) + [Emission(ToOthers(transport, to, sid), ReciveAnswer(sid, answer))]
      ensures userMap == old(userMap) && rooms == old(rooms) && transport == old(transport)
    {
      outbox := outbox + [Emission(ToOthers(transport, to, sid), ReciveAnswer(sid, answer))];
    }

    /** `icecandidate`: relayed to `to` with the sender attached; nothing stored changes. */
    method IceCandidate(sid: SocketId, to: RoomId, candidate: Payload)
      requires Valid()
      modifies this
      ensures Valid()
      ensures outbox == old(outbox) + [Emission(ToOthers(transport, to, sid), ReciveIcecandidate(sid, candidate))]
      ensures userMap == old(userMap) && rooms == old(rooms) && transport == old(transport)
    {
      outbox := outbox + [Emission(ToOthers(transport, to, sid), ReciveIcecandidate(sid, candidate))];
    }

    /** `start-screen-share`: the other members of the call learn who shares. */
    method StartScreenShare(sid: SocketId, callId: CallId)
      requires Valid()
      modifies this
      ensures Valid()
      ensures outbox == old(outbox) + [Emission(ToOthers(transport, callId, sid), Event.StartScreenShare(sid))]
      ensures userMap == old(userMap) && rooms == old(rooms) && transport == old(transport)
    {
      outbox := outbox + [Emission(ToOthers(transport, callId, sid), Event.StartScreenShare(sid))];
    }

    /** `stop-screen-share`: the other members of the call learn who stopped. */
    method StopScreenShare(sid: SocketId, callId: CallId)
      requires Valid()
      modifies this
      ensures Valid()
      ensures outbox == old(outbox) + [Emission(ToOthers(transport, callId, sid), Event.StopScreenShare(sid))]
      ensures userMap == old(userMap) && rooms == old(rooms) && transport == old(transport)
    {
      outbox := outbox + [Emission(ToOthers(transport, callId, sid), Event.StopScreenShare(sid))];
    }

    /** `create-stream`: the streamer joins the stream's room and nothing is emitted. */
    method CreateStream(sid: SocketId, streamId: RoomId)
      requires Valid()
      modifies this
      ensures Valid()
      ensures transport == Join(old(transport), streamId, sid)
      ensures userMap == old(userMap) && rooms == old(rooms) && outbox == old(outbox)
    {
      transport := Join(transport, streamId, sid);
    }

    /**
     * `join-stream`: join the stream's room, announce the viewer to the others,
     * then send everyone in the room, the viewer included, the room's size.
     */
    method JoinStream(sid: SocketId, streamId: RoomId)
      requires Valid()
      modifies this
      ensures Valid()
      ensures transport == Join(old(transport), streamId, sid)
      ensures outbox == old(outbox) + [
        Emission(ToOthers(transport, streamId, sid), NewSocket(sid, None)),
        Emission(Members(transport, streamId), ViewersCount(|Members(transport, streamId)|))]
      ensures userMap == old(userMap) && rooms == old(rooms)
    {
      transport := Join(transport, streamId, sid);
      outbox := outbox + [Emission(ToOthers(transport, streamId, sid), NewSocket(sid, None))];
      var viewers := Members(transport, streamId);
      outbox := outbox + [Emission(Members(transport, streamId), ViewersCount(|viewers|))];
    }

    /** `chat-message`: every member of `to`, the sender included, gets the message. */
    method ChatMessage(sid: SocketId, to: RoomId, message: Payload)
      requires Valid()
      modifies this
      ensures Valid()
      ensures outbox == old(outbox) + [Emission(Members(transport, to), BrodcastMessage(message, sid))]
      ensures userMap == old(userMap) && rooms == old(rooms) && transport == old(transport)
    {
      outbox := outbox + [Emission(Members(transport, to), BrodcastMessage(message, sid))];
    }

    /** `personal-chat`: the message goes to `to` with the sender's username as stored, if any. */
    method PersonalChat(sid: SocketId, to: RoomId, message: Payload)
      requires Valid()
      modifies this
      ensures Valid()
      ensures outbox == old(outbox) + [Emission(Members(transport, to),
        ReceivePersonalMessage(message, sid, if sid in userMap then Some(userMap[sid]) else None))]
      ensures userMap == old(userMap) && rooms == old(rooms) && transport == old(transport)
    {
      var username := if sid in userMap then Some(userMap[sid]) else None;
      outbox := outbox + [Emission(Members(transport, to), ReceivePersonalMessage(message, sid, username))];
    }

    /**
     * `disconnect`: forget the username, then scan the calls in order; the first
     * that lists the socket loses it, its remaining members are told, it is
     * deleted if now empty, and the scan stops.
     */
    method Disconnect(sid: SocketId)
      requires Valid()
      modifies this
      ensures Valid()
      ensures transport == LeaveAll(old(transport), sid)
      ensures userMap == old(userMap) - {sid}
      ensures rooms == DisconnectRooms(old(rooms), sid)
      ensures outbox == old(outbox) + DisconnectEmissions(old(rooms), transport, sid)
    {
      transport := LeaveAll(transport, sid);
      userMap := userMap - {sid};
      DisconnectPreservesValid(rooms, sid);
      var i := 0;
      while i < |rooms|
        invariant 0 <= i <= |rooms|
        invariant rooms == old(rooms) && outbox == old(outbox)
        invariant transport == LeaveAll(old(transport), sid) && userMap == old(userMap) - {sid}
        invariant forall j :: 0 <= j < i ==> !HasKey(rooms[j].1, sid)
      {
        var (callId, participants) := rooms[i];
        if HasKey(participants, sid) {
          FirstRoomWithAt(rooms, sid, i);
          ghost var was := rooms;
          var left := Remove(participants, sid);
          rooms := Put(rooms, callId, left);
          outbox := outbox + [Emission(Members(transport, callId), ParticipantLeft(sid))];
          if |left| == 0 {
            assert was[i] in was;
            RemoveAfterPut(was, callId, left);
            rooms := Remove(rooms, callId);
          }
          break;
        }
        i := i + 1;
      }
    }
  }
}
