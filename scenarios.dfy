/** Client code: short event sequences and what the handlers' contracts promise about them. */
module Scenarios {
  import opened Basics
  import opened OrderedMaps
  import opened Transport
  import opened Registry
  import opened Signaling

  /** "room1" after A joins it. */
  lemma Room1JoinA()
    ensures DisplayName(map[], "A") == "Participant A"
    ensures JoinCallRooms([], "room1", "A", "Participant A") == [("room1", [("A", "Participant A")])]
  {
    assert Put([], "A", "Participant A") == [("A", "Participant A")];
  }

  /** "room1" after B joins it too. */
  lemma Room1JoinB()
    ensures DisplayName(map[], "B") == "Participant B"
    ensures JoinCallRooms([("room1", [("A", "Participant A")])], "room1", "B", "Participant B")
      == [("room1", [("A", "Participant A"), ("B", "Participant B")])]
  {
    var one: Participants := [("A", "Participant A")];
    var rooms: Rooms := [("room1", one)];
    assert IndexOf(rooms, "room1") == Some(0);
    assert RoomOf(rooms, "room1") == one;
    assert IndexOf(one, "B") == None;
    var two := Put(one, "B", "Participant B");
    assert two == one + [("B", "Participant B")] == [("A", "Participant A"), ("B", "Participant B")];
    assert Put(rooms, "room1", two) == rooms[0 := ("room1", two)];
    assert JoinCallRooms(rooms, "room1", "B", "Participant B") == Put(rooms, "room1", two);
    assert rooms[0 := ("room1", two)] == [("room1", two)];
  }

  /** "room1" after A leaves it. */
  lemma Room1Leave()
    ensures var r: Rooms := [("room1", [("A", "Participant A"), ("B", "Participant B")])];
      FirstRoomWith(r, "A") == Some(0) && DisconnectRooms(r, "A") == [("room1", [("B", "Participant B")])]
  {
    var r: Rooms := [("room1", [("A", "Participant A"), ("B", "Participant B")])];
    assert r[0].1[0].0 == "A";
    assert IndexOf(r[0].1, "A") == Some(0);
    assert Remove(r[0].1, "A") == [("B", "Participant B")];
    assert IndexOf(r, "room1") == Some(0);
  }

  /** A and B connect, and A joins "room1". */
  method JoinRoom1A() returns (s: Server)
    ensures fresh(s) && s.Valid() && s.userMap == map[]
    ensures s.rooms == [("room1", [("A", "Participant A")])]
    ensures Members(s.transport, "B") == {"B"} && Members(s.transport, "room1") == {"A"}
  {
    s := new Server();
    s.Connect("A");
    s.Connect("B");
    assert Members(s.transport, "B") == {"B"};
    s.JoinCall("A", "room1");
    assert Members(s.transport, "B") == {"B"} && Members(s.transport, "room1") == {"A"};
    Room1JoinA();
  }

  /** Then B joins "room1" too. */
  method JoinRoom1() returns (s: Server)
    ensures fresh(s) && s.Valid()
    ensures s.rooms == [("room1", [("A", "Participant A"), ("B", "Participant B")])]
    ensures Members(s.transport, "B") == {"B"} && Members(s.transport, "room1") == {"A", "B"}
  {
    Room1JoinB();
    s := JoinRoom1A();
    s.JoinCall("B", "room1");
  }

  /** A's offer reaches B alone; A disconnects, B is told, and "room1" lists B alone. */
  method OfferThenLeave() {
    Room1Leave();
    var s := JoinRoom1();
    var n := |s.outbox|;
    s.Offer("A", "B", "{sdp:x}");
    assert s.outbox[n] == Emission({"B"}, ReciveOffer("A", "{sdp:x}"));
    s.Disconnect("A");
    assert Members(s.transport, "room1") == {"B"};
    assert s.outbox[n + 1..] == [Emission({"B"}, ParticipantLeft("A"))];
    assert s.rooms == [("room1", [("B", "Participant B")])];
  }

  /** Two sockets join the same stream: the second count, 2, reaches both. */
  method TwoViewers() {
    var s := new Server();
    s.JoinStream("A", "s1");
    s.JoinStream("B", "s1");
    assert s.outbox[|s.outbox| - 1] == Emission({"A", "B"}, ViewersCount(2));
  }

  /** A personal message goes to its target alone, with the sender's username. */
  method PersonalMessage() {
    var s := new Server();
    s.Connect("A");
    s.Connect("B");
    s.SetUsername("A", "Alice");
    assert Members(s.transport, "B") == {"B"};
    s.PersonalChat("A", "B", "hi");
    assert s.outbox == [Emission({"B"}, ReceivePersonalMessage("hi", "A", Some("Alice")))];
  }

  /** Disconnecting a socket no call lists emits nothing and leaves the calls alone. */
  method UnknownLeaves() {
    var s := new Server();
    s.JoinCall("A", "c");
    var before := s.rooms;
    var n := |s.outbox|;
    s.Disconnect("Z");
    assert s.rooms == before;
    assert |s.outbox| == n;
  }
}
