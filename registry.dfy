/**
 * The server's own two registries: `userMap` (socket id -> username) and
 * `rooms` (call id -> participants, each a socket id -> username map), and
 * what `join-call` and `disconnect` do to them.
 */
module Registry {
  import opened Basics
  import opened OrderedMaps

  type CallId = string

  /** `userMap`. Only its lookups are used, never its order, so a plain map. */
  type UserMap = map<SocketId, string>

  /** One call's participants: socket id -> username, in join order. */
  type Participants = OrderedMap<string>

  /** `rooms`: call id -> participants, in the order the calls were created. */
  type Rooms = OrderedMap<Participants>

  /** The name used for a socket that has set no (or an empty) username. */
  function Placeholder(sid: SocketId): (p: string)
    ensures |p| == 12 + Min(4, |sid|)
    ensures p[..12] == "Participant "
    ensures p[12..] <= sid
  {
    "Participant " + sid[..Min(4, |sid|)]
  }

  /** `userMap.get(sid) || placeholder`: the username stored on `join-call`. */
  function DisplayName(users: UserMap, sid: SocketId): (name: string)
    ensures name != ""
    ensures sid in users && users[sid] != "" ==> name == users[sid]
    ensures sid !in users || users[sid] == "" ==> name == Placeholder(sid)
  {
    if sid in users && users[sid] != "" then users[sid] else Placeholder(sid)
  }

  /** Every call is listed once, lists each participant once, and is not empty. */
  predicate RoomsValid(rooms: Rooms) {
    && UniqueKeys(rooms)
    && forall e :: e in rooms ==> UniqueKeys(e.1) && e.1 != []
  }

  /** The participants of call `c`; none when the call is not stored. */
  function RoomOf(rooms: Rooms, c: CallId): (p: Participants)
    ensures HasKey(rooms, c) ==> (c, p) in rooms
    ensures !HasKey(rooms, c) ==> p == []
  {
    match Get(rooms, c)
    case Some(p) => p
    case None => []
  }

  /** `rooms` after `join-call(c)` by `sid`, stored under username `name`. */
  function JoinCallRooms(rooms: Rooms, c: CallId, sid: SocketId, name: string): (r: Rooms)
    ensures HasKey(r, c) && Get(RoomOf(r, c), sid) == Some(name)
    ensures forall c' :: c' != c ==> Get(r, c') == Get(rooms, c')
    ensures RoomsValid(rooms) ==> RoomsValid(r)
    ensures |rooms| <= |r| && forall i :: 0 <= i < |rooms| ==> r[i].0 == rooms[i].0
  {
    Put(rooms, c, Put(RoomOf(rooms, c), sid, name))
  }

  /** Joining a call that does not exist yet appends it, with the joiner alone, after every existing call. */
  lemma JoinNewCall(rooms: Rooms, c: CallId, sid: SocketId, name: string)
    requires !HasKey(rooms, c)
    ensures JoinCallRooms(rooms, c, sid, name) == rooms + [(c, [(sid, name)])]
  {
    assert RoomOf(rooms, c) == [];
    assert Put(RoomOf(rooms, c), sid, name) == [(sid, name)];
  }

  /** Creating the call with no participants and then adding the joiner is `JoinCallRooms`. */
  lemma CreateThenJoin(rooms: Rooms, c: CallId, sid: SocketId, name: string)
    requires !HasKey(rooms, c)
    ensures var created := Put(rooms, c, []);
      Put(created, c, Put(RoomOf(created, c), sid, name)) == JoinCallRooms(rooms, c, sid, name)
  {
    var created := Put(rooms, c, []);
    assert RoomOf(created, c) == [] == RoomOf(rooms, c);
    PutTwice(rooms, c, [], Put(RoomOf(rooms, c), sid, name));
  }

  /**
   * The snapshot of call `c` taken after the join lists the joiner; a first
   * join appends it, a repeated join keeps every entry where it was, and the
   * other participants keep their names.
   */
  lemma JoinSnapshot(rooms: Rooms, c: CallId, sid: SocketId, name: string)
    ensures var before, after := RoomOf(rooms, c), RoomOf(JoinCallRooms(rooms, c, sid, name), c);
      && (sid, name) in after
      && (!HasKey(before, sid) ==> after == before + [(sid, name)])
      && (HasKey(before, sid) ==>
            |after| == |before| && forall i :: 0 <= i < |before| ==> after[i].0 == before[i].0)
      && forall s :: s != sid ==> Get(after, s) == Get(before, s)
  {
    var before := RoomOf(rooms, c);
    assert RoomOf(JoinCallRooms(rooms, c, sid, name), c) == Put(before, sid, name);
  }

  /** The position of the first call, in iteration order, that lists `sid`. */
  function FirstRoomWith(rooms: Rooms, sid: SocketId): (r: Option<nat>)
    ensures r.Some? ==> r.value < |rooms| && HasKey(rooms[r.value].1, sid)
    ensures r.Some? ==> forall j :: 0 <= j < r.value ==> !HasKey(rooms[j].1, sid)
    ensures r.None? <==> forall j :: 0 <= j < |rooms| ==> !HasKey(rooms[j].1, sid)
  {
    if |rooms| == 0 then None
    else if HasKey(rooms[0].1, sid) then Some(0)
    else
      match FirstRoomWith(rooms[1..], sid)
      case None => None
      case Some(i) => Some(i + 1)
  }

  /** The scan finds position `i` when `i` lists `sid` and no earlier call does. */
  lemma FirstRoomWithAt(rooms: Rooms, sid: SocketId, i: nat)
    requires i < |rooms| && HasKey(rooms[i].1, sid)
    requires forall j :: 0 <= j < i ==> !HasKey(rooms[j].1, sid)
    ensures FirstRoomWith(rooms, sid) == Some(i)
  {
  }

  /**
   * `rooms` after `disconnect` of `sid`: `sid` leaves the first call that lists
   * it, and that call is deleted if it is left empty; the scan stops there.
   */
  function DisconnectRooms(rooms: Rooms, sid: SocketId): (r: Rooms)
    ensures FirstRoomWith(rooms, sid).None? ==> r == rooms
    ensures |r| <= |rooms|
    ensures forall c :: HasKey(r, c) ==> HasKey(rooms, c)
  {
    match FirstRoomWith(rooms, sid)
    case None => rooms
    case Some(i) =>
      var left := Remove(rooms[i].1, sid);
      if |left| == 0 then Remove(rooms, rooms[i].0) else Put(rooms, rooms[i].0, left)
  }

  /** Where `sid` is listed in no call, disconnect leaves `rooms` as it was. */
  lemma DisconnectUnknown(rooms: Rooms, sid: SocketId)
    requires forall e :: e in rooms ==> !HasKey(e.1, sid)
    ensures DisconnectRooms(rooms, sid) == rooms
    ensures FirstRoomWith(rooms, sid) == None
  {
    forall j | 0 <= j < |rooms| ensures !HasKey(rooms[j].1, sid) {
      assert rooms[j] in rooms;
    }
  }

  /**
   * Disconnect changes one call at most: the first that lists `sid` loses
   * `sid` (and disappears if that empties it), every other call, later ones
   * that also list `sid` included, is left exactly as it was.
   */
  lemma DisconnectTouchesFirstOnly(rooms: Rooms, sid: SocketId)
    requires RoomsValid(rooms)
    ensures var r := DisconnectRooms(rooms, sid);
      match FirstRoomWith(rooms, sid)
      case None => r == rooms
      case Some(i) =>
        var (c, p) := rooms[i];
        && Get(rooms, c) == Some(p)
        && Get(r, c) == (if |Remove(p, sid)| == 0 then None else Some(Remove(p, sid)))
        && forall c' :: c' != c ==> Get(r, c') == Get(rooms, c')
  {
    match FirstRoomWith(rooms, sid)
    case None =>
    case Some(i) =>
      var (c, p) := rooms[i];
      GetByEntry(rooms, c);
      assert rooms[i] in rooms;
  }

  /**
   * The calls that remain keep their order, which decides the next scan: an
   * emptied call is cut out of the sequence, a shrunk one stays where it was.
   */
  lemma DisconnectKeepsOrder(rooms: Rooms, sid: SocketId)
    requires UniqueKeys(rooms)
    ensures var r := DisconnectRooms(rooms, sid);
      match FirstRoomWith(rooms, sid)
      case None => r == rooms
      case Some(i) =>
        && (Remove(rooms[i].1, sid) == [] ==> r == rooms[..i] + rooms[i + 1..])
        && (Remove(rooms[i].1, sid) != [] ==>
              |r| == |rooms| && forall j :: 0 <= j < |rooms| ==> r[j].0 == rooms[j].0)
  {
    match FirstRoomWith(rooms, sid)
    case None =>
    case Some(i) =>
      assert IndexOf(rooms, rooms[i].0) == Some(i);
  }

  /** A call disappears on disconnect exactly when removing `sid` from it leaves it empty. */
  lemma DisconnectDeletesWhenEmptied(rooms: Rooms, sid: SocketId, c: CallId)
    requires RoomsValid(rooms)
    ensures HasKey(DisconnectRooms(rooms, sid), c) <==>
      HasKey(rooms, c) && !(IndexOf(rooms, c) == FirstRoomWith(rooms, sid) && Remove(RoomOf(rooms, c), sid) == [])
  {
    DisconnectTouchesFirstOnly(rooms, sid);
    var r := DisconnectRooms(rooms, sid);
    match FirstRoomWith(rooms, sid)
    case None =>
    case Some(i) =>
      var (c0, p) := rooms[i];
      assert IndexOf(rooms, c0) == Some(i);
      if c == c0 {
        assert RoomOf(rooms, c) == p;
        assert HasKey(r, c) <==> Get(r, c).Some?;
      } else {
        assert IndexOf(rooms, c) != Some(i);
        assert HasKey(r, c) <==> Get(r, c).Some?;
        assert HasKey(rooms, c) <==> Get(rooms, c).Some?;
      }
  }

  /** Disconnect keeps every stored call non-empty and free of duplicates. */
  lemma DisconnectPreservesValid(rooms: Rooms, sid: SocketId)
    requires RoomsValid(rooms)
    ensures RoomsValid(DisconnectRooms(rooms, sid))
  {
    match FirstRoomWith(rooms, sid)
    case None =>
    case Some(i) =>
      assert rooms[i] in rooms;
  }
}
