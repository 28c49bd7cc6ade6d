/**
 * The part of socket.io the handlers rely on, kept abstract: which sockets are
 * in which room, and who an emit reaches.
 *
 *   socket.join(r)     adds the socket to room r
 *   socket.to(r).emit  reaches the members of r other than the sending socket
 *   io.to(r).emit      reaches every member of r
 *   socket.emit        reaches the sending socket only
 *
 * The transport puts every socket into a room named by its own id when it
 * connects, which is how a socket id can be used as an address, and takes a
 * closing socket out of every room before its `disconnect` handler runs.
 */
module Transport {
  import opened Basics

  /** Room membership as the transport keeps it; a room absent from the map has no members. */
  type Membership = map<RoomId, set<SocketId>>

  /** The recipients of `io.to(r).emit(...)`: the sockets the transport holds in room `r`. */
  function Members(t: Membership, r: RoomId): set<SocketId> {
    if r in t then t[r] else {}
  }

  /** `socket.join(r)` by socket `s`. */
  function Join(t: Membership, r: RoomId, s: SocketId): (t': Membership)
    ensures Members(t', r) == Members(t, r) + {s}
    ensures forall r' :: r' != r ==> Members(t', r') == Members(t, r')
  {
    t[r := Members(t, r) + {s}]
  }

  /** What the transport does to the rooms when socket `s` closes. */
  function LeaveAll(t: Membership, s: SocketId): (t': Membership)
    ensures forall r :: Members(t', r) == Members(t, r) - {s}
    ensures forall r :: s !in Members(t', r)
  {
    map r | r in t :: t[r] - {s}
  }

  /** The recipients of `socket.to(r).emit(...)` sent by socket `s`. */
  function ToOthers(t: Membership, r: RoomId, s: SocketId): (o: set<SocketId>)
    ensures o <= Members(t, r) && s !in o
    ensures s !in Members(t, r) ==> o == Members(t, r)
    ensures |o| == |Members(t, r)| - (if s in Members(t, r) then 1 else 0)
  {
    assert s !in Members(t, r) ==> Members(t, r) - {s} == Members(t, r);
    Members(t, r) - {s}
  }

  /** Socket `s` can be reached by its id: the room named `s` holds `s` and nothing else. */
  predicate Addressable(t: Membership, s: SocketId) {
    Members(t, s) == {s}
  }

  /** Addressed by a socket id, `socket.to` reaches that one socket, unless it is the sender itself. */
  lemma ToOthersOfAddressable(t: Membership, target: SocketId, sender: SocketId)
    requires Addressable(t, target)
    ensures ToOthers(t, target, sender) == if target == sender then {} else {target}
  {
  }

  /** After `socket.join(r)`, `socket.to(r)` reaches exactly the members that were already there. */
  lemma JoinThenToOthers(t: Membership, r: RoomId, s: SocketId)
    ensures ToOthers(Join(t, r, s), r, s) == Members(t, r) - {s}
  {
  }

  /** Joining a room adds exactly one member unless the socket was already in it. */
  lemma JoinSize(t: Membership, r: RoomId, s: SocketId)
    ensures s in Members(Join(t, r, s), r)
    ensures |Members(Join(t, r, s), r)| == |Members(t, r)| + (if s in Members(t, r) then 0 else 1)
  {
    if s in Members(t, r) {
      assert Members(t, r) + {s} == Members(t, r);
    }
  }
}
