/** Identifiers and small wrappers shared by the other modules. */
module Basics {

  /** A socket.io socket id (an opaque string assigned by the transport). */
  type SocketId = string

  /** A transport room name: a call id, a stream id, or a socket's own id. */
  type RoomId = string

  /** An opaque client payload (offer, answer, ICE candidate, chat text); never inspected. */
  type Payload = string

  /** The value of a lookup that can miss; `None` plays JavaScript's `undefined`. */
  datatype Option<+T> = None | Some(value: T)

  function Min(a: nat, b: nat): nat { if a < b then a else b }
}
