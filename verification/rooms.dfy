/** Room membership of connected sockets, and the `poll:join` handler. */
module Rooms {

  /** A connected socket's identifier. */
  type SocketId = string

  /** For each connected socket, the rooms it has joined. */
  type RoomMap = map<SocketId, set<string>>

  /** The room of a poll's viewers: `poll:${pollId}`, the same template the vote
      route emits to. */
  function RoomName(pollId: string): (r: string)
    ensures |r| == |pollId| + 5 && r[..5] == "poll:" && r[5..] == pollId
  {
    "poll:" + pollId
  }

  /** The argument of a `poll:join` event: a string, or any other JavaScript value. */
  datatype JoinArg = JoinString(pollId: string) | JoinOther

  /** Rooms of `socket` in `rooms` (none if it has joined none). */
  function RoomsOf(rooms: RoomMap, socket: SocketId): set<string> {
    if socket in rooms then rooms[socket] else {}
  }

  /** The `poll:join` handler: a non-string or empty id is ignored; otherwise the socket
      joins room `poll:<id>`. */
  function Join(rooms: RoomMap, socket: SocketId, arg: JoinArg): (r: RoomMap)
    ensures arg.JoinOther? || arg.pollId == "" ==> r == rooms
    ensures arg.JoinString? && arg.pollId != "" ==>
      socket in r && r[socket] == RoomsOf(rooms, socket) + {RoomName(arg.pollId)}
    ensures forall other :: other != socket ==> RoomsOf(r, other) == RoomsOf(rooms, other)
  {
    match arg
    case JoinOther => rooms
    case JoinString(pollId) =>
      if pollId == "" then rooms
      else rooms[socket := RoomsOf(rooms, socket) + {RoomName(pollId)}]
  }

  /** The recipients of `io.to(room).emit(…)`. */
  function Members(rooms: RoomMap, room: string): (r: set<SocketId>)
    ensures forall socket :: socket in r <==> room in RoomsOf(rooms, socket)
  {
    set socket | socket in rooms && room in rooms[socket]
  }

  /** Different polls have different rooms. */
  lemma RoomNameInjective(a: string, b: string)
    requires RoomName(a) == RoomName(b)
    ensures a == b
  {
    assert a == RoomName(a)[5..];
    assert b == RoomName(b)[5..];
  }

  /** After a successful join with `pollId`, the socket receives what is emitted to that
      poll's room, and for any other poll it receives exactly what it received before;
      no other socket's membership changes. */
  lemma JoinMembership(rooms: RoomMap, socket: SocketId, pollId: string, x: string, other: SocketId)
    requires pollId != ""
    requires other != socket
    ensures socket in Members(Join(rooms, socket, JoinString(pollId)), RoomName(pollId))
    ensures socket in Members(Join(rooms, socket, JoinString(pollId)), RoomName(x)) <==>
      x == pollId || socket in Members(rooms, RoomName(x))
    ensures other in Members(Join(rooms, socket, JoinString(pollId)), RoomName(x)) <==>
      other in Members(rooms, RoomName(x))
  {
    if RoomName(x) == RoomName(pollId) {
      RoomNameInjective(x, pollId);
    }
  }

  /** Joining the same room twice is the same as joining it once. */
  lemma JoinIdempotent(rooms: RoomMap, socket: SocketId, arg: JoinArg)
    ensures Join(Join(rooms, socket, arg), socket, arg) == Join(rooms, socket, arg)
  {
  }
}
