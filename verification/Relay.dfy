/** The relay between a TV, the host of a room, and the phones that play in it: game-relay.ts. */
module Relay {
  import opened Wrappers

  type RoomId = string
  type SocketId = int
  type Data = string

  /** connection tells apart two sockets that were given the same id. */
  datatype Socket = Socket(id: SocketId, connection: int)

  datatype Frame =
    | HostOnline(online: bool)
    | HostMessage(data: Data)
    | Ready
    | Join(from: SocketId)
    | PlayerMessage(from: SocketId, data: Data)
    | Left(from: SocketId)
    | Control(name: Data)

  const REPLACED := 4010
  const MAX_PLAYERS := 30

  datatype Room = Room(host: Option<Socket>, players: map<SocketId, Socket>)

  type Rooms = map<RoomId, Room>

  /** The frames that each socket was sent, in order. */
  type Sent = map<Socket, seq<Frame>>

  datatype State = State(rooms: Rooms, sent: Sent, closed: seq<(Socket, int)>)

  // ---------------------------------------------------------------- specification

  const EMPTY_ROOM := Room(None, map[])

  function RoomOf(rooms: Rooms, roomId: RoomId): Room {
    if roomId in rooms then rooms[roomId] else EMPTY_ROOM
  }

  function FramesOf(sent: Sent, socket: Socket): seq<Frame> {
    if socket in sent then sent[socket] else []
  }

  function SendTo(sent: Sent, socket: Socket, frame: Frame): Sent {
    sent[socket := FramesOf(sent, socket) + [frame]]
  }

  function SendToHost(sent: Sent, room: Room, frame: Frame): Sent {
    if room.host.Some? then SendTo(sent, room.host.value, frame) else sent
  }

  function SendToAll(sent: Sent, sockets: set<Socket>, frame: Frame): Sent {
    map socket | socket in sent.Keys + sockets ::
      FramesOf(sent, socket) + (if socket in sockets then [frame] else [])
  }

  function WithRoom(rooms: Rooms, roomId: RoomId, room: Room): Rooms {
    if room.host.None? && room.players.Keys == {} then rooms - {roomId} else rooms[roomId := room]
  }

  predicate IsPlayer(room: Room, socket: Socket) {
    socket.id in room.players && room.players[socket.id] == socket
  }

  function WithHost(s: State, roomId: RoomId, socket: Socket): State {
    var room := RoomOf(s.rooms, roomId);
    State(s.rooms[roomId := room.(host := Some(socket))],
          SendToAll(SendTo(s.sent, socket, Ready), room.players.Values, HostOnline(true)),
          s.closed + (if room.host.Some? && room.host.value != socket then [(room.host.value, REPLACED)] else []))
  }

  predicate Full(rooms: Rooms, roomId: RoomId) { |RoomOf(rooms, roomId).players| >= MAX_PLAYERS }

  function WithPlayer(s: State, roomId: RoomId, socket: Socket): State {
    var room := RoomOf(s.rooms, roomId);
    if Full(s.rooms, roomId) then s
    else s.(rooms := s.rooms[roomId := room.(players := room.players[socket.id := socket])],
            sent := SendTo(SendToHost(s.sent, room, Join(socket.id)), socket, HostOnline(room.host.Some?)))
  }

  function Without(s: State, roomId: RoomId, socket: Socket): State {
    if roomId !in s.rooms then s
    else
      var room := s.rooms[roomId];
      if room.host == Some(socket) then
        s.(rooms := WithRoom(s.rooms, roomId, room.(host := None)),
           sent := SendToAll(s.sent, room.players.Values, HostOnline(false)))
      else if IsPlayer(room, socket) then
        s.(rooms := WithRoom(s.rooms, roomId, room.(players := room.players - {socket.id})),
           sent := SendToHost(s.sent, room, Left(socket.id)))
      else s.(rooms := WithRoom(s.rooms, roomId, room))
  }

  function AfterHostMessage(s: State, roomId: RoomId, socket: Socket, data: Data): State {
    if roomId in s.rooms && s.rooms[roomId].host == Some(socket)
    then s.(sent := SendToAll(s.sent, s.rooms[roomId].players.Values, HostMessage(data)))
    else s
  }

  function AfterPlayerMessage(s: State, roomId: RoomId, socket: Socket, data: Data): State {
    if roomId in s.rooms && s.rooms[roomId].host.Some? && IsPlayer(s.rooms[roomId], socket)
    then s.(sent := SendToHost(s.sent, s.rooms[roomId], PlayerMessage(socket.id, data)))
    else s
  }

  function AfterControl(s: State, roomId: RoomId, frame: Frame): State {
    if roomId in s.rooms then s.(sent := SendToHost(s.sent, s.rooms[roomId], frame)) else s
  }

  function AfterCloseHost(s: State, roomId: RoomId, code: int): State {
    if roomId in s.rooms && s.rooms[roomId].host.Some?
    then s.(closed := s.closed + [(s.rooms[roomId].host.value, code)]) else s
  }

  lemma SendToNobody(sent: Sent, frame: Frame)
    ensures SendToAll(sent, {}, frame) == sent
  {
    forall socket | socket in sent
      ensures FramesOf(sent, socket) + [] == sent[socket]
    {
    }
  }

  lemma SendToOneMore(sent: Sent, sockets: set<Socket>, socket: Socket, frame: Frame)
    requires socket !in sockets
    ensures SendTo(SendToAll(sent, sockets, frame), socket, frame) == SendToAll(sent, sockets + {socket}, frame)
  {
    assert FramesOf(sent, socket) + [] == FramesOf(sent, socket);
  }

  // ---------------------------------------------------------------- what every socket sees

  /** A new host is told that it is ready, the players that it is there, and the host it replaces is closed. */
  lemma HostArrives(s: State, roomId: RoomId, socket: Socket, other: Socket)
    ensures var before := if roomId in s.rooms then s.rooms[roomId] else Room(None, map[]);
            var after := WithHost(s, roomId, socket);
            && after.rooms == s.rooms[roomId := Room(Some(socket), before.players)]
            && FramesOf(after.sent, other)
               == FramesOf(s.sent, other) + (if other == socket then [Ready] else [])
                  + (if other in before.players.Values then [HostOnline(true)] else [])
            && after.closed
               == s.closed + (if before.host.Some? && before.host.value != socket then [(before.host.value, 4010)]
                              else [])
  {
    assert FramesOf(s.sent, other) + [] == FramesOf(s.sent, other);
  }

  /** The thirty-first player of a room is refused without a trace. Any other one is announced to the
      host and told whether there is one. */
  lemma PlayerArrives(s: State, roomId: RoomId, socket: Socket, other: Socket)
    ensures var before := if roomId in s.rooms then s.rooms[roomId] else Room(None, map[]);
            var after := WithPlayer(s, roomId, socket);
            && (Full(s.rooms, roomId) <==> |before.players| >= 30)
            && (|before.players| >= 30 ==> after == s)
            && (|before.players| < 30 ==>
                  && after.rooms == s.rooms[roomId := Room(before.host, before.players[socket.id := socket])]
                  && after.closed == s.closed
                  && FramesOf(after.sent, other)
                     == FramesOf(s.sent, other) + (if before.host == Some(other) then [Join(socket.id)] else [])
                        + (if other == socket then [HostOnline(before.host.Some?)] else []))
  {
    assert FramesOf(s.sent, other) + [] == FramesOf(s.sent, other);
  }

  /** When a host leaves, its players are told; when a player leaves, its host is. A room that is left
      empty is dropped, and a socket that is neither host nor player of the room tells nobody. */
  lemma SocketLeaves(s: State, roomId: RoomId, socket: Socket, other: Socket)
    requires roomId in s.rooms
    ensures var Room(host, players) := s.rooms[roomId];
            var after := Without(s, roomId, socket);
            var hosted, played := host == Some(socket), host != Some(socket) && IsPlayer(s.rooms[roomId], socket);
            var left := Room(if hosted then None else host, if played then players - {socket.id} else players);
            && after.closed == s.closed
            && (left.host.None? && left.players == map[] ==> after.rooms == s.rooms - {roomId})
            && (left.host.Some? || left.players != map[] ==> after.rooms == s.rooms[roomId := left])
            && FramesOf(after.sent, other)
               == FramesOf(s.sent, other)
                  + (if hosted && other in players.Values then [HostOnline(false)]
                     else if played && host == Some(other) then [Left(socket.id)] else [])
  {
    assert FramesOf(s.sent, other) + [] == FramesOf(s.sent, other);
    assert forall players: map<SocketId, Socket> :: players == map[] <==> players.Keys == {};
  }

  /** A control message reaches the host of the room and nobody else, and closing the host is noted
      with its code; the room stays as it is. */
  lemma HostIsReached(s: State, roomId: RoomId, frame: Frame, code: int, other: Socket)
    ensures var host := if roomId in s.rooms then s.rooms[roomId].host else None;
            var told, shut := AfterControl(s, roomId, frame), AfterCloseHost(s, roomId, code);
            && told.rooms == s.rooms && told.closed == s.closed
            && FramesOf(told.sent, other) == FramesOf(s.sent, other) + (if host == Some(other) then [frame] else [])
            && shut == s.(closed := s.closed + (if host.Some? then [(host.value, code)] else []))
  {
    assert FramesOf(s.sent, other) + [] == FramesOf(s.sent, other);
    assert s.closed + [] == s.closed;
  }

  // ---------------------------------------------------------------- the relay

  class GameRelay {
    var rooms: Rooms
    /** What the sockets saw: the frames sent to each of them and the closes. */
    var sent: Sent
    var closed: seq<(Socket, int)>

    constructor ()
      ensures Contents() == State(map[], map[], [])
    {
      rooms, sent, closed := map[], map[], [];
    }

    function Contents(): State
      reads this
    {
      State(rooms, sent, closed)
    }

    method Send(socket: Socket, frame: Frame)
      modifies this`sent
      ensures sent == SendTo(old(sent), socket, frame)
    {
      sent := sent[socket := (if socket in sent then sent[socket] else []) + [frame]];
    }

    method ToHostOf(room: Room, frame: Frame)
      modifies this`sent
      ensures sent == SendToHost(old(sent), room, frame)
    {
      if room.host.Some? {
        Send(room.host.value, frame);
      }
    }

    method ToPlayers(room: Room, frame: Frame)
      modifies this`sent
      ensures sent == SendToAll(old(sent), room.players.Values, frame)
    {
      hide SendToAll, SendTo;
      var todo := room.players.Values;
      SendToNobody(sent, frame);
      assert room.players.Values - todo == {};
      while todo != {}
        invariant todo <= room.players.Values
        invariant sent == SendToAll(old(sent), room.players.Values - todo, frame)
        decreases |todo|
      {
        var socket :| socket in todo;
        ghost var told := room.players.Values - todo;
        todo := todo - {socket};
        Send(socket, frame);
        assert room.players.Values - todo == told + {socket};
        SendToOneMore(old(sent), told, socket, frame);
      }
      assert room.players.Values - todo == room.players.Values;
    }

    method DropIfEmpty(roomId: RoomId)
      modifies this`rooms
      ensures rooms == if roomId in old(rooms) then WithRoom(old(rooms), roomId, old(rooms)[roomId]) else old(rooms)
    {
      if roomId in rooms && rooms[roomId].host.None? && |rooms[roomId].players| == 0 {
        rooms := rooms - {roomId};
      } else if roomId in rooms {
        assert rooms == rooms[roomId := rooms[roomId]];
      }
    }

    method AddHost(roomId: RoomId, socket: Socket)
      modifies this
      ensures Contents() == WithHost(old(Contents()), roomId, socket)
    {
      var room := if roomId in rooms then rooms[roomId] else EMPTY_ROOM;
      var previous := room.host;
      rooms := rooms[roomId := room.(host := Some(socket))];
      if previous.Some? && previous.value != socket {
        closed := closed + [(previous.value, REPLACED)];
      }
      Send(socket, Ready);
      ToPlayers(room, HostOnline(true));
    }

    /** The room is created before the check, and dropped again when it was not there. */
    method AddPlayer(roomId: RoomId, socket: Socket) returns (added: bool)
      requires forall id :: id in rooms ==> rooms[id] != EMPTY_ROOM
      modifies this
      ensures added == !Full(old(rooms), roomId)
      ensures Contents() == WithPlayer(old(Contents()), roomId, socket)
    {
      hide SendTo, SendToHost;
      var room := if roomId in rooms then rooms[roomId] else EMPTY_ROOM;
      rooms := rooms[roomId := room];
      if |room.players| >= MAX_PLAYERS {
        DropIfEmpty(roomId);
        assert rooms == old(rooms);
        return false;
      }
      rooms := rooms[roomId := room.(players := room.players[socket.id := socket])];
      ToHostOf(room, Join(socket.id));
      Send(socket, HostOnline(room.host.Some?));
      return true;
    }

    method Remove(roomId: RoomId, socket: Socket)
      modifies this
      ensures Contents() == Without(old(Contents()), roomId, socket)
    {
      if roomId !in rooms {
        return;
      }
      var room := rooms[roomId];
      if room.host == Some(socket) {
        rooms := rooms[roomId := room.(host := None)];
        ToPlayers(room, HostOnline(false));
      } else if socket.id in room.players && room.players[socket.id] == socket {
        rooms := rooms[roomId := room.(players := room.players - {socket.id})];
        ToHostOf(room, Left(socket.id));
      }
      DropIfEmpty(roomId);
    }

    method FromHost(roomId: RoomId, socket: Socket, data: Data)
      modifies this`sent
      ensures Contents() == AfterHostMessage(old(Contents()), roomId, socket, data)
    {
      if roomId !in rooms || rooms[roomId].host != Some(socket) {
        return;
      }
      ToPlayers(rooms[roomId], HostMessage(data));
    }

    method FromPlayer(roomId: RoomId, socket: Socket, data: Data)
      modifies this`sent
      ensures Contents() == AfterPlayerMessage(old(Contents()), roomId, socket, data)
    {
      if roomId !in rooms || rooms[roomId].host.None? || !IsPlayer(rooms[roomId], socket) {
        return;
      }
      ToHostOf(rooms[roomId], PlayerMessage(socket.id, data));
    }

    method ToHost(roomId: RoomId, name: Data) returns (delivered: bool)
      modifies this`sent
      ensures delivered == (roomId in rooms && rooms[roomId].host.Some?)
      ensures Contents() == AfterControl(old(Contents()), roomId, Control(name))
    {
      if roomId !in rooms || rooms[roomId].host.None? {
        return false;
      }
      ToHostOf(rooms[roomId], Control(name));
      return true;
    }

    method CloseHost(roomId: RoomId, code: int)
      modifies this`closed
      ensures Contents() == AfterCloseHost(old(Contents()), roomId, code)
    {
      if roomId in rooms && rooms[roomId].host.Some? {
        closed := closed + [(rooms[roomId].host.value, code)];
      }
    }
  }
}
