/** What sockets can rely on over every sequence of relay calls. */
module RelayRuns {
  import opened Wrappers
  import opened Relay

  /** Where a socket was added, as what, and by which call. */
  datatype Place = Place(room: RoomId, host: bool, at: nat)

  type Places = map<Socket, Place>

  datatype World = World(state: State, placed: Places, calls: nat)

  const INITIAL := World(State(map[], map[], []), map[], 0)

  datatype Call =
    | AddHost(room: RoomId, socket: Socket)
    | AddPlayer(room: RoomId, socket: Socket)
    | Remove(room: RoomId, socket: Socket)
    | FromHost(room: RoomId, socket: Socket, data: Data)
    | FromPlayer(room: RoomId, socket: Socket, data: Data)
    | ToHost(room: RoomId, name: Data)
    | CloseHost(room: RoomId, code: int)

  /** Every connection is a new socket with an id of its own. */
  predicate Enabled(w: World, call: Call) {
    call.AddHost? || call.AddPlayer? ==> forall other :: other in w.placed ==> other.id != call.socket.id
  }

  function After(s: State, call: Call): State {
    match call
    case AddHost(room, socket) => WithHost(s, room, socket)
    case AddPlayer(room, socket) => WithPlayer(s, room, socket)
    case Remove(room, socket) => Without(s, room, socket)
    case FromHost(room, socket, data) => AfterHostMessage(s, room, socket, data)
    case FromPlayer(room, socket, data) => AfterPlayerMessage(s, room, socket, data)
    case ToHost(room, name) => AfterControl(s, room, Control(name))
    case CloseHost(room, code) => AfterCloseHost(s, room, code)
  }

  function Next(w: World, call: Call): World {
    World(After(w.state, call),
          if call.AddHost? || call.AddPlayer?
          then w.placed[call.socket := Place(call.room, call.AddHost?, w.calls)] else w.placed,
          w.calls + 1)
  }

  // ---------------------------------------------------------------- what a socket makes of its frames

  function Heard(online: Option<bool>, frame: Frame): Option<bool> {
    if frame.HostOnline? then Some(frame.online) else online
  }

  /** What the last host frame said. */
  function LastHost(frames: seq<Frame>): Option<bool> {
    if frames == [] then None else Heard(LastHost(frames[..|frames| - 1]), frames[|frames| - 1])
  }

  function Listed(roster: set<SocketId>, frame: Frame): set<SocketId> {
    match frame
    case Ready => {}
    case Join(from) => roster + {from}
    case Left(from) => roster - {from}
    case _ => roster
  }

  /** The joins minus the lefts since the last ready. */
  function Roster(frames: seq<Frame>): set<SocketId> {
    if frames == [] then {} else Listed(Roster(frames[..|frames| - 1]), frames[|frames| - 1])
  }

  function HostSeenBy(sent: Sent, socket: Socket): Option<bool> { LastHost(FramesOf(sent, socket)) }

  function RosterOf(sent: Sent, socket: Socket): set<SocketId> { Roster(FramesOf(sent, socket)) }

  lemma FrameIsRead(frames: seq<Frame>, frame: Frame)
    ensures LastHost(frames + [frame]) == Heard(LastHost(frames), frame)
    ensures Roster(frames + [frame]) == Listed(Roster(frames), frame)
  {
    assert (frames + [frame])[..|frames + [frame]| - 1] == frames;
  }

  /** These sockets read one more frame, and nobody else does. */
  ghost predicate Reads(sent: Sent, next: Sent, sockets: set<Socket>, frame: Frame) {
    forall socket ::
      && HostSeenBy(next, socket)
         == (if socket in sockets then Heard(HostSeenBy(sent, socket), frame) else HostSeenBy(sent, socket))
      && RosterOf(next, socket)
         == (if socket in sockets then Listed(RosterOf(sent, socket), frame) else RosterOf(sent, socket))
  }

  lemma SendIsRead(sent: Sent, to: Socket, frame: Frame)
    ensures Reads(sent, SendTo(sent, to, frame), {to}, frame)
  {
    FrameIsRead(FramesOf(sent, to), frame);
    hide LastHost, Roster;
  }

  lemma SendToAllIsRead(sent: Sent, sockets: set<Socket>, frame: Frame)
    ensures Reads(sent, SendToAll(sent, sockets, frame), sockets, frame)
  {
    hide LastHost, Roster;
    var next := SendToAll(sent, sockets, frame);
    forall socket
      ensures HostSeenBy(next, socket)
           == (if socket in sockets then Heard(HostSeenBy(sent, socket), frame) else HostSeenBy(sent, socket))
      ensures RosterOf(next, socket)
           == (if socket in sockets then Listed(RosterOf(sent, socket), frame) else RosterOf(sent, socket))
    {
      FrameIsRead(FramesOf(sent, socket), frame);
      assert FramesOf(next, socket)
          == if socket in sockets then FramesOf(sent, socket) + [frame] else FramesOf(sent, socket);
    }
  }

  // ---------------------------------------------------------------- the invariant

  /** Sockets are where they were added, no room is empty, and no room is overfull. */
  ghost predicate RoomKept(roomId: RoomId, room: Room, placed: Places) {
    && (room.host.Some? || room.players.Keys != {})
    && |room.players| <= MAX_PLAYERS
    && (room.host.Some? ==>
          room.host.value in placed && placed[room.host.value].room == roomId && placed[room.host.value].host)
    && (forall id :: id in room.players ==>
          && room.players[id].id == id
          && room.players[id] in placed && placed[room.players[id]].room == roomId && !placed[room.players[id]].host)
  }

  /** Every player was last told whether its room has a host. */
  ghost predicate PlayersKnow(room: Room, sent: Sent) {
    forall id :: id in room.players ==> HostSeenBy(sent, room.players[id]) == Some(room.host.Some?)
  }

  /** The players that joined after the host took its place. */
  function JoinedAfter(room: Room, placed: Places): set<SocketId>
    requires room.host.Some? && room.host.value in placed
    requires forall id :: id in room.players ==> room.players[id] in placed
  {
    set id | id in room.players && placed[room.players[id]].at > placed[room.host.value].at
  }

  ghost predicate HostKnows(room: Room, sent: Sent, placed: Places)
    requires room.host.Some? ==> room.host.value in placed
    requires forall id :: id in room.players ==> room.players[id] in placed
  {
    room.host.Some? ==> RosterOf(sent, room.host.value) == JoinedAfter(room, placed)
  }

  ghost predicate RoomInv(roomId: RoomId, room: Room, sent: Sent, placed: Places) {
    RoomKept(roomId, room, placed) && PlayersKnow(room, sent) && HostKnows(room, sent, placed)
  }

  ghost predicate Inv(w: World) {
    && (forall id :: id in w.state.rooms ==> RoomInv(id, w.state.rooms[id], w.state.sent, w.placed))
    && (forall socket :: socket in w.placed ==> w.placed[socket].at < w.calls)
  }

  // ---------------------------------------------------------------- one call touches one room

  /** Nobody who was added to another room reads anything new. */
  ghost predicate OthersHearNothing(sent: Sent, next: Sent, placed: Places, roomId: RoomId) {
    forall socket :: socket in placed && placed[socket].room != roomId ==>
      HostSeenBy(next, socket) == HostSeenBy(sent, socket) && RosterOf(next, socket) == RosterOf(sent, socket)
  }

  ghost predicate PlacesExtend(placed: Places, next: Places) {
    forall socket :: socket in placed ==> socket in next && next[socket] == placed[socket]
  }

  lemma OtherRoomKept(id: RoomId, room: Room, sent: Sent, next: Sent,
                      placed: Places, placed1: Places, touched: RoomId)
    requires RoomInv(id, room, sent, placed) && id != touched
    requires OthersHearNothing(sent, next, placed, touched) && PlacesExtend(placed, placed1)
    ensures RoomInv(id, room, next, placed1)
  {
    hide HostSeenBy, RosterOf;
    SamePlaces(id, room, sent, placed, placed1);
    assert forall x :: x in room.players ==> room.players[x] in placed && placed[room.players[x]].room == id;
  }

  /** What a call has to show about the room it touches. */
  ghost predicate TouchesWell(w: World, next: State, placed: Places, roomId: RoomId) {
    && next.rooms - {roomId} == w.state.rooms - {roomId}
    && PlacesExtend(w.placed, placed)
    && OthersHearNothing(w.state.sent, next.sent, w.placed, roomId)
    && (roomId in next.rooms ==> RoomInv(roomId, next.rooms[roomId], next.sent, placed))
  }

  lemma TouchedRoomSuffices(w: World, call: Call)
    requires Inv(w) && Enabled(w, call)
    requires TouchesWell(w, Next(w, call).state, Next(w, call).placed, call.room)
    ensures Inv(Next(w, call))
  {
    var w1 := Next(w, call);
    assert forall socket :: socket in w1.placed ==> w1.placed[socket].at < w1.calls;
    hide After, RoomInv, OthersHearNothing, PlacesExtend;
    forall id | id in w1.state.rooms
      ensures RoomInv(id, w1.state.rooms[id], w1.state.sent, w1.placed)
    {
      if id != call.room {
        assert id in w1.state.rooms - {call.room};
        assert id in w.state.rooms && w1.state.rooms[id] == w.state.rooms[id];
        OtherRoomKept(id, w.state.rooms[id], w.state.sent, w1.state.sent, w.placed, w1.placed, call.room);
      }
    }
  }

  /** Frames to sockets of the room, or to a new socket, are not heard elsewhere. */
  lemma HeardInRoom(sent: Sent, next: Sent, sockets: set<Socket>, frame: Frame, placed: Places, roomId: RoomId)
    requires Reads(sent, next, sockets, frame)
    requires forall socket :: socket in sockets && socket in placed ==> placed[socket].room == roomId
    ensures OthersHearNothing(sent, next, placed, roomId)
  {
    hide HostSeenBy, RosterOf, Heard, Listed;
  }

  lemma HearingNothingTwice(sent: Sent, next: Sent, last: Sent, placed: Places, roomId: RoomId)
    requires OthersHearNothing(sent, next, placed, roomId) && OthersHearNothing(next, last, placed, roomId)
    ensures OthersHearNothing(sent, last, placed, roomId)
  {
    hide HostSeenBy, RosterOf;
  }

  lemma PlayersArePlaced(roomId: RoomId, room: Room, placed: Places)
    requires forall id :: id in room.players ==> room.players[id] in placed && placed[room.players[id]].room == roomId
    ensures forall other :: other in room.players.Values ==> other in placed && placed[other].room == roomId
  {
    forall other | other in room.players.Values
      ensures other in placed && placed[other].room == roomId
    {
      var id := KeyOf(room.players, other);
    }
  }

  /** A room with the invariant, or the empty room that a call starts from. */
  ghost predicate RoomBefore(roomId: RoomId, room: Room, sent: Sent, placed: Places) {
    room == EMPTY_ROOM || RoomInv(roomId, room, sent, placed)
  }

  /** The new host is ready with an empty roster, and every player hears that it is online. */
  lemma NewHostInformed(roomId: RoomId, room: Room, sent: Sent, ready: Sent, next: Sent,
                        placed: Places, socket: Socket, calls: nat)
    requires RoomBefore(roomId, room, sent, placed)
    requires forall other :: other in placed ==> other.id != socket.id && placed[other].at < calls
    requires Reads(sent, ready, {socket}, Ready) && Reads(ready, next, room.players.Values, HostOnline(true))
    ensures RoomInv(roomId, room.(host := Some(socket)), next, placed[socket := Place(roomId, true, calls)])
    ensures forall other :: other in room.players.Values ==> other in placed && placed[other].room == roomId
  {
    hide HostSeenBy, RosterOf;
    var room1, placed1 := room.(host := Some(socket)), placed[socket := Place(roomId, true, calls)];
    assert forall id :: id in room.players ==> room.players[id] in room.players.Values && room.players[id] in placed;
    PlayersArePlaced(roomId, room, placed);
    assert socket !in room.players.Values;
    assert JoinedAfter(room1, placed1) == {};
  }

  lemma HostAdded(w: World, roomId: RoomId, socket: Socket)
    requires Inv(w) && Enabled(w, AddHost(roomId, socket))
    ensures TouchesWell(w, WithHost(w.state, roomId, socket), w.placed[socket := Place(roomId, true, w.calls)], roomId)
  {
    hide HostSeenBy, RosterOf, SendTo, SendToAll, Reads, RoomInv, OthersHearNothing;
    var room := RoomOf(w.state.rooms, roomId);
    var sent, ready := w.state.sent, SendTo(w.state.sent, socket, Ready);
    var next := SendToAll(ready, room.players.Values, HostOnline(true));
    SendIsRead(sent, socket, Ready);
    SendToAllIsRead(ready, room.players.Values, HostOnline(true));
    assert RoomBefore(roomId, room, sent, w.placed);
    hide RoomBefore;
    NewHostInformed(roomId, room, sent, ready, next, w.placed, socket, w.calls);
    HeardInRoom(sent, ready, {socket}, Ready, w.placed, roomId);
    HeardInRoom(ready, next, room.players.Values, HostOnline(true), w.placed, roomId);
    HearingNothingTwice(sent, ready, next, w.placed, roomId);
  }

  /** The host, if any, lists the new player, and the player hears whether there is one. */
  lemma NewPlayerInformed(roomId: RoomId, room: Room, sent: Sent, told: Sent, next: Sent,
                          placed: Places, socket: Socket, calls: nat)
    requires RoomBefore(roomId, room, sent, placed) && |room.players| < MAX_PLAYERS
    requires forall other :: other in placed ==> other.id != socket.id && placed[other].at < calls
    requires Reads(sent, told, HostSet(room), Join(socket.id))
        && Reads(told, next, {socket}, HostOnline(room.host.Some?))
    ensures RoomInv(roomId, room.(players := room.players[socket.id := socket]), next,
                    placed[socket := Place(roomId, false, calls)])
    ensures forall other :: other in HostSet(room) ==> other in placed && placed[other].room == roomId
  {
    hide HostSeenBy, RosterOf, HostSet;
    var room1, placed1 := room.(players := room.players[socket.id := socket]),
        placed[socket := Place(roomId, false, calls)];
    RoomKeptWithPlayer(roomId, room, placed, socket, calls);
    if room.host.Some? { NewestJoinsAfter(roomId, room, placed, socket, calls); }
    HostSetPlaced(roomId, room, placed);
    assert PlayersKnow(room1, next) by {
      assert forall id :: id in room.players ==> room.players[id] in placed && room.players[id] !in HostSet(room);
    }
    assert HostKnows(room, sent, placed);
    if room.host.Some? {
      assert room.host.value in HostSet(room);
    }
    hide JoinedAfter, RoomKept, PlayersKnow;
  }

  lemma HostSetPlaced(roomId: RoomId, room: Room, placed: Places)
    requires room == EMPTY_ROOM || RoomKept(roomId, room, placed)
    ensures forall other :: other in HostSet(room) ==>
        other in placed && placed[other].room == roomId && placed[other].host
    ensures room.host.Some? ==> room.host.value in HostSet(room)
  {
  }

  lemma RoomKeptWithPlayer(roomId: RoomId, room: Room, placed: Places, socket: Socket, calls: nat)
    requires room == EMPTY_ROOM || RoomKept(roomId, room, placed)
    requires |room.players| < MAX_PLAYERS
    requires forall other :: other in placed ==> other.id != socket.id && placed[other].at < calls
    ensures var room1 := room.(players := room.players[socket.id := socket]);
            var placed1 := placed[socket := Place(roomId, false, calls)];
            RoomKept(roomId, room1, placed1)
  {
    hide JoinedAfter;
    var room1 := room.(players := room.players[socket.id := socket]);
    assert room1.players.Keys == room.players.Keys + {socket.id};
  }

  lemma NewestJoinsAfter(roomId: RoomId, room: Room, placed: Places, socket: Socket, calls: nat)
    requires RoomKept(roomId, room, placed) && room.host.Some?
    requires forall other :: other in placed ==> other.id != socket.id && placed[other].at < calls
    requires RoomKept(roomId, room.(players := room.players[socket.id := socket]),
                      placed[socket := Place(roomId, false, calls)])
    ensures JoinedAfter(room.(players := room.players[socket.id := socket]),
        placed[socket := Place(roomId, false, calls)])
         == JoinedAfter(room, placed) + {socket.id}
  {
    var placed1 := placed[socket := Place(roomId, false, calls)];
    assert forall id :: id in room.players ==> id != socket.id && placed1[room.players[id]] == placed[room.players[id]];
  }

  function HostSet(room: Room): set<Socket> {
    if room.host.Some? then {room.host.value} else {}
  }

  lemma SendToHostIsRead(sent: Sent, room: Room, frame: Frame)
    ensures Reads(sent, SendToHost(sent, room, frame), HostSet(room), frame)
  {
    if room.host.Some? { SendIsRead(sent, room.host.value, frame); }
  }

  lemma PlayerAdded(w: World, roomId: RoomId, socket: Socket)
    requires Inv(w) && Enabled(w, AddPlayer(roomId, socket)) && !Full(w.state.rooms, roomId)
    ensures TouchesWell(w, WithPlayer(w.state, roomId, socket),
                        w.placed[socket := Place(roomId, false, w.calls)], roomId)
  {
    hide HostSeenBy, RosterOf, SendTo, SendToHost, Reads, RoomInv, OthersHearNothing, HostSet;
    var room := RoomOf(w.state.rooms, roomId);
    var sent, told := w.state.sent, SendToHost(w.state.sent, room, Join(socket.id));
    var next := SendTo(told, socket, HostOnline(room.host.Some?));
    SendToHostIsRead(sent, room, Join(socket.id));
    SendIsRead(told, socket, HostOnline(room.host.Some?));
    assert RoomBefore(roomId, room, sent, w.placed);
    hide RoomBefore;
    NewPlayerInformed(roomId, room, sent, told, next, w.placed, socket, w.calls);
    HeardInRoom(sent, told, HostSet(room), Join(socket.id), w.placed, roomId);
    HeardInRoom(told, next, {socket}, HostOnline(room.host.Some?), w.placed, roomId);
    HearingNothingTwice(sent, told, next, w.placed, roomId);
  }

  lemma PlayerRefused(w: World, roomId: RoomId, socket: Socket)
    requires Inv(w) && Enabled(w, AddPlayer(roomId, socket)) && Full(w.state.rooms, roomId)
    ensures TouchesWell(w, w.state, w.placed[socket := Place(roomId, false, w.calls)], roomId)
  {
    hide HostSeenBy, RosterOf, RoomInv;
    var room, placed := RoomOf(w.state.rooms, roomId), w.placed[socket := Place(roomId, false, w.calls)];
    assert room != EMPTY_ROOM;
    SamePlaces(roomId, room, w.state.sent, w.placed, placed);
  }

  lemma SamePlaces(roomId: RoomId, room: Room, sent: Sent, placed: Places, placed1: Places)
    requires RoomInv(roomId, room, sent, placed) && PlacesExtend(placed, placed1)
    ensures RoomInv(roomId, room, sent, placed1)
  {
    hide HostSeenBy, RosterOf;
    if room.host.Some? {
      assert forall x :: x in room.players ==> placed1[room.players[x]] == placed[room.players[x]];
      assert JoinedAfter(room, placed1) == JoinedAfter(room, placed);
    }
  }

  lemma HostGone(roomId: RoomId, room: Room, sent: Sent, next: Sent, placed: Places)
    requires RoomInv(roomId, room, sent, placed) && room.host.Some?
    requires Reads(sent, next, room.players.Values, HostOnline(false))
    ensures room.players.Keys != {} ==> RoomInv(roomId, room.(host := None), next, placed)
    ensures forall other :: other in room.players.Values ==> other in placed && placed[other].room == roomId
  {
    hide HostSeenBy, RosterOf;
    PlayersArePlaced(roomId, room, placed);
    assert forall id :: id in room.players ==> room.players[id] in room.players.Values;
  }

  lemma PlayerGone(roomId: RoomId, room: Room, sent: Sent, next: Sent, placed: Places, socket: Socket)
    requires RoomInv(roomId, room, sent, placed) && IsPlayer(room, socket) && room.host != Some(socket)
    requires Reads(sent, next, HostSet(room), Left(socket.id))
    ensures var room1 := room.(players := room.players - {socket.id});
            room1.host.Some? || room1.players.Keys != {} ==> RoomInv(roomId, room1, next, placed)
    ensures forall other :: other in HostSet(room) ==> other in placed && placed[other].room == roomId
  {
    hide HostSeenBy, RosterOf;
    var room1 := room.(players := room.players - {socket.id});
    assert room1.players.Keys == room.players.Keys - {socket.id};
    if room.host.Some? {
      assert JoinedAfter(room1, placed) == JoinedAfter(room, placed) - {socket.id};
    }
  }

  lemma SocketRemoved(w: World, roomId: RoomId, socket: Socket)
    requires Inv(w) && roomId in w.state.rooms
    ensures TouchesWell(w, Without(w.state, roomId, socket), w.placed, roomId)
  {
    hide HostSeenBy, RosterOf, SendTo, SendToHost, SendToAll, Reads, RoomInv, OthersHearNothing, HostSet;
    var room, sent := w.state.rooms[roomId], w.state.sent;
    SendToAllIsRead(sent, room.players.Values, HostOnline(false));
    SendToHostIsRead(sent, room, Left(socket.id));
    var offline, left := SendToAll(sent, room.players.Values, HostOnline(false)),
        SendToHost(sent, room, Left(socket.id));
    if room.host == Some(socket) {
      HostGone(roomId, room, sent, offline, w.placed);
      HeardInRoom(sent, offline, room.players.Values, HostOnline(false), w.placed, roomId);
    } else if IsPlayer(room, socket) {
      PlayerGone(roomId, room, sent, left, w.placed, socket);
      HeardInRoom(sent, left, HostSet(room), Left(socket.id), w.placed, roomId);
    } else {
      RoomIsNotEmpty(roomId, room, sent, w.placed);
      NothingHeard(sent, w.placed, roomId);
    }
  }

  lemma NothingHeard(sent: Sent, placed: Places, roomId: RoomId)
    ensures OthersHearNothing(sent, sent, placed, roomId)
  {
  }

  lemma RoomIsNotEmpty(roomId: RoomId, room: Room, sent: Sent, placed: Places)
    requires RoomInv(roomId, room, sent, placed)
    ensures room.host.Some? || room.players.Keys != {}
  {
  }

  /** Messages and control frames are read without effect on the host status and the roster. */
  lemma MessageInformsNobody(roomId: RoomId, room: Room, sent: Sent, next: Sent, placed: Places,
                             sockets: set<Socket>, frame: Frame)
    requires RoomInv(roomId, room, sent, placed) && Reads(sent, next, sockets, frame)
    requires frame.HostMessage? || frame.PlayerMessage? || frame.Control?
    ensures RoomInv(roomId, room, next, placed) && OthersHearNothing(sent, next, placed, roomId)
  {
    hide HostSeenBy, RosterOf, JoinedAfter;
  }

  lemma MessageRelayed(w: World, call: Call)
    requires Inv(w) && (call.FromHost? || call.FromPlayer? || call.ToHost? || call.CloseHost?)
        && call.room in w.state.rooms
    ensures TouchesWell(w, After(w.state, call), w.placed, call.room)
  {
    hide HostSeenBy, RosterOf, SendTo, SendToHost, SendToAll, Reads, RoomInv, OthersHearNothing, HostSet;
    var room, sent := w.state.rooms[call.room], w.state.sent;
    NothingHeard(sent, w.placed, call.room);
    match call {
      case FromHost(roomId, _, data) =>
        SendToAllIsRead(sent, room.players.Values, HostMessage(data));
        MessageInformsNobody(roomId, room, sent, SendToAll(sent, room.players.Values, HostMessage(data)), w.placed,
                             room.players.Values, HostMessage(data));
      case FromPlayer(roomId, socket, data) =>
        SendToHostIsRead(sent, room, PlayerMessage(socket.id, data));
        MessageInformsNobody(roomId, room, sent, SendToHost(sent, room, PlayerMessage(socket.id, data)), w.placed,
                             HostSet(room), PlayerMessage(socket.id, data));
      case ToHost(roomId, name) =>
        SendToHostIsRead(sent, room, Control(name));
        MessageInformsNobody(roomId, room, sent, SendToHost(sent, room, Control(name)), w.placed, HostSet(room),
            Control(name));
      case _ =>
    }
  }

  lemma CallKeepsInv(w: World, call: Call)
    requires Inv(w) && Enabled(w, call)
    ensures Inv(Next(w, call))
  {
    hide Inv, TouchesWell, WithHost, Without, SendTo, SendToHost;
    hide AfterHostMessage, AfterPlayerMessage, AfterControl, AfterCloseHost;
    match call
    case AddHost(roomId, socket) =>
      HostAdded(w, roomId, socket);
      TouchedRoomSuffices(w, call);
    case AddPlayer(roomId, socket) =>
      if Full(w.state.rooms, roomId) { PlayerRefused(w, roomId, socket); } else { PlayerAdded(w, roomId, socket); }
      TouchedRoomSuffices(w, call);
    case Remove(roomId, socket) =>
      if roomId in w.state.rooms {
        SocketRemoved(w, roomId, socket);
        TouchedRoomSuffices(w, call);
      } else {
        NobodyThere(w, call);
      }
    case _ =>
      if call.room in w.state.rooms {
        MessageRelayed(w, call);
        TouchedRoomSuffices(w, call);
      } else {
        NobodyThere(w, call);
      }
  }

  lemma NobodyThere(w: World, call: Call)
    requires Inv(w) && !call.AddHost? && !call.AddPlayer? && call.room !in w.state.rooms
    ensures Inv(Next(w, call))
  {
    assert After(w.state, call) == w.state;
    hide RoomInv;
  }

  // ---------------------------------------------------------------- all call sequences

  ghost predicate ValidRun(calls: seq<Call>)
    decreases |calls|, 0
  {
    calls == [] ||
    var n := |calls| - 1;
    ValidRun(calls[..n]) && Enabled(Reached(calls[..n]), calls[n])
  }

  ghost function Reached(calls: seq<Call>): World
    requires ValidRun(calls)
    decreases |calls|, 1
  {
    if calls == [] then INITIAL else Next(Reached(calls[..|calls| - 1]), calls[|calls| - 1])
  }

  lemma {:induction false} RunKeepsInv(calls: seq<Call>)
    requires ValidRun(calls)
    ensures Inv(Reached(calls))
  {
    hide Next, Enabled;
    if calls != [] {
      hide Inv;
      RunKeepsInv(calls[..|calls| - 1]);
      CallKeepsInv(Reached(calls[..|calls| - 1]), calls[|calls| - 1]);
    }
  }

  /** Each player's last host frame says online exactly when its room has a host. */
  lemma PlayersAreInformed(calls: seq<Call>, roomId: RoomId, id: SocketId)
    requires ValidRun(calls) && roomId in Reached(calls).state.rooms && id in Reached(calls).state.rooms[roomId].players
    ensures var s := Reached(calls).state;
            LastHost(FramesOf(s.sent, s.rooms[roomId].players[id])) == Some(s.rooms[roomId].host.Some?)
  {
    RunKeepsInv(calls);
    hide LastHost;
  }

  /** For the current host, joins minus lefts since its ready are exactly the present players that
      joined after it. */
  lemma HostIsInformed(calls: seq<Call>, roomId: RoomId)
    requires ValidRun(calls) && roomId in Reached(calls).state.rooms && Reached(calls).state.rooms[roomId].host.Some?
    ensures var w := Reached(calls);
            var room := w.state.rooms[roomId];
            && room.host.value in w.placed
            && (forall id :: id in room.players ==> room.players[id] in w.placed)
            && forall id :: id in Roster(FramesOf(w.state.sent, room.host.value)) <==>
                  id in room.players && w.placed[room.players[id]].at > w.placed[room.host.value].at
  {
    RunKeepsInv(calls);
    hide Roster;
    var w := Reached(calls);
    assert RoomInv(roomId, w.state.rooms[roomId], w.state.sent, w.placed);
  }

  /** No empty room is kept, and no room holds more than 30 players. */
  lemma RoomsAreBounded(calls: seq<Call>, roomId: RoomId)
    requires ValidRun(calls) && roomId in Reached(calls).state.rooms
    ensures var room := Reached(calls).state.rooms[roomId];
            (room.host.Some? || |room.players| > 0) && |room.players| <= 30
  {
    RunKeepsInv(calls);
    var w := Reached(calls);
    assert RoomInv(roomId, w.state.rooms[roomId], w.state.sent, w.placed);
    hide HostSeenBy, RosterOf;
  }

  /** A present player's message reaches its host and nobody else, the host's message reaches
      exactly the players of its room. */
  lemma MessagesAreDelivered(s: State, roomId: RoomId, socket: Socket, data: Data, other: Socket)
    requires roomId in s.rooms
    ensures s.rooms[roomId].host.Some? && IsPlayer(s.rooms[roomId], socket) ==>
              FramesOf(AfterPlayerMessage(s, roomId, socket, data).sent, other)
                == FramesOf(s.sent, other)
                   + (if s.rooms[roomId].host == Some(other) then [PlayerMessage(socket.id, data)] else [])
    ensures s.rooms[roomId].host == Some(socket) ==>
              FramesOf(AfterHostMessage(s, roomId, socket, data).sent, other)
                == FramesOf(s.sent, other)
                   + (if other in s.rooms[roomId].players.Values then [HostMessage(data)] else [])
  {
    assert FramesOf(s.sent, other) + [] == FramesOf(s.sent, other);
  }

  /** Added once, and no longer in its place. */
  predicate IsGone(w: World, socket: Socket) {
    && socket in w.placed
    && var room := RoomOf(w.state.rooms, w.placed[socket].room);
    && room.host != Some(socket) && !IsPlayer(room, socket)
  }

  /** Whatever comes from a socket that was replaced or removed changes nothing. */
  lemma GoneSocketsChangeNothing(calls: seq<Call>, socket: Socket, roomId: RoomId, data: Data)
    requires ValidRun(calls) && IsGone(Reached(calls), socket)
    ensures var s := Reached(calls).state;
            && Without(s, roomId, socket) == s
            && AfterHostMessage(s, roomId, socket, data) == s
            && AfterPlayerMessage(s, roomId, socket, data) == s
  {
    RunKeepsInv(calls);
    var w := Reached(calls);
    hide HostSeenBy, RosterOf;
    if roomId in w.state.rooms {
      assert RoomInv(roomId, w.state.rooms[roomId], w.state.sent, w.placed);
      assert w.state.rooms[roomId := w.state.rooms[roomId]] == w.state.rooms;
    }
  }

  lemma CallKeepsGone(w: World, call: Call, socket: Socket)
    requires Inv(w) && Enabled(w, call) && IsGone(w, socket)
    ensures IsGone(Next(w, call), socket)
  {
    hide RoomInv, SendTo, SendToHost, SendToAll;
  }

  /** Once gone, for ever gone: a replaced host never comes back. */
  lemma {:induction false} GoneForever(calls: seq<Call>, more: seq<Call>, socket: Socket)
    requires ValidRun(calls) && ValidRun(calls + more) && IsGone(Reached(calls), socket)
    ensures IsGone(Reached(calls + more), socket)
    decreases |more|
  {
    hide Next, Enabled, Inv, IsGone;
    if more == [] {
      assert calls + more == calls;
    } else {
      var n := |more| - 1;
      assert (calls + more)[..|calls + more| - 1] == calls + more[..n];
      GoneForever(calls, more[..n], socket);
      RunKeepsInv(calls + more[..n]);
      CallKeepsGone(Reached(calls + more[..n]), more[n], socket);
    }
  }

  /** A host whose place another TV takes is closed with 4010 and gone from then on. */
  lemma ReplacedHostIsGone(calls: seq<Call>, roomId: RoomId, previous: Socket, next: Socket, more: seq<Call>)
    requires ValidRun(calls) && Enabled(Reached(calls), AddHost(roomId, next))
    requires roomId in Reached(calls).state.rooms && Reached(calls).state.rooms[roomId].host == Some(previous)
    requires ValidRun(calls + [AddHost(roomId, next)]) && ValidRun(calls + [AddHost(roomId, next)] + more)
    ensures var replaced := calls + [AddHost(roomId, next)];
            && Reached(replaced).state.closed == Reached(calls).state.closed + [(previous, REPLACED)]
            && IsGone(Reached(replaced + more), previous)
  {
    var replaced := calls + [AddHost(roomId, next)];
    assert replaced[..|replaced| - 1] == calls;
    RunKeepsInv(calls);
    var w := Reached(calls);
    hide HostSeenBy, RosterOf, SendTo, SendToAll;
    assert RoomInv(roomId, w.state.rooms[roomId], w.state.sent, w.placed);
    assert Reached(replaced) == Next(w, AddHost(roomId, next));
    assert IsGone(Reached(replaced), previous);
    GoneForever(replaced, more, previous);
  }
}
