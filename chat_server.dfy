/** The real-time chat server (backend/index.js): the token gate on new
    connections and the `join-room`, `leave-room`, `send-message` and
    `disconnect` handlers. The handlers run one at a time, each as one atomic
    step; what they emit is returned as a list of emits instead of being
    written to sockets. */
module ChatServer {
  import opened Common
  import opened RoomSchema
  import opened RoomRoutes

  type Token = string

  /** The user document as `User.findById(id).select('username')` returns it. */
  datatype Author = Author(id: UserId, username: string)

  /** What that lookup produced: the document, `null`, or a thrown error. */
  datatype UserLookup = Found(author: Author) | NoSuchUser | LookupFailed

  /** The server-to-client events. */
  datatype Event =
    | Error(reason: string)
    | RoomJoined(room: Room)
    | UserJoined(userId: UserId)
    | UserLeft(userId: UserId)
    | NewMessage(author: Option<Author>, content: string, createdAt: int)

  /** One emit: an event and the set of sockets it is delivered to. */
  datatype Emit = Emit(to: set<SocketId>, event: Event)

  /** The outcome of the `io.use` middleware. */
  datatype Handshake = Accepted(userId: UserId) | Refused(error: string)

  /** `io.use`: a missing or empty token, or one that `jwt.verify` rejects,
      refuses the connection with the same error; otherwise the session's
      user is the token's `id` claim. `verify` stands for `jwt.verify` with
      the server's secret and gives the `id` claim of a token it accepts. */
  function Authenticate(token: Option<Token>, verify: Token -> Option<UserId>): (r: Handshake)
    ensures r.Accepted? <==> token.Some? && token.value != "" && verify(token.value).Some?
    ensures r.Accepted? ==> r.userId == verify(token.value).value
    ensures r.Refused? ==> r.error == "Authentication error"
  {
    if token.None? || token.value == "" then Refused("Authentication error")
    else match verify(token.value)
      case None => Refused("Authentication error")
      case Some(id) => Accepted(id)
  }

  /** The sockets currently in a Socket.IO room. */
  function Subscribers(subs: map<RoomId, set<SocketId>>, room: RoomId): set<SocketId> {
    if room in subs then subs[room] else {}
  }

  /** `socket.join(room)`. */
  function Subscribed(subs: map<RoomId, set<SocketId>>, room: RoomId, s: SocketId): (r: map<RoomId, set<SocketId>>)
    ensures Subscribers(r, room) == Subscribers(subs, room) + {s}
    ensures forall other :: other != room ==> Subscribers(r, other) == Subscribers(subs, other)
  {
    subs[room := Subscribers(subs, room) + {s}]
  }

  /** `socket.leave(room)`; leaving a room one is not in changes nothing. */
  function Unsubscribed(subs: map<RoomId, set<SocketId>>, room: RoomId, s: SocketId): (r: map<RoomId, set<SocketId>>)
    ensures Subscribers(r, room) == Subscribers(subs, room) - {s}
    ensures forall other :: other != room ==> Subscribers(r, other) == Subscribers(subs, other)
    ensures s !in Subscribers(subs, room) ==> forall x :: Subscribers(r, x) == Subscribers(subs, x)
  {
    if room in subs then subs[room := subs[room] - {s}] else subs
  }

  /** What the transport does when a socket disconnects: it leaves every room. */
  function Disconnected(subs: map<RoomId, set<SocketId>>, s: SocketId): (r: map<RoomId, set<SocketId>>)
    ensures forall room :: s !in Subscribers(r, room)
    ensures forall room :: Subscribers(r, room) == Subscribers(subs, room) - {s}
  {
    map room | room in subs :: subs[room] - {s}
  }

  /** Joining a room and then leaving it gives every room the subscribers it
      had, for a socket that was not in the room before. */
  lemma JoinThenLeave(subs: map<RoomId, set<SocketId>>, room: RoomId, s: SocketId, x: RoomId)
    requires s !in Subscribers(subs, room)
    ensures Subscribers(Unsubscribed(Subscribed(subs, room, s), room, s), x) == Subscribers(subs, x)
  {
    if x == room {
      assert Subscribers(subs, room) + {s} - {s} == Subscribers(subs, room);
    }
  }

  class Server {
    /** The Room collection, shared with the REST routes. */
    const directory: RoomStore
    /** `socket.userId` of every connected socket. */
    var sessions: map<SocketId, UserId>
    /** The live Socket.IO rooms: which sockets receive what is sent to a room. */
    var subscriptions: map<RoomId, set<SocketId>>

    /** The stored rooms are valid, and only connected sockets are subscribed. */
    ghost predicate Valid()
      reads this, directory
    {
      && directory.Valid()
      && forall room :: room in subscriptions ==> subscriptions[room] <= sessions.Keys
    }

    constructor (directory: RoomStore)
      requires directory.Valid()
      ensures Valid()
      ensures this.directory == directory && sessions == map[] && subscriptions == map[]
    {
      this.directory := directory;
      sessions := map[];
      subscriptions := map[];
    }

    /** A new connection with a fresh socket id goes through the handshake;
        only an accepted one gets a session. */
    method Connect(socket: SocketId, token: Option<Token>, verify: Token -> Option<UserId>)
      returns (r: Handshake)
      requires Valid() && socket !in sessions
      modifies this
      ensures Valid()
      ensures r == Authenticate(token, verify)
      ensures sessions == if r.Accepted? then old(sessions)[socket := r.userId] else old(sessions)
      ensures subscriptions == old(subscriptions)
    {
      r := Authenticate(token, verify);
      if r.Accepted? {
        sessions := sessions[socket := r.userId];
      }
    }

    /** `join-room`. `saveOk` is whether `room.save()` succeeds when the
        participant list changed. The socket is subscribed before that save,
        so a failed save leaves it subscribed and the participants as stored. */
    method JoinRoom(socket: SocketId, roomId: RoomId, saveOk: bool) returns (out: seq<Emit>)
      requires Valid() && socket in sessions
      modifies this, directory
      ensures Valid() && sessions == old(sessions)
      ensures roomId !in old(directory.rooms) ==>
        && out == [Emit({socket}, Error("Room not found"))]
        && directory.rooms == old(directory.rooms) && subscriptions == old(subscriptions)
      ensures roomId in old(directory.rooms) ==>
        var user := sessions[socket];
        var room := old(directory.rooms)[roomId];
        var joined := WithParticipant(room, user);
        && subscriptions == Subscribed(old(subscriptions), roomId, socket)
        && if user in room.participants || saveOk then
             && directory.rooms == old(directory.rooms)[roomId := joined]
             && out == [Emit({socket}, RoomJoined(joined)),
                        Emit(Subscribers(subscriptions, roomId) - {socket}, UserJoined(user))]
           else
             && directory.rooms == old(directory.rooms)
             && out == [Emit({socket}, Error("Failed to join room"))]
    {
      if roomId !in directory.rooms {
        return [Emit({socket}, Error("Room not found"))];
      }
      var room := directory.rooms[roomId];
      var user := sessions[socket];
      subscriptions := Subscribed(subscriptions, roomId, socket);
      if user !in room.participants {
        room := WithParticipant(room, user);
        if !saveOk {
          return [Emit({socket}, Error("Failed to join room"))];
        }
        directory.rooms := directory.rooms[roomId := room];
      }
      out := [Emit({socket}, RoomJoined(room)),
              Emit(Subscribers(subscriptions, roomId) - {socket}, UserJoined(user))];
    }

    /** `leave-room`: the socket leaves the live room and the sockets still in
        it hear about it; the stored participants stay as they are. */
    method LeaveRoom(socket: SocketId, roomId: RoomId) returns (out: seq<Emit>)
      requires Valid() && socket in sessions
      modifies this
      ensures Valid() && sessions == old(sessions)
      ensures directory.rooms == old(directory.rooms)
      ensures subscriptions == Unsubscribed(old(subscriptions), roomId, socket)
      ensures out == [Emit(Subscribers(subscriptions, roomId) - {socket}, UserLeft(sessions[socket]))]
    {
      subscriptions := Unsubscribed(subscriptions, roomId, socket);
      out := [Emit(Subscribers(subscriptions, roomId) - {socket}, UserLeft(sessions[socket]))];
    }

    /** `send-message`. `now` is the clock reading for `createdAt`, `saveOk`
        whether the store accepts the write, and `author` the outcome of the
        sender's user lookup. The message is saved only when the store accepts
        it and it passes validation (a user and a non-empty content); it is
        broadcast, sender included, only once it is saved and the lookup did
        not throw. */
    method SendMessage(socket: SocketId, roomId: RoomId, content: string, now: int,
                       saveOk: bool, author: UserLookup) returns (out: seq<Emit>)
      requires Valid() && socket in sessions
      modifies directory
      ensures Valid()
      ensures roomId !in old(directory.rooms) ==>
        out == [Emit({socket}, Error("Room not found"))] && directory.rooms == old(directory.rooms)
      ensures roomId in old(directory.rooms) ==>
        var message := MakeMessage(sessions[socket], content, now);
        if !saveOk || !ValidMessage(message) then
          && directory.rooms == old(directory.rooms)
          && out == [Emit({socket}, Error("Failed to send message"))]
        else
          && directory.rooms == old(directory.rooms)[roomId := Appended(old(directory.rooms)[roomId], message)]
          && out == if author.LookupFailed? then [Emit({socket}, Error("Failed to send message"))]
                    else [Emit(Subscribers(subscriptions, roomId),
                               NewMessage(if author.Found? then Some(author.author) else None, content, now))]
    {
      if roomId !in directory.rooms {
        return [Emit({socket}, Error("Room not found"))];
      }
      var message := MakeMessage(sessions[socket], content, now);
      var room := Appended(directory.rooms[roomId], message);
      if !saveOk || !ValidRoom(room) {
        return [Emit({socket}, Error("Failed to send message"))];
      }
      directory.rooms := directory.rooms[roomId := room];
      match author {
        case LookupFailed =>
          out := [Emit({socket}, Error("Failed to send message"))];
        case NoSuchUser =>
          out := [Emit(Subscribers(subscriptions, roomId), NewMessage(None, content, now))];
        case Found(a) =>
          out := [Emit(Subscribers(subscriptions, roomId), NewMessage(Some(a), content, now))];
      }
    }

    /** `disconnect`: the handler only logs; the transport takes the socket
        out of every live room and the session ends. No event is sent and the
        stored participants stay as they are. */
    method Disconnect(socket: SocketId)
      requires Valid() && socket in sessions
      modifies this
      ensures Valid()
      ensures sessions == old(sessions) - {socket}
      ensures subscriptions == Disconnected(old(subscriptions), socket)
      ensures directory.rooms == old(directory.rooms)
    {
      subscriptions := Disconnected(subscriptions, socket);
      sessions := sessions - {socket};
    }
  }
}
