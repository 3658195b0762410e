/** The chat page of the client (frontend/src/components/ChatRooms.jsx): the
    message log it shows, kept up to date by the server's `room-joined` and
    `new-message` events, and the two user actions that talk to the server,
    choosing a room and sending a message. What the page emits is returned
    as a list instead of being written to the socket. */
module ChatClient {
  import opened Common
  import opened RoomSchema
  import opened ChatServer
  import Text

  /** One entry of the shown log: a message of the room's stored log, as
      `room-joined` delivers it, or one broadcast by `new-message`. */
  datatype Line =
    | Stored(message: Message)
    | Live(author: Option<Author>, content: string, createdAt: int)

  /** The client-to-server events. */
  datatype Request =
    | LeaveRoomRequest(roomId: RoomId)
    | JoinRoomRequest(roomId: RoomId)
    | SendMessageRequest(roomId: RoomId, content: string)

  /** The stored log as the page shows it after `room-joined`. */
  function StoredLines(messages: seq<Message>): (r: seq<Line>)
    ensures |r| == |messages|
    ensures forall i :: 0 <= i < |r| ==> r[i] == Stored(messages[i])
  {
    seq(|messages|, i requires 0 <= i < |messages| => Stored(messages[i]))
  }

  /** What a line says and when it was written, whichever way it arrived. */
  function Said(l: Line): (string, int) {
    match l
    case Stored(m) => (m.content, m.createdAt)
    case Live(_, content, createdAt) => (content, createdAt)
  }

  function SaidAll(log: seq<Line>): (r: seq<(string, int)>)
    ensures |r| == |log|
    ensures forall i :: 0 <= i < |r| ==> r[i] == Said(log[i])
  {
    seq(|log|, i requires 0 <= i < |log| => Said(log[i]))
  }

  function SaidMessages(messages: seq<Message>): (r: seq<(string, int)>)
    ensures |r| == |messages|
    ensures forall i :: 0 <= i < |r| ==> r[i] == (messages[i].content, messages[i].createdAt)
  {
    seq(|messages|, i requires 0 <= i < |messages| => (messages[i].content, messages[i].createdAt))
  }

  /** The log after one server event: `room-joined` replaces it with the
      room's stored log, `new-message` appends one line, and anything else
      (an `error`, or notices the page does not listen to) leaves it. */
  function AfterEvent(log: seq<Line>, e: Event): (r: seq<Line>)
    ensures e.RoomJoined? ==> r == StoredLines(e.room.messages)
    ensures e.NewMessage? ==> |r| == |log| + 1 && r[..|log|] == log && r[|log|] == Live(e.author, e.content, e.createdAt)
    ensures !e.RoomJoined? && !e.NewMessage? ==> r == log
  {
    match e
    case RoomJoined(room) => StoredLines(room.messages)
    case NewMessage(author, content, createdAt) => log + [Live(author, content, createdAt)]
    case _ => log
  }

  /** The log after a run of server events, in order. */
  function AfterEvents(log: seq<Line>, events: seq<Event>): seq<Line>
    decreases |events|
  {
    if events == [] then log else AfterEvents(AfterEvent(log, events[0]), events[1..])
  }

  /** The server's snapshot for a room and the broadcasts that follow it: after
      `room-joined` and then a run of `new-message` events, the page shows the
      stored log followed by one line per broadcast, in arrival order. */
  lemma {:induction false} JoinedThenBroadcast(log: seq<Line>, room: Room, news: seq<Event>)
    requires forall i :: 0 <= i < |news| ==> news[i].NewMessage?
    ensures var r := AfterEvents(log, [RoomJoined(room)] + news);
      && |r| == |room.messages| + |news|
      && r[..|room.messages|] == StoredLines(room.messages)
      && forall i :: 0 <= i < |news| ==>
           r[|room.messages| + i] == Live(news[i].author, news[i].content, news[i].createdAt)
  {
    assert ([RoomJoined(room)] + news)[1..] == news;
    AppendBroadcasts(StoredLines(room.messages), news);
  }

  /** A run of `new-message` events appends one line per event, in order. */
  lemma {:induction false} AppendBroadcasts(log: seq<Line>, news: seq<Event>)
    requires forall i :: 0 <= i < |news| ==> news[i].NewMessage?
    ensures var r := AfterEvents(log, news);
      && |r| == |log| + |news|
      && r[..|log|] == log
      && forall i :: 0 <= i < |news| ==> r[|log| + i] == Live(news[i].author, news[i].content, news[i].createdAt)
    decreases |news|
  {
    if news != [] {
      var next := AfterEvent(log, news[0]);
      AppendBroadcasts(next, news[1..]);
      var r := AfterEvents(log, news);
      assert r == AfterEvents(next, news[1..]);
      assert r[..|log|] == next[..|next|][..|log|];
      forall i | 0 <= i < |news| ensures r[|log| + i] == Live(news[i].author, news[i].content, news[i].createdAt) {
        if i > 0 {
          assert news[1..][i - 1] == news[i];
          assert r[|next| + (i - 1)] == r[|log| + i];
        }
      }
    }
  }

  /** A page whose log says what the server's stored log says stays in step
      with it when a message the server stored is broadcast to it. */
  lemma InStepAfterBroadcast(log: seq<Line>, messages: seq<Message>, m: Message, author: Option<Author>)
    requires SaidAll(log) == SaidMessages(messages)
    ensures SaidAll(AfterEvent(log, NewMessage(author, m.content, m.createdAt))) == SaidMessages(messages + [m])
  {
    var log' := AfterEvent(log, NewMessage(author, m.content, m.createdAt));
    forall i | 0 <= i < |log'| ensures SaidAll(log')[i] == SaidMessages(messages + [m])[i] {
      if i < |log| {
        assert log'[i] == log[i];
        assert SaidAll(log)[i] == SaidMessages(messages)[i];
      }
    }
  }

  /** After `room-joined` the page says what the room's stored log says. */
  lemma InStepAfterJoin(log: seq<Line>, room: Room)
    ensures SaidAll(AfterEvent(log, RoomJoined(room))) == SaidMessages(room.messages)
  {
  }

  class ChatPage {
    /** The room picked last, with the document the room route returned. */
    var activeRoom: Option<(RoomId, Room)>
    /** The shown log. */
    var messages: seq<Line>
    /** The text in the message box. */
    var newMessage: string
    var error: Option<string>

    constructor ()
      ensures activeRoom == None && messages == [] && newMessage == "" && error == None
    {
      activeRoom := None;
      messages := [];
      newMessage := "";
      error := None;
    }

    /** The socket's `room-joined` and `new-message` listeners; the `error`
        listener only logs. */
    method OnEvent(e: Event)
      modifies this
      ensures messages == AfterEvent(old(messages), e)
      ensures activeRoom == old(activeRoom) && newMessage == old(newMessage) && error == old(error)
    {
      match e {
        case RoomJoined(room) =>
          messages := StoredLines(room.messages);
        case NewMessage(author, content, createdAt) =>
          messages := messages + [Live(author, content, createdAt)];
        case _ =>
      }
    }

    /** The message box's `onChange`. */
    method Type(text: string)
      modifies this
      ensures newMessage == text
      ensures activeRoom == old(activeRoom) && messages == old(messages) && error == old(error)
    {
      newMessage := text;
    }

    /** `handleJoinRoom(roomId)`. `fetched` is what `GET /rooms/:id` gave,
        `None` when the request threw. The old room is left first, even when
        the fetch then fails and the page keeps showing it as active. */
    method HandleJoinRoom(roomId: RoomId, fetched: Option<Room>) returns (out: seq<Request>)
      modifies this
      ensures var leave := if old(activeRoom).Some? then [LeaveRoomRequest(old(activeRoom).value.0)] else [];
        if fetched.Some? then
          && out == leave + [JoinRoomRequest(roomId)]
          && activeRoom == Some((roomId, fetched.value)) && error == old(error)
        else
          && out == leave
          && activeRoom == old(activeRoom) && error == Some("Failed to join room")
      ensures messages == old(messages) && newMessage == old(newMessage)
    {
      out := [];
      if activeRoom.Some? {
        out := out + [LeaveRoomRequest(activeRoom.value.0)];
      }
      if fetched.None? {
        error := Some("Failed to join room");
        return;
      }
      activeRoom := Some((roomId, fetched.value));
      out := out + [JoinRoomRequest(roomId)];
    }

    /** `handleSendMessage`: nothing happens when the box holds only
        whitespace or no room is active; otherwise the box's text, untrimmed,
        is sent to the active room and the box is cleared. */
    method HandleSendMessage() returns (out: seq<Request>)
      modifies this
      ensures if Text.IsBlank(old(newMessage)) || old(activeRoom).None? then
          out == [] && newMessage == old(newMessage)
        else
          out == [SendMessageRequest(old(activeRoom).value.0, old(newMessage))] && newMessage == ""
      ensures activeRoom == old(activeRoom) && messages == old(messages) && error == old(error)
    {
      Text.TrimEmptyIffBlank(newMessage);
      if Text.Trim(newMessage) == [] || activeRoom.None? {
        return [];
      }
      out := [SendMessageRequest(activeRoom.value.0, newMessage)];
      newMessage := "";
    }
  }
}
