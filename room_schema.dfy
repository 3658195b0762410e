/** The Mongoose schema of a chat room (backend/models/Room.js): the shape of
    a room document and of the messages it holds, which paths are required,
    which defaults apply, and the uniqueness of room names. */
module RoomSchema {
  import opened Common
  import opened Seqs
  import Text

  /** One entry of a room's message log. */
  datatype Message = Message(user: UserId, content: string, createdAt: int)

  datatype Room = Room(
    name: string,
    topic: string,
    description: string,
    creator: UserId,
    participants: seq<UserId>,
    messages: seq<Message>,
    createdAt: int,
    isActive: bool)

  /** Mongoose's `required` validator on a string or ObjectId path: the value
      is there and, for a string, not empty. */
  predicate Present(s: string) {
    s != ""
  }

  predicate ValidMessage(m: Message) {
    Present(m.user) && Present(m.content)
  }

  /** What `save` validates: every required path is present, and `name`, whose
      `trim` setter runs on every assignment, holds a trimmed value. */
  predicate ValidRoom(r: Room) {
    && Present(r.name) && Text.Trimmed(r.name)
    && Present(r.topic) && Present(r.description) && Present(r.creator)
    && forall i :: 0 <= i < |r.messages| ==> ValidMessage(r.messages[i])
  }

  /** Some stored room has exactly this name. */
  predicate NameTaken(rooms: map<RoomId, Room>, name: string) {
    exists id :: id in rooms && rooms[id].name == name
  }

  /** The `unique` index on `name`. */
  predicate UniqueNames(rooms: map<RoomId, Room>) {
    forall a, b :: a in rooms && b in rooms && a != b ==> rooms[a].name != rooms[b].name
  }

  /** Every document in the collection passed validation. */
  predicate AllValid(rooms: map<RoomId, Room>) {
    forall id :: id in rooms ==> ValidRoom(rooms[id])
  }

  /** No stored room lists a participant twice. The schema does not demand
      this; the chat server's join keeps it, and rooms are created with a
      single participant. */
  predicate ListedOnce(rooms: map<RoomId, Room>) {
    forall id :: id in rooms ==> NoDuplicates(rooms[id].participants)
  }

  /** Storing a valid document under an id keeps the collection valid, its
      names unique and its participant lists free of repeats, when the
      document keeps the name already stored under that id or takes a name no
      room holds, and lists no participant twice. */
  lemma StorePreservesInvariant(rooms: map<RoomId, Room>, id: RoomId, r: Room)
    requires UniqueNames(rooms) && AllValid(rooms) && ListedOnce(rooms) && ValidRoom(r)
    requires (id in rooms && r.name == rooms[id].name) || !NameTaken(rooms, r.name)
    requires NoDuplicates(r.participants)
    ensures UniqueNames(rooms[id := r]) && AllValid(rooms[id := r]) && ListedOnce(rooms[id := r])
  {
    var rooms' := rooms[id := r];
    forall a, b | a in rooms' && b in rooms' && a != b
      ensures rooms'[a].name != rooms'[b].name
    {
      if a == id {
        assert rooms'[b] == rooms[b];
      } else if b == id {
        assert rooms'[a] == rooms[a];
      }
    }
  }

  /** `new Room({...})`: the name goes through the trim setter, the message log
      starts empty, and `createdAt` and `isActive` take their defaults. */
  function NewRoom(name: string, topic: string, description: string, creator: UserId,
                   participants: seq<UserId>, now: int): (r: Room)
  {
    Room(Text.Trim(name), topic, description, creator, participants, [], now, true)
  }

  /** A new room stores the trimmed name, an empty log and the defaults
      `createdAt = now`, `isActive = true`; it passes validation exactly when
      the name is not blank and topic, description and creator are given. */
  lemma NewRoomValid(name: string, topic: string, description: string, creator: UserId,
                     participants: seq<UserId>, now: int)
    ensures var r := NewRoom(name, topic, description, creator, participants, now);
      && r.name == Text.Trim(name) && r.messages == [] && r.createdAt == now && r.isActive
      && r.creator == creator && r.participants == participants
      && (ValidRoom(r) <==> !Text.IsBlank(name) && Present(topic) && Present(description) && Present(creator))
  {
    var r := NewRoom(name, topic, description, creator, participants, now);
    Text.TrimmedIff(name);
    Text.TrimEmptyIffBlank(name);
  }

  /** A message built as the chat server builds it. `createdAt` is given
      explicitly there; the schema's default would be the same clock reading. */
  function MakeMessage(user: UserId, content: string, now: int): (m: Message)
    ensures ValidMessage(m) <==> Present(user) && Present(content)
  {
    Message(user, content, now)
  }

  /** `room.messages.push(m)`. */
  function Appended(r: Room, m: Message): (r': Room)
    ensures |r'.messages| == |r.messages| + 1
    ensures r'.messages[..|r.messages|] == r.messages && r'.messages[|r.messages|] == m
    ensures r'.(messages := r.messages) == r
    ensures ValidRoom(r) ==> (ValidRoom(r') <==> ValidMessage(m))
  {
    var r' := r.(messages := r.messages + [m]);
    assert r'.messages[|r.messages|] == m;
    r'
  }

  /** `if (!participants.includes(u)) participants.push(u)`. */
  function WithParticipant(r: Room, u: UserId): (r': Room)
    ensures u in r'.participants
    ensures forall v :: v in r'.participants <==> v in r.participants || v == u
    ensures |r'.participants| == |r.participants| + (if u in r.participants then 0 else 1)
    ensures r'.participants[..|r.participants|] == r.participants
    ensures r'.(participants := r.participants) == r
    ensures ValidRoom(r') <==> ValidRoom(r)
    ensures NoDuplicates(r.participants) ==> NoDuplicates(r'.participants)
  {
    if u in r.participants then r else r.(participants := r.participants + [u])
  }

  /** A user who joins is listed once more only if they were not listed. */
  lemma ParticipantCount(r: Room, u: UserId)
    ensures Count(WithParticipant(r, u).participants, u)
         == if u in r.participants then Count(r.participants, u) else 1
    ensures forall v :: v != u ==> Count(WithParticipant(r, u).participants, v) == Count(r.participants, v)
  {
    if u !in r.participants {
      forall v ensures Count(r.participants + [u], v) == Count(r.participants, v) + Count([u], v) {
        CountAppend(r.participants, [u], v);
      }
    }
  }

  /** The room after the same user joined `n` times. */
  function JoinedTimes(r: Room, u: UserId, n: nat): Room {
    if n == 0 then r else WithParticipant(JoinedTimes(r, u, n - 1), u)
  }

  /** Any number of joins (at least one) by a user leaves that user listed
      exactly once, provided they were not listed twice to begin with. */
  lemma {:induction false} RepeatedJoinsListOnce(r: Room, u: UserId, n: nat)
    requires n >= 1 && Count(r.participants, u) <= 1
    ensures Count(JoinedTimes(r, u, n).participants, u) == 1
  {
    if n == 1 {
      ParticipantCount(r, u);
      if u in r.participants {
        assert Count(r.participants, u) != 0;
      }
    } else {
      RepeatedJoinsListOnce(r, u, n - 1);
      var before := JoinedTimes(r, u, n - 1);
      assert u in before.participants;
      assert JoinedTimes(r, u, n) == before;
    }
  }

  /** In every stored room, any positive number of joins by the same user
      leaves that user listed exactly once. */
  lemma StoredRoomJoinsListOnce(rooms: map<RoomId, Room>, id: RoomId, u: UserId, n: nat)
    requires ListedOnce(rooms) && id in rooms && n >= 1
    ensures Count(JoinedTimes(rooms[id], u, n).participants, u) == 1
  {
    CountNoDuplicates(rooms[id].participants, u);
    RepeatedJoinsListOnce(rooms[id], u, n);
  }
}
