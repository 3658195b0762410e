/** The REST routes for rooms (backend/routes/rooms.js) over the room
    collection, kept in memory as a map from room id to room document. */
module RoomRoutes {
  import opened Common
  import opened Seqs
  import opened RoomSchema
  import Text

  /** `room.name = name; room.topic = topic; room.description = description`:
      the three edited paths change (the name through its trim setter) and
      nothing else does. */
  function Edited(r: Room, name: string, topic: string, description: string): (r': Room)
    ensures r'.name == Text.Trim(name) && r'.topic == topic && r'.description == description
    ensures r'.(name := r.name, topic := r.topic, description := r.description) == r
  {
    r.(name := Text.Trim(name), topic := topic, description := description)
  }

  /** An edit that keeps the stored name leaves it as it is, since a valid
      room's name is already trimmed. */
  lemma EditKeepsName(r: Room, topic: string, description: string)
    requires ValidRoom(r)
    ensures Edited(r, r.name, topic, description).name == r.name
  {
    Text.TrimmedIff(r.name);
  }

  /** The Room collection. */
  class RoomStore {
    var rooms: map<RoomId, Room>

    /** Every stored document passed validation, no two share a name, and
        none lists a participant twice. */
    ghost predicate Valid()
      reads this
    {
      UniqueNames(rooms) && AllValid(rooms) && ListedOnce(rooms)
    }

    constructor ()
      ensures Valid() && rooms == map[]
    {
      rooms := map[];
    }

    /** GET /api/rooms: every room, newest first. The `creator` population for
        display is not modelled. */
    method List() returns (r: seq<(RoomId, Room)>)
      ensures |r| == |rooms|
      ensures forall i :: 0 <= i < |r| ==> r[i].0 in rooms && rooms[r[i].0] == r[i].1
      ensures forall id :: id in rooms ==> (id, rooms[id]) in r
      ensures forall i, j :: 0 <= i < j < |r| ==> r[i].1.createdAt >= r[j].1.createdAt
    {
      var entries: seq<(RoomId, Room)> := [];
      var pending := rooms.Keys;
      while pending != {}
        invariant pending <= rooms.Keys
        invariant |entries| + |pending| == |rooms|
        invariant forall i :: 0 <= i < |entries| ==>
                    entries[i].0 in rooms && entries[i].0 !in pending && rooms[entries[i].0] == entries[i].1
        invariant forall id :: id in rooms && id !in pending ==> (id, rooms[id]) in entries
        decreases pending
      {
        var id :| id in pending;
        entries := entries + [(id, rooms[id])];
        pending := pending - {id};
      }
      var newestFirst := (e: (RoomId, Room)) => -e.1.createdAt;
      r := SortByKey(entries, newestFirst);
      forall id | id in rooms ensures (id, rooms[id]) in r {
        assert (id, rooms[id]) in multiset(entries);
      }
      forall i | 0 <= i < |r| ensures r[i].0 in rooms && rooms[r[i].0] == r[i].1 {
        assert r[i] in multiset(entries);
      }
      forall i, j | 0 <= i < j < |r| ensures r[i].1.createdAt >= r[j].1.createdAt {
        assert newestFirst(r[i]) <= newestFirst(r[j]);
      }
    }

    /** GET /api/rooms/:id: the stored document, or 404. Populating creator,
        participants and message authors with user names is not modelled. */
    function Get(id: RoomId): (r: Reply<Room>)
      reads this
      ensures r.Ok? <==> id in rooms
      ensures r.Ok? ==> r.value == rooms[id]
      ensures r.Fail? ==> r == Fail(404, "Room not found")
    {
      if id in rooms then Ok(rooms[id]) else Fail(404, "Room not found")
    }

    /** POST /api/rooms by `requester`. `newId` is the ObjectId the new
        document receives and `now` the clock reading for its `createdAt`. */
    method Create(name: string, topic: string, description: string, requester: UserId,
                  newId: RoomId, now: int) returns (r: Reply<RoomId>)
      requires Valid()
      modifies this
      ensures Valid()
      ensures var room := NewRoom(name, topic, description, requester, [requester], now);
        if NameTaken(old(rooms), Text.Trim(name)) then
          r == Fail(400, "Room name already exists") && rooms == old(rooms)
        else if newId in old(rooms) || !ValidRoom(room) then
          r == Fail(500, "Server error") && rooms == old(rooms)
        else
          r == Ok(newId) && rooms == old(rooms)[newId := room]
    {
      if exists id :: id in rooms && rooms[id].name == Text.Trim(name) {
        return Fail(400, "Room name already exists");
      }
      var room := NewRoom(name, topic, description, requester, [requester], now);
      if newId in rooms || !ValidRoom(room) {
        // `save` fails: a duplicate `_id` or a failed validation
        return Fail(500, "Server error");
      }
      StorePreservesInvariant(rooms, newId, room);
      rooms := rooms[newId := room];
      r := Ok(newId);
    }

    /** PUT /api/rooms/:id by `requester`. */
    method Update(id: RoomId, name: string, topic: string, description: string,
                  requester: UserId) returns (r: Reply<Room>)
      requires Valid()
      modifies this
      ensures Valid()
      ensures if id !in old(rooms) then
          r == Fail(404, "Room not found") && rooms == old(rooms)
        else
          var room := old(rooms)[id];
          var room' := Edited(room, name, topic, description);
          if room.creator != requester then
            r == Fail(403, "Not authorized") && rooms == old(rooms)
          else if name != room.name && NameTaken(old(rooms), Text.Trim(name)) then
            r == Fail(400, "Room name already exists") && rooms == old(rooms)
          else if !ValidRoom(room') then
            r == Fail(500, "Server error") && rooms == old(rooms)
          else
            r == Ok(room') && rooms == old(rooms)[id := room']
    {
      if id !in rooms {
        return Fail(404, "Room not found");
      }
      var room := rooms[id];
      if room.creator != requester {
        return Fail(403, "Not authorized");
      }
      if name != room.name {
        if exists other :: other in rooms && rooms[other].name == Text.Trim(name) {
          return Fail(400, "Room name already exists");
        }
      }
      var room' := Edited(room, name, topic, description);
      if !ValidRoom(room') {
        return Fail(500, "Server error");
      }
      if name == room.name {
        EditKeepsName(room, topic, description);
      }
      StorePreservesInvariant(rooms, id, room');
      rooms := rooms[id := room'];
      r := Ok(room');
    }

    /** DELETE /api/rooms/:id by `requester`. */
    method Delete(id: RoomId, requester: UserId) returns (r: Reply<string>)
      requires Valid()
      modifies this
      ensures Valid()
      ensures if id !in old(rooms) then
          r == Fail(404, "Room not found") && rooms == old(rooms)
        else if old(rooms)[id].creator != requester then
          r == Fail(403, "Not authorized") && rooms == old(rooms)
        else
          r == Ok("Room deleted") && rooms == old(rooms) - {id}
    {
      if id !in rooms {
        return Fail(404, "Room not found");
      }
      if rooms[id].creator != requester {
        return Fail(403, "Not authorized");
      }
      rooms := rooms - {id};
      r := Ok("Room deleted");
    }
  }
}
