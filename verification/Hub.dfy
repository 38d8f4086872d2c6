/** The hub in memory: clients, rooms and presence are maps the methods update in place
    (internal/adapter/handler/websockets/hub.go). Every mutator holds the hub's lock, so it is one step.
    Each is proved equal to the operation on `State` of the same name; that those keep the maps in step is
    proved there. */
module Hub {
  import H = HubState

  class Client {
    const id: string
    const userID: string
    var rooms: set<string>

    /** `NewClient`. */
    constructor (id: string, userID: string)
      ensures this.id == id && this.userID == userID && rooms == {}
    {
      this.id, this.userID, rooms := id, userID, {};
    }
  }

  /** The connection IDs of each room. */
  function RoomIDs(rooms: map<string, map<string, Client>>): H.Index {
    map r | r in rooms :: rooms[r].Keys
  }

  ghost function Members(clients: map<string, Client>): map<string, H.Member>
    reads clients.Values
  {
    map c | c in clients :: H.Member(clients[c].userID, clients[c].rooms)
  }

  /** Every client is filed under its own ID. */
  ghost predicate Filed(clients: map<string, Client>) {
    forall c :: c in clients ==> clients[c].id == c
  }

  /** The rooms hold registered clients. */
  ghost predicate Registered(clients: map<string, Client>, rooms: map<string, map<string, Client>>) {
    forall r, c :: r in rooms && c in rooms[r] ==> c in clients && rooms[r][c] == clients[c]
  }

  /** `delete(rooms[room], id)`, and the room with it once it is empty. */
  function Delete(rooms: map<string, map<string, Client>>, room: string, id: string): map<string, map<string, Client>> {
    if room !in rooms then rooms
    else if rooms[room] - {id} == map[] then rooms - {room}
    else rooms[room := rooms[room] - {id}]
  }

  lemma DeleteExits(rooms: map<string, map<string, Client>>, room: string, id: string)
    ensures RoomIDs(Delete(rooms, room, id)) == H.Exit(RoomIDs(rooms), room, id)
  {
    if room in rooms {
      assert (rooms[room] - {id}).Keys == rooms[room].Keys - {id};
      if rooms[room].Keys - {id} == {} {
        assert rooms[room] - {id} == map[];
      }
    }
  }

  /** `rooms[room][id] = c`, the room being made if it is not there. */
  function Insert(rooms: map<string, map<string, Client>>, room: string, id: string,
                  c: Client): map<string, map<string, Client>> {
    var had: map<string, Client> := if room in rooms then rooms[room] else map[];
    rooms[room := had[id := c]]
  }

  lemma InsertRegistered(clients: map<string, Client>, rooms: map<string, map<string, Client>>, room: string,
                         id: string)
    requires Registered(clients, rooms) && id in clients
    ensures Registered(clients, Insert(rooms, room, id, clients[id]))
  {
  }

  lemma DeleteRegistered(clients: map<string, Client>, rooms: map<string, map<string, Client>>, room: string,
                         id: string)
    requires Registered(clients, rooms)
    ensures Registered(clients, Delete(rooms, room, id))
  {
  }

  lemma InsertEnters(rooms: map<string, map<string, Client>>, room: string, id: string, c: Client)
    ensures RoomIDs(Insert(rooms, room, id, c)) == H.Enter(RoomIDs(rooms), room, id)
  {
    var had: map<string, Client> := if room in rooms then rooms[room] else map[];
    assert had[id := c].Keys == had.Keys + {id};
    assert RoomIDs(Insert(rooms, room, id, c)) == RoomIDs(rooms)[room := had.Keys + {id}];
    var ids: set<string> := if room in RoomIDs(rooms) then RoomIDs(rooms)[room] else {};
    assert had.Keys == ids;
  }

  class WebSocketHub {
    var clients: map<string, Client>
    var rooms: map<string, map<string, Client>>
    var presence: H.Index

    constructor ()
      ensures Coherent() && Current() && View() == H.State(map[], map[], map[])
    {
      clients, rooms, presence := map[], map[], map[];
    }

    ghost predicate Coherent()
      reads this
    {
      Filed(clients)
    }

    ghost predicate Current()
      reads this
    {
      Registered(clients, rooms)
    }

    ghost function View(): H.State
      reads this, clients.Values
    {
      H.State(Members(clients), RoomIDs(rooms), presence)
    }

    /** A connection ID that is registered for another client is overwritten; unless that happens, the rooms
        go on holding registered clients. */
    method Register(c: Client)
      requires Coherent()
      modifies this
      ensures Coherent() && View() == H.Register(old(View()), c.id, c.userID, c.rooms)
      ensures old(Current()) && (c.id in old(clients) ==> old(clients[c.id]) == c) ==> Current()
    {
      clients := clients[c.id := c];
      if c.userID !in presence {
        presence := presence[c.userID := {}];
      }
      presence := presence[c.userID := presence[c.userID] + {c.id}];
      assert Members(clients) == old(Members(clients))[c.id := H.Member(c.userID, c.rooms)];
      assert presence == H.Enter(old(presence), c.userID, c.id);
    }

    method Join(connID: string, room: string)
      requires Coherent()
      modifies this`rooms, if connID in clients then {clients[connID]} else {}
      ensures Coherent() && View() == H.Join(old(View()), connID, room)
      ensures old(Current()) ==> Current()
    {
      if connID !in clients {
        return;
      }
      var c := clients[connID];
      InsertEnters(rooms, room, connID, c);
      if Current() {
        InsertRegistered(clients, rooms, room, connID);
      }
      InsertInto(room, connID, c);
      c.rooms := c.rooms + {room};
      SetRooms(connID);
      assert Members(clients) == old(Members(clients))[connID := H.Member(c.userID, c.rooms)];
    }

    method InsertInto(room: string, connID: string, c: Client)
      modifies this`rooms
      ensures rooms == Insert(old(rooms), room, connID, c)
    {
      if room !in rooms {
        rooms := rooms[room := map[]];
      }
      rooms := rooms[room := rooms[room][connID := c]];
    }

    lemma SetRooms(connID: string)
      requires Coherent() && connID in clients
      ensures forall x :: x in clients && x != connID ==> clients[x] != clients[connID]
    {
    }

    method Leave(connID: string, room: string)
      requires Coherent()
      modifies this`rooms, if connID in clients then {clients[connID]} else {}
      ensures Coherent() && View() == H.Leave(old(View()), connID, room)
      ensures old(Current()) ==> Current()
    {
      if connID !in clients {
        return;
      }
      var c := clients[connID];
      DeleteExits(rooms, room, connID);
      if Current() {
        DeleteRegistered(clients, rooms, room, connID);
      }
      rooms := Delete(rooms, room, connID);
      c.rooms := c.rooms - {room};
      SetRooms(connID);
      assert Members(clients) == old(Members(clients))[connID := H.Member(c.userID, c.rooms)];
    }

    /** The connection is taken out of every room it knows of, then out of its user's presence. */
    method Unregister(connID: string)
      requires Coherent()
      modifies this
      ensures Coherent() && View() == H.Unregister(old(View()), connID)
      ensures old(Current() && H.Consistent(View())) ==> Current()
    {
      if connID !in clients {
        return;
      }
      var c := clients[connID];
      ghost var after := H.Unregister(View(), connID);
      if H.Consistent(View()) {
        H.UnregisterConsistent(View(), connID);
      }
      LeaveAll(connID, c.rooms);
      presence := H.Exit(presence, c.userID, connID);
      clients := clients - {connID};
      assert Members(clients) == after.members;
      if H.Consistent(after) {
        GoneFrom(clients, rooms, after, connID);
      }
    }

    /** The loop of `Unregister` over the rooms of the connection. */
    method LeaveAll(connID: string, mine: set<string>)
      modifies this`rooms
      ensures RoomIDs(rooms) == H.Purge(old(RoomIDs(rooms)), mine, connID)
      ensures forall r, c :: r in rooms && c in rooms[r] ==>
                r in old(rooms) && c in old(rooms)[r] && rooms[r][c] == old(rooms)[r][c]
    {
      var left := mine;
      while left != {}
        invariant left <= mine
        invariant RoomIDs(rooms) == H.Purge(old(RoomIDs(rooms)), mine - left, connID)
        invariant forall r, c :: r in rooms && c in rooms[r] ==>
                    r in old(rooms) && c in old(rooms)[r] && rooms[r][c] == old(rooms)[r][c]
        decreases |left|
      {
        var room :| room in left;
        ghost var done := mine - left;
        DeleteExits(rooms, room, connID);
        PurgeOne(old(RoomIDs(rooms)), done, room, connID);
        rooms := Delete(rooms, room, connID);
        left := left - {room};
        assert mine - left == done + {room};
      }
    }

    /** The recipients of a room broadcast are the registered clients that have joined the room, and no other. */
    method RoomTargets(room: string) returns (targets: set<Client>)
      requires Coherent() && Current() && H.Consistent(View())
      ensures targets == set c | c in clients && room in clients[c].rooms :: clients[c]
    {
      targets := if room in rooms then rooms[room].Values else {};
      Recipients(room);
    }

    lemma Recipients(room: string)
      requires Coherent() && Current() && H.Consistent(View())
      ensures (if room in rooms then rooms[room].Values else {})
           == set c | c in clients && room in clients[c].rooms :: clients[c]
    {
      forall c ensures H.InRoom(View(), room, c) <==> c in clients && room in clients[c].rooms {
        assert H.InRoom(View(), room, c) <==> c in View().members && room in View().members[c].rooms;
      }
      var got: set<Client> := if room in rooms then rooms[room].Values else {};
      var due := set c | c in clients && room in clients[c].rooms :: clients[c];
      forall t ensures t in got <==> t in due {
        if t in got {
          var c :| c in rooms[room] && rooms[room][c] == t;
          assert H.InRoom(View(), room, c);
        }
        if t in due {
          var c :| c in clients && room in clients[c].rooms && clients[c] == t;
          assert H.InRoom(View(), room, c);
        }
      }
    }

    /** The recipients of a user broadcast are all the user's connections, and no other. */
    method UserTargets(userID: string) returns (targets: set<string>)
      requires Coherent() && H.Consistent(View())
      ensures targets == set c | c in clients && clients[c].userID == userID
    {
      targets := if userID in presence then presence[userID] else {};
      assert forall c :: H.IsPresent(View(), userID, c) <==> c in View().members && View().members[c].userID == userID;
      assert forall c :: c in targets <==> H.IsPresent(View(), userID, c);
    }

    method IsOnline(userID: string) returns (online: bool)
      requires Coherent() && H.Consistent(View())
      ensures online <==> exists c :: c in clients && clients[c].userID == userID
    {
      var targets := UserTargets(userID);
      online := targets != {};
      assert forall c :: c in clients && clients[c].userID == userID ==> c in targets;
      if online {
        ghost var c :| c in targets;
        assert c in clients && clients[c].userID == userID;
      }
    }

    /** `Stats`: connections, rooms with somebody in them, users online. */
    method Stats() returns (connections: nat, occupied: nat, users: nat)
      requires Coherent() && H.Consistent(View())
      ensures connections == |clients|
      ensures occupied == |set c, r | c in clients && r in clients[c].rooms :: r|
      ensures users == |set c | c in clients :: clients[c].userID|
    {
      connections, occupied, users := |clients|, |rooms|, |presence|;
      StatsSets();
      assert |rooms| == |rooms.Keys| && |presence| == |presence.Keys|;
    }

    lemma StatsSets()
      requires Coherent() && H.Consistent(View())
      ensures rooms.Keys == set c, r | c in clients && r in clients[c].rooms :: r
      ensures presence.Keys == set c | c in clients :: clients[c].userID
    {
      var view := View();
      forall r | r in rooms ensures exists c :: c in clients && r in clients[c].rooms {
        var c :| c in view.rooms[r];
        assert H.InRoom(view, r, c);
      }
      forall c, r | c in clients && r in clients[c].rooms ensures r in rooms {
        assert H.InRoom(view, r, c);
      }
      forall u | u in presence ensures exists c :: c in clients && clients[c].userID == u {
        var c :| c in view.presence[u];
        assert H.IsPresent(view, u, c);
      }
      forall c | c in clients ensures clients[c].userID in presence {
        assert H.IsPresent(view, clients[c].userID, c);
      }
    }
  }

  /** Once the connection is in no room, the rooms hold registered clients still. */
  lemma GoneFrom(clients: map<string, Client>, rooms: map<string, map<string, Client>>, after: H.State, connID: string)
    requires RoomIDs(rooms) == after.rooms && H.Consistent(after)
    requires forall c :: c in clients <==> c in after.members
    ensures forall r, c :: r in rooms && c in rooms[r] ==> c in clients
  {
    forall r, c | r in rooms && c in rooms[r] ensures c in clients {
      assert H.InRoom(after, r, c);
    }
  }

  lemma PurgeOne(index: H.Index, keys: set<string>, room: string, id: string)
    ensures H.Exit(H.Purge(index, keys, id), room, id) == H.Purge(index, keys + {room}, id)
  {
    var p := H.Purge(index, keys, id);
    if room in p {
      assert p[room] - {id} == index[room] - {id};
    } else if room in index {
      assert index[room] - {id} == {};
    }
    assert H.Exit(p, room, id) == H.Purge(index, keys + {room}, id);
  }
}
