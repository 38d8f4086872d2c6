/** The websocket hub as a value: who is connected, who is in which room, which user has which connections
    (internal/adapter/handler/websockets/hub.go). */
module HubState {

  datatype Member = Member(userID: string, rooms: set<string>)

  /** `rooms` and `presence` hold connection IDs. */
  datatype State = State(
    members: map<string, Member>, rooms: map<string, set<string>>, presence: map<string, set<string>>)

  type Index = map<string, set<string>>

  function Enter(index: Index, key: string, id: string): Index {
    index[key := (if key in index then index[key] else {}) + {id}]
  }

  /** Take an ID out of one entry, and the entry with it when nothing is left. */
  function Exit(index: Index, key: string, id: string): Index {
    if key !in index then index
    else if index[key] - {id} == {} then index - {key}
    else index[key := index[key] - {id}]
  }

  function Register(s: State, id: string, userID: string, rooms: set<string>): State {
    State(s.members[id := Member(userID, rooms)], s.rooms, Enter(s.presence, userID, id))
  }

  function Join(s: State, id: string, room: string): State {
    if id !in s.members then s
    else
      var m := s.members[id];
      s.(members := s.members[id := m.(rooms := m.rooms + {room})], rooms := Enter(s.rooms, room, id))
  }

  function Leave(s: State, id: string, room: string): State {
    if id !in s.members then s
    else
      var m := s.members[id];
      s.(members := s.members[id := m.(rooms := m.rooms - {room})], rooms := Exit(s.rooms, room, id))
  }

  /** `index` without `id` at the keys given. */
  function Purge(index: Index, keys: set<string>, id: string): Index {
    map k | k in index && (k in keys ==> index[k] - {id} != {}) :: if k in keys then index[k] - {id} else index[k]
  }

  function Unregister(s: State, id: string): State {
    if id !in s.members then s
    else
      var m := s.members[id];
      State(s.members - {id}, Purge(s.rooms, m.rooms, id), Exit(s.presence, m.userID, id))
  }

  /** The three maps are mutual inverses, and no room or user is kept with nobody in it. */
  ghost predicate Consistent(s: State) {
    && (forall r :: r in s.rooms ==> s.rooms[r] != {})
    && (forall u :: u in s.presence ==> s.presence[u] != {})
    && (forall r, id :: InRoom(s, r, id) <==> id in s.members && r in s.members[id].rooms)
    && (forall u, id :: IsPresent(s, u, id) <==> id in s.members && s.members[id].userID == u)
  }

  predicate InRoom(s: State, room: string, id: string) {
    room in s.rooms && id in s.rooms[room]
  }

  predicate IsPresent(s: State, userID: string, id: string) {
    userID in s.presence && id in s.presence[userID]
  }

  predicate Listed(index: Index, key: string, id: string) {
    key in index && id in index[key]
  }

  lemma ExitLists(index: Index, key: string, id: string, k: string, x: string)
    ensures Listed(Exit(index, key, id), k, x) <==> Listed(index, k, x) && !(k == key && x == id)
  {
    if Listed(index, key, x) && x != id {
      assert x in index[key] - {id};
    }
  }

  lemma PurgeLists(index: Index, keys: set<string>, id: string, k: string, x: string)
    ensures Listed(Purge(index, keys, id), k, x) <==> Listed(index, k, x) && !(k in keys && x == id)
  {
    if Listed(index, k, x) && x != id {
      assert x in index[k] - {id};
    }
  }

  // ---------- every operation keeps the maps in step ----------

  /** On a consistent hub, registering keeps it so if and only if the connection is new and in no room,
      or is registered already with the same user and rooms. */
  lemma RegisterConsistentIff(s: State, id: string, userID: string, rooms: set<string>)
    requires Consistent(s)
    ensures Consistent(Register(s, id, userID, rooms))
       <==> if id in s.members then s.members[id] == Member(userID, rooms) else rooms == {}
  {
    var t := Register(s, id, userID, rooms);
    forall u, x ensures IsPresent(t, u, x) <==> IsPresent(s, u, x) || (u == userID && x == id) {}
    forall r, x ensures InRoom(t, r, x) <==> InRoom(s, r, x) {}
    if Consistent(t) {
      if id in s.members {
        assert IsPresent(s, s.members[id].userID, id);
        assert IsPresent(t, s.members[id].userID, id);
        assert t.members[id].userID == s.members[id].userID;
        assert rooms == s.members[id].rooms by {
          forall r ensures r in rooms <==> r in s.members[id].rooms {
            assert InRoom(t, r, id) <==> InRoom(s, r, id);
          }
        }
      } else {
        forall r ensures r !in rooms {
          assert InRoom(t, r, id) <==> InRoom(s, r, id);
        }
        assert rooms == {};
      }
    }
  }

  lemma JoinConsistent(s: State, id: string, room: string)
    requires Consistent(s)
    ensures Consistent(Join(s, id, room))
  {
    var t := Join(s, id, room);
    forall r, x ensures InRoom(t, r, x) <==> InRoom(s, r, x) || (id in s.members && r == room && x == id) {}
    forall u, x ensures IsPresent(t, u, x) <==> IsPresent(s, u, x) {}
  }

  lemma LeaveConsistent(s: State, id: string, room: string)
    requires Consistent(s)
    ensures Consistent(Leave(s, id, room))
  {
    var t := Leave(s, id, room);
    forall r, x ensures InRoom(t, r, x) <==> InRoom(s, r, x) && !(id in s.members && r == room && x == id) {
      ExitLists(s.rooms, room, id, r, x);
    }
    forall u, x ensures IsPresent(t, u, x) <==> IsPresent(s, u, x) {}
  }

  /** The hub as if the connection had never been there. */
  function Erase(s: State, id: string): State {
    State(s.members - {id}, Purge(s.rooms, s.rooms.Keys, id), Purge(s.presence, s.presence.Keys, id))
  }

  /** Unregistering touches only the rooms and the user the connection knows of, and that is enough. */
  lemma UnregisterErases(s: State, id: string)
    requires Consistent(s)
    ensures Unregister(s, id) == Erase(s, id)
  {
    var t, e := Unregister(s, id), Erase(s, id);
    forall r | r in s.rooms ensures (id in s.members && r in s.members[id].rooms) || s.rooms[r] - {id} == s.rooms[r] {
      assert InRoom(s, r, id) <==> id in s.members && r in s.members[id].rooms;
    }
    forall u | u in s.presence
      ensures (id in s.members && u == s.members[id].userID) || s.presence[u] - {id} == s.presence[u]
    {
      assert IsPresent(s, u, id) <==> id in s.members && s.members[id].userID == u;
    }
    assert t.rooms == e.rooms;
    assert t.presence == e.presence;
  }

  lemma UnregisterConsistent(s: State, id: string)
    requires Consistent(s)
    ensures Consistent(Unregister(s, id)) && id !in Unregister(s, id).members
  {
    UnregisterErases(s, id);
    var t := Erase(s, id);
    forall r, x ensures InRoom(t, r, x) <==> InRoom(s, r, x) && x != id {
      PurgeLists(s.rooms, s.rooms.Keys, id, r, x);
    }
    forall u, x ensures IsPresent(t, u, x) <==> IsPresent(s, u, x) && x != id {
      PurgeLists(s.presence, s.presence.Keys, id, u, x);
    }
  }

  // ---------- a connection that comes and goes leaves no trace ----------

  datatype Op =
    | RegisterOp(id: string, userID: string)
    | UnregisterOp(id: string)
    | JoinOp(id: string, room: string)
    | LeaveOp(id: string, room: string)

  /** A client is registered as it was made: in no room. */
  function Do(s: State, op: Op): State {
    match op
    case RegisterOp(id, userID) => Register(s, id, userID, {})
    case UnregisterOp(id) => Unregister(s, id)
    case JoinOp(id, room) => Join(s, id, room)
    case LeaveOp(id, room) => Leave(s, id, room)
  }

  function DoAll(s: State, ops: seq<Op>): State
    decreases ops
  {
    if ops == [] then s else DoAll(Do(s, ops[0]), ops[1..])
  }

  /** Connection IDs are fresh: no operation registers one that is registered. */
  ghost predicate FreshIDs(s: State, ops: seq<Op>)
    decreases ops
  {
    ops == [] || ((ops[0].RegisterOp? ==> ops[0].id !in s.members) && FreshIDs(Do(s, ops[0]), ops[1..]))
  }

  lemma DoConsistent(s: State, op: Op)
    requires Consistent(s) && (op.RegisterOp? ==> op.id !in s.members)
    ensures Consistent(Do(s, op))
  {
    match op {
      case RegisterOp(id, userID) => RegisterConsistentIff(s, id, userID, {});
      case UnregisterOp(id) => UnregisterConsistent(s, id);
      case JoinOp(id, room) => JoinConsistent(s, id, room);
      case LeaveOp(id, room) => LeaveConsistent(s, id, room);
    }
  }

  /** On every run with fresh IDs the three maps stay mutual inverses. */
  lemma {:induction false} RunConsistent(s: State, ops: seq<Op>)
    requires Consistent(s) && FreshIDs(s, ops)
    ensures Consistent(DoAll(s, ops))
    decreases ops
  {
    if ops != [] {
      DoConsistent(s, ops[0]);
      RunConsistent(Do(s, ops[0]), ops[1..]);
    }
  }

  /** Two consistent hubs with the same members are the same hub: the indexes carry nothing of their own. */
  lemma MembersDetermine(s: State, t: State)
    requires Consistent(s) && Consistent(t) && s.members == t.members
    ensures s == t
  {
    forall r ensures (r in s.rooms <==> r in t.rooms) && (r in s.rooms && r in t.rooms ==> s.rooms[r] == t.rooms[r]) {
      assert forall id :: InRoom(s, r, id) <==> InRoom(t, r, id);
      if r in s.rooms {
        var id :| id in s.rooms[r];
        assert InRoom(s, r, id);
      }
      if r in t.rooms {
        var id :| id in t.rooms[r];
        assert InRoom(t, r, id);
      }
      if r in s.rooms && r in t.rooms {
        assert forall id :: id in s.rooms[r] <==> InRoom(s, r, id);
        assert forall id :: id in t.rooms[r] <==> InRoom(t, r, id);
      }
    }
    forall u ensures (u in s.presence <==> u in t.presence)
      && (u in s.presence && u in t.presence ==> s.presence[u] == t.presence[u])
    {
      assert forall id :: IsPresent(s, u, id) <==> IsPresent(t, u, id);
      if u in s.presence {
        var id :| id in s.presence[u];
        assert IsPresent(s, u, id);
      }
      if u in t.presence {
        var id :| id in t.presence[u];
        assert IsPresent(t, u, id);
      }
      if u in s.presence && u in t.presence {
        assert forall id :: id in s.presence[u] <==> IsPresent(s, u, id);
        assert forall id :: id in t.presence[u] <==> IsPresent(t, u, id);
      }
    }
    assert s.rooms == t.rooms;
    assert s.presence == t.presence;
  }

  // ---------- who is in which room ----------

  /** Every connection is there as before, with the same user, and presence has not changed. */
  ghost predicate SameUsers(s: State, t: State) {
    && t.presence == s.presence && t.members.Keys == s.members.Keys
    && forall x :: x in s.members ==> t.members[x].userID == s.members[x].userID
  }

  /** Joining puts a registered connection in that room, and does nothing else. */
  lemma JoinEnters(s: State, id: string, room: string)
    ensures var t := Join(s, id, room);
      && SameUsers(s, t) && (id !in s.members ==> t == s)
      && (forall r, x :: InRoom(t, r, x) <==> InRoom(s, r, x) || (id in s.members && r == room && x == id))
      && (forall r, x :: x in s.members ==>
            (r in t.members[x].rooms <==> r in s.members[x].rooms || (r == room && x == id)))
  {
  }

  /** Leaving takes a registered connection out of that room, and does nothing else. */
  lemma LeaveExits(s: State, id: string, room: string)
    ensures var t := Leave(s, id, room);
      && SameUsers(s, t) && (id !in s.members ==> t == s)
      && (forall r, x :: InRoom(t, r, x) <==> InRoom(s, r, x) && !(id in s.members && r == room && x == id))
      && (forall r, x :: x in s.members ==>
            (r in t.members[x].rooms <==> r in s.members[x].rooms && !(r == room && x == id)))
  {
    var t := Leave(s, id, room);
    forall r, x ensures InRoom(t, r, x) <==> InRoom(s, r, x) && !(id in s.members && r == room && x == id) {
      ExitLists(s.rooms, room, id, r, x);
    }
  }

  /** Registering a new connection makes it the user's, in no room; unregistering takes it out of everything.
      Neither touches another connection. */
  lemma RegisterAdds(s: State, id: string, userID: string)
    requires Consistent(s) && id !in s.members
    ensures var t := Register(s, id, userID, {});
      && t.members == s.members[id := Member(userID, {})]
      && (forall r, x :: InRoom(t, r, x) <==> InRoom(s, r, x)) && (forall r :: !InRoom(t, r, id))
      && (forall u, x :: IsPresent(t, u, x) <==> IsPresent(s, u, x) || (u == userID && x == id))
  {
    forall r ensures !InRoom(s, r, id) {
      assert InRoom(s, r, id) ==> id in s.members;
    }
  }

  lemma UnregisterRemoves(s: State, id: string)
    requires Consistent(s)
    ensures var t := Unregister(s, id);
      && t.members == s.members - {id}
      && (forall r, x :: InRoom(t, r, x) <==> InRoom(s, r, x) && x != id)
      && (forall u, x :: IsPresent(t, u, x) <==> IsPresent(s, u, x) && x != id)
  {
    UnregisterErases(s, id);
    var t := Unregister(s, id);
    forall r, x ensures InRoom(t, r, x) <==> InRoom(s, r, x) && x != id {
      PurgeLists(s.rooms, s.rooms.Keys, id, r, x);
    }
    forall u, x ensures IsPresent(t, u, x) <==> IsPresent(s, u, x) && x != id {
      PurgeLists(s.presence, s.presence.Keys, id, u, x);
    }
  }

  /** The operation ends a connection's stay in a room: it leaves the room, or comes or goes as a whole. */
  predicate Ends(op: Op, id: string, room: string) {
    op == LeaveOp(id, room) || (op.id == id && (op.RegisterOp? || op.UnregisterOp?))
  }

  /** The last join has not been ended since: the one at `i`, or, for a connection that was in the room, one
      before all of these. */
  ghost predicate JoinedAt(ops: seq<Op>, id: string, room: string, i: int) {
    && -1 <= i < |ops| && (i >= 0 ==> ops[i] == JoinOp(id, room))
    && forall j :: i < j < |ops| ==> !Ends(ops[j], id, room)
  }

  ghost predicate JoinedLast(ops: seq<Op>, id: string, room: string, before: bool) {
    (before && JoinedAt(ops, id, room, -1)) || exists i :: 0 <= i && JoinedAt(ops, id, room, i)
  }

  /** What the first operation does to a connection's place in a room. */
  lemma StayAfter(s: State, op: Op, id: string, room: string)
    requires Consistent(s) && (op.RegisterOp? ==> op.id !in s.members)
    ensures InRoom(Do(s, op), room, id)
       <==> (op == JoinOp(id, room) && id in s.members) || (InRoom(s, room, id) && !Ends(op, id, room))
  {
    match op {
      case RegisterOp(x, userID) => RegisterAdds(s, x, userID);
      case UnregisterOp(x) => UnregisterRemoves(s, x);
      case JoinOp(x, r) => JoinEnters(s, x, r);
      case LeaveOp(x, r) => LeaveExits(s, x, r);
    }
  }

  /** A connection that was not there and is there in the end has been registered. */
  lemma {:induction false} WasRegistered(s: State, ops: seq<Op>, id: string)
    requires id !in s.members && id in DoAll(s, ops).members
    ensures exists j :: 0 <= j < |ops| && ops[j].RegisterOp? && ops[j].id == id
    decreases ops
  {
    if ops[0].RegisterOp? && ops[0].id == id {
      assert ops[0].RegisterOp? && ops[0].id == id;
    } else {
      WasRegistered(Do(s, ops[0]), ops[1..], id);
      var j :| 0 <= j < |ops[1..]| && ops[1..][j].RegisterOp? && ops[1..][j].id == id;
      assert ops[j + 1] == ops[1..][j];
    }
  }

  lemma JoinedLater(ops: seq<Op>, id: string, room: string, i: int)
    requires ops != [] && 0 <= i
    ensures JoinedAt(ops, id, room, i)
       <==> (i == 0 ==> ops[0] == JoinOp(id, room)) && JoinedAt(ops[1..], id, room, i - 1)
  {
    var rest := ops[1..];
    if JoinedAt(rest, id, room, i - 1) {
      forall j | i < j < |ops| && 0 < j ensures !Ends(ops[j], id, room) {
        assert ops[j] == rest[j - 1];
      }
    }
    if JoinedAt(ops, id, room, i) {
      forall j | i - 1 < j < |rest| ensures !Ends(rest[j], id, room) {
        assert rest[j] == ops[j + 1];
      }
    }
  }

  lemma NeverEnded(ops: seq<Op>, id: string, room: string)
    requires ops != []
    ensures JoinedAt(ops, id, room, -1) <==> !Ends(ops[0], id, room) && JoinedAt(ops[1..], id, room, -1)
  {
    var rest := ops[1..];
    if JoinedAt(rest, id, room, -1) {
      forall j | 0 < j < |ops| ensures !Ends(ops[j], id, room) {
        assert ops[j] == rest[j - 1];
      }
    }
    if JoinedAt(ops, id, room, -1) {
      forall j | 0 <= j < |rest| ensures !Ends(rest[j], id, room) {
        assert rest[j] == ops[j + 1];
      }
    }
  }

  lemma JoinedNext(ops: seq<Op>, id: string, room: string, before: bool)
    requires ops != []
    ensures JoinedLast(ops, id, room, before)
       <==> JoinedLast(ops[1..], id, room, ops[0] == JoinOp(id, room) || (before && !Ends(ops[0], id, room)))
  {
    JoinedLater(ops, id, room, 0);
    NeverEnded(ops, id, room);
    if i :| 0 <= i && JoinedAt(ops, id, room, i) {
      JoinedLater(ops, id, room, i);
      assert i > 0 ==> JoinedAt(ops[1..], id, room, i - 1);
    }
    if i :| 0 <= i && JoinedAt(ops[1..], id, room, i) {
      JoinedLater(ops, id, room, i + 1);
      assert JoinedAt(ops, id, room, i + 1);
    }
    assert JoinedAt(ops, id, room, 0) ==> exists i :: 0 <= i && JoinedAt(ops, id, room, i);
  }

  /** After any run a registered connection is in a room if and only if its last join of the room has not been
      followed by its leaving the room, nor by its registration: joins before that do not count. */
  lemma {:induction false} InRoomIff(s: State, ops: seq<Op>, id: string, room: string)
    requires Consistent(s) && FreshIDs(s, ops) && id in DoAll(s, ops).members
    ensures InRoom(DoAll(s, ops), room, id) <==> JoinedLast(ops, id, room, InRoom(s, room, id))
    decreases ops
  {
    if ops == [] {
      assert JoinedAt(ops, id, room, -1);
    } else {
      DoConsistent(s, ops[0]);
      StayAfter(s, ops[0], id, room);
      InRoomIff(Do(s, ops[0]), ops[1..], id, room);
      JoinedNext(ops, id, room, InRoom(s, room, id));
      if ops[0] == JoinOp(id, room) && id !in s.members {
        WasRegistered(s, ops, id);
        var j :| 0 <= j < |ops| && ops[j].RegisterOp? && ops[j].id == id;
        assert ops[1..][j - 1] == ops[j] && Ends(ops[1..][j - 1], id, room);
        assert !JoinedAt(ops[1..], id, room, -1);
      }
    }
  }

  function Others(ops: seq<Op>, id: string): seq<Op> {
    if ops == [] then []
    else if ops[0].id == id then Others(ops[1..], id)
    else [ops[0]] + Others(ops[1..], id)
  }

  lemma EraseMembers(s: State, op: Op, id: string)
    ensures if op.id == id then Do(s, op).members - {id} == s.members - {id}
            else Do(s, op).members - {id} == Do(Erase(s, id), op).members
  {
  }

  /** Whatever one connection does in between, once it is gone the hub is as if the others had acted alone. */
  lemma {:induction false} NoTrace(s: State, ops: seq<Op>, id: string)
    requires Consistent(s) && FreshIDs(s, ops)
    ensures FreshIDs(Erase(s, id), Others(ops, id))
    ensures Unregister(DoAll(s, ops), id) == DoAll(Erase(s, id), Others(ops, id))
    decreases ops
  {
    UnregisterErases(s, id);
    UnregisterConsistent(s, id);
    if ops != [] {
      var op := ops[0];
      DoConsistent(s, op);
      NoTrace(Do(s, op), ops[1..], id);
      EraseMembers(s, op, id);
      UnregisterErases(Do(s, op), id);
      UnregisterConsistent(Do(s, op), id);
      if op.id == id {
        MembersDetermine(Erase(Do(s, op), id), Erase(s, id));
      } else {
        DoConsistent(Erase(s, id), op);
        MembersDetermine(Erase(Do(s, op), id), Do(Erase(s, id), op));
        assert Others(ops, id)[1..] == Others(ops[1..], id);
      }
    }
  }

  /** In particular: register a new connection, let it join and leave as it likes, unregister it, and the
      hub is restored exactly. */
  lemma {:induction false} ComeAndGo(s: State, id: string, userID: string, ops: seq<Op>)
    requires Consistent(s) && id !in s.members
    requires forall op :: op in ops ==> (op.JoinOp? || op.LeaveOp?) && op.id == id
    ensures Unregister(DoAll(Register(s, id, userID, {}), ops), id) == s
  {
    var all := [RegisterOp(id, userID)] + ops;
    assert all[1..] == ops;
    OnlyOwn(Register(s, id, userID, {}), ops, id);
    NoTrace(s, all, id);
    assert Others(all, id) == [];
    UnregisterErases(s, id);
  }

  lemma {:induction false} OnlyOwn(s: State, ops: seq<Op>, id: string)
    requires forall op :: op in ops ==> (op.JoinOp? || op.LeaveOp?) && op.id == id
    ensures FreshIDs(s, ops) && Others(ops, id) == []
    decreases ops
  {
    if ops != [] {
      assert ops[0] in ops;
      OnlyOwn(Do(s, ops[0]), ops[1..], id);
    }
  }

  // ---------- a broadcast to a user, while others go on ----------

  /** `BroadcastUser` looks up one connection after the other, each under its own lock; `between[i]` is what
      happens before the i-th of these. What is sent: each connection found, and whose it is then. */
  function Sent(s: State, ids: seq<string>, between: seq<seq<Op>>): seq<(string, string)>
    requires |between| == |ids|
    decreases ids
  {
    if ids == [] then []
    else
      var t := DoAll(s, between[0]);
      var rest := Sent(t, ids[1..], between[1..]);
      if ids[0] in t.members then [(ids[0], t.members[ids[0]].userID)] + rest else rest
  }

  /** The connections unregistered by some operations. */
  function Gone(ops: seq<Op>): set<string> {
    if ops == [] then {} else (if ops[0].UnregisterOp? then {ops[0].id} else {}) + Gone(ops[1..])
  }

  /** What is due: the user's connections, in order, less those unregistered before their turn. */
  function Due(userID: string, ids: seq<string>, between: seq<seq<Op>>, gone: set<string>): seq<(string, string)>
    requires |between| == |ids|
    decreases ids
  {
    if ids == [] then []
    else
      var now := gone + Gone(between[0]);
      var rest := Due(userID, ids[1..], between[1..], now);
      if ids[0] in now then rest else [(ids[0], userID)] + rest
  }

  /** None of these connection IDs is registered again. */
  predicate NotReused(ids: seq<string>, ops: seq<Op>) {
    forall op :: op in ops && op.RegisterOp? ==> op.id !in ids
  }

  lemma {:induction false} StillThere(s: State, ops: seq<Op>, ids: seq<string>, id: string)
    requires id in ids && NotReused(ids, ops)
    ensures id in DoAll(s, ops).members <==> id in s.members && id !in Gone(ops)
    ensures id in DoAll(s, ops).members ==> DoAll(s, ops).members[id].userID == s.members[id].userID
    decreases ops
  {
    if ops != [] {
      assert ops[0] in ops && forall op :: op in ops[1..] ==> op in ops;
      StillThere(Do(s, ops[0]), ops[1..], ids, id);
    }
  }

  /** Whatever happens in between, a user broadcast reaches exactly the user's connections that are not
      unregistered before their turn, and nobody else, as long as connection IDs are not used again. */
  lemma {:induction false} BroadcastReaches(s: State, userID: string, ids: seq<string>, between: seq<seq<Op>>,
                                            gone: set<string>)
    requires |between| == |ids| && forall ops :: ops in between ==> NotReused(ids, ops)
    requires forall id :: id in ids ==>
               if id in gone then id !in s.members else id in s.members && s.members[id].userID == userID
    ensures Sent(s, ids, between) == Due(userID, ids, between, gone)
    decreases ids
  {
    if ids != [] {
      var t, now := DoAll(s, between[0]), gone + Gone(between[0]);
      assert between[0] in between && forall ops :: ops in between[1..] ==> ops in between;
      forall id | id in ids
        ensures if id in now then id !in t.members else id in t.members && t.members[id].userID == userID
      {
        StillThere(s, between[0], ids, id);
      }
      BroadcastReaches(t, userID, ids[1..], between[1..], now);
    }
  }
}
