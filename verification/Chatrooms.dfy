/** The character server's chatrooms: room ids, who is listed where, and what every request keeps. */
module Chatrooms {
  import opened Wrappers

  const LAST_ID: int := 0xff

  /** A room; people are character ids in order of arrival. */
  datatype Room = Room(name: string, password: Option<string>, nbMax: nat, people: seq<int>)

  /** The rooms by id, the last id given out, and each online client's chatroom_id by character id. */
  datatype State = State(rooms: map<int, Room>, last: int, clients: map<int, int>)

  // ------------------------------------------------ room ids

  /** The ids GetChatroomID tries after the last one given out, in order. */
  function Order(last: int): seq<int>
    requires 0 <= last <= LAST_ID
  {
    (if last < LAST_ID then seq(LAST_ID - 1 - last, i => last + 1 + i) else []) + seq(last, i => 1 + i)
  }

  /** The first id of a list that names no room, or 0xff. */
  function FirstUnused(rooms: map<int, Room>, ids: seq<int>): int {
    if ids == [] then LAST_ID else if ids[0] !in rooms then ids[0] else FirstUnused(rooms, ids[1..])
  }

  function NextId(rooms: map<int, Room>, last: int): int
    requires 0 <= last <= LAST_ID
  {
    FirstUnused(rooms, Order(last))
  }

  lemma {:induction false} FirstUnusedIs(rooms: map<int, Room>, ids: seq<int>, i: nat)
    requires i <= |ids| && (forall j :: 0 <= j < i ==> ids[j] in rooms) && (i < |ids| ==> ids[i] !in rooms)
    ensures FirstUnused(rooms, ids) == if i < |ids| then ids[i] else LAST_ID
  {
    if i > 0 {
      FirstUnusedIs(rooms, ids[1..], i - 1);
    }
  }

  lemma {:induction false} FirstUnusedPosition(rooms: map<int, Room>, ids: seq<int>) returns (i: nat)
    ensures i <= |ids| && (forall j :: 0 <= j < i ==> ids[j] in rooms) && (i < |ids| ==> ids[i] !in rooms)
    ensures FirstUnused(rooms, ids) == if i < |ids| then ids[i] else LAST_ID
  {
    i := 0;
    if ids != [] && ids[0] in rooms {
      i := FirstUnusedPosition(rooms, ids[1..]);
      i := i + 1;
    }
  }

  /**
   * While some id in 1..0xfe is free the next id is a free one, the first in cyclic order after the last; and it is
   * unused at all exactly when some id in 1..0xff is.
   */
  lemma NextIdIs(rooms: map<int, Room>, last: int)
    requires 0 <= last <= LAST_ID
    ensures 1 <= NextId(rooms, last) <= LAST_ID
    ensures NextId(rooms, last) !in rooms <==> exists id :: 1 <= id <= LAST_ID && id !in rooms
    ensures forall id :: 1 <= id < LAST_ID && id !in rooms ==>
              var n := NextId(rooms, last);
              if n > last then last < n <= id || id <= last else id <= last && n <= id
  {
    var ids := Order(last);
    var i := FirstUnusedPosition(rooms, ids);
    forall id | 1 <= id < LAST_ID && id !in rooms
      ensures i < |ids|
      ensures var n := NextId(rooms, last); if n > last then last < n <= id || id <= last else id <= last && n <= id
    {
      var at := if id > last then id - last - 1 else (if last < LAST_ID then LAST_ID - 1 - last else 0) + id - 1;
      assert ids[at] == id;
    }
    if last == LAST_ID {
      assert ids[LAST_ID - 1] == LAST_ID;
    }
  }

  // ------------------------------------------------ cleaning

  function Online(list: seq<int>, clients: map<int, int>): seq<int> {
    if list == [] then []
    else Online(list[..|list| - 1], clients) + if list[|list| - 1] in clients then [list[|list| - 1]] else []
  }

  /**
   * A member list after the cleaning loop. Restarting at 0 and stepping on at once, the loop never looks again at
   * position 0 after an erasure, so a first member found offline shields the second.
   */
  function Cleaned(list: seq<int>, clients: map<int, int>): seq<int> {
    if list == [] then []
    else if list[0] in clients then [list[0]] + Online(list[1..], clients)
    else if |list| == 1 then []
    else [list[1]] + Online(list[2..], clients)
  }

  lemma {:induction false} OnlineIs(list: seq<int>, clients: map<int, int>)
    ensures forall x :: x in Online(list, clients) <==> x in list && x in clients
  {
    if list != [] {
      OnlineIs(list[..|list| - 1], clients);
      assert forall x :: x in list <==> x in list[..|list| - 1] || x == list[|list| - 1];
    }
  }

  /** Cleaning never drops anybody online, and drops everybody offline unless the first two both are. */
  lemma CleanedIs(list: seq<int>, clients: map<int, int>)
    ensures forall x :: x in list && x in clients ==> x in Cleaned(list, clients)
    ensures forall x :: x in Cleaned(list, clients) ==> x in list
    ensures (forall x :: x in Cleaned(list, clients) ==> x in clients)
       <==> !(|list| >= 2 && list[0] !in clients && list[1] !in clients)
  {
    if list != [] {
      OnlineIs(list[1..], clients);
      assert forall x :: x in list <==> x == list[0] || x in list[1..];
      if |list| >= 2 {
        OnlineIs(list[2..], clients);
        assert forall x :: x in list[1..] <==> x == list[1] || x in list[2..];
      }
    }
  }

  /** Two who have both gone: the second stays listed. */
  lemma SecondOfTwoStays(first: int, second: int, rest: seq<int>, clients: map<int, int>)
    requires first !in clients && second !in clients
    ensures second in Cleaned([first, second] + rest, clients)
  {
    assert ([first, second] + rest)[1] == second;
  }

  function CleanedRooms(s: State): map<int, Room> {
    map id | id in s.rooms && Cleaned(s.rooms[id].people, s.clients) != [] ::
      s.rooms[id].(people := Cleaned(s.rooms[id].people, s.clients))
  }

  // ------------------------------------------------ requests

  predicate NameTaken(rooms: map<int, Room>, name: string) {
    exists id :: id in rooms && rooms[id].name == name
  }

  predicate MayCreate(s: State, id: int, name: string, nbMax: nat)
    requires id in s.clients
  {
    s.clients[id] == 0 && nbMax != 0 && name != "" && !NameTaken(s.rooms, name)
  }

  function Created(s: State, id: int, name: string, password: Option<string>, nbMax: nat): State
    requires 0 <= s.last <= LAST_ID
  {
    var n := NextId(s.rooms, s.last);
    State(s.rooms[n := Room(name, password, nbMax, [id])], n, s.clients[id := n])
  }

  /** The first position of a member, or the length. */
  function Position(people: seq<int>, id: int): (i: nat)
    ensures i <= |people| && (i < |people| ==> people[i] == id) && forall j :: 0 <= j < i ==> people[j] != id
  {
    if people == [] || people[0] == id then 0 else 1 + Position(people[1..], id)
  }

  /** The right password, and no more than nbMax members in front of him. */
  predicate MayJoin(s: State, id: int, room: int, password: Option<string>) {
    && room in s.rooms
    && (s.rooms[room].password.Some? ==> password == s.rooms[room].password)
    && Position(s.rooms[room].people, id) <= s.rooms[room].nbMax
  }

  function Joined(s: State, id: int, room: int): State
    requires room in s.rooms
  {
    s.(rooms := s.rooms[room := s.rooms[room].(people := s.rooms[room].people + [id])],
       clients := s.clients[id := room])
  }

  function Dropped(people: seq<int>, id: int): seq<int> {
    var i := Position(people, id);
    if i < |people| then people[..i] + people[i + 1..] else people
  }

  /** DisconnectClientFromChat: his first listing goes, and with the last listing the room. */
  function Left(s: State, id: int): State
    requires id in s.clients
  {
    var room := s.clients[id];
    if room == 0 then s
    else if room !in s.rooms then s.(clients := s.clients[id := 0])
    else
      var people := Dropped(s.rooms[room].people, id);
      s.(rooms := if people == [] then s.rooms - {room} else s.rooms[room := s.rooms[room].(people := people)],
         clients := s.clients[id := 0])
  }

  // ------------------------------------------------ what holds between requests

  ghost predicate Rooms(s: State) {
    && 0 <= s.last <= LAST_ID
    && (forall id :: id in s.rooms ==> 1 <= id <= LAST_ID && s.rooms[id].people != [])
    && (forall i, j :: i in s.rooms && j in s.rooms && s.rooms[i].name == s.rooms[j].name ==> i == j)
  }

  /** Every online client in a room is on that room's list. */
  ghost predicate Seated(s: State) {
    forall c :: c in s.clients && s.clients[c] != 0 ==> s.clients[c] in s.rooms && c in s.rooms[s.clients[c]].people
  }

  ghost predicate Inv(s: State) {
    Rooms(s) && Seated(s)
  }

  /** A request of an online client, or a client coming or going; leaving the server may skip leaving the room. */
  datatype Op =
    | List(id: int)
    | Create(id: int, name: string, password: Option<string>, nbMax: nat)
    | Join(id: int, room: int, password: Option<string>)
    | Leave(id: int)
    | Arrive(id: int)
    | Vanish(id: int)

  ghost predicate Enabled(s: State, op: Op) {
    match op
    case Arrive(id) => id !in s.clients
    case _ => op.id in s.clients
  }

  function Do(s: State, op: Op): State
    requires 0 <= s.last <= LAST_ID && (!op.Arrive? ==> op.id in s.clients)
  {
    match op
    case List(id) => if s.clients[id] != 0 then s else s.(rooms := CleanedRooms(s))
    case Create(id, name, password, nbMax) =>
      if MayCreate(s, id, name, nbMax) then Created(s, id, name, password, nbMax) else s
    case Join(id, room, password) => if MayJoin(s, id, room, password) then Joined(s, id, room) else s
    case Leave(id) => Left(s, id)
    case Arrive(id) => s.(clients := s.clients[id := 0])
    case Vanish(id) => s.(clients := s.clients - {id})
  }

  lemma CleanedNames(s: State)
    requires Rooms(s)
    ensures Rooms(s.(rooms := CleanedRooms(s)))
  {
  }

  lemma ListKeeps(s: State)
    requires Inv(s)
    ensures Inv(s.(rooms := CleanedRooms(s)))
  {
    CleanedNames(s);
    forall c | c in s.clients && s.clients[c] != 0
      ensures c in Cleaned(s.rooms[s.clients[c]].people, s.clients)
    {
      CleanedIs(s.rooms[s.clients[c]].people, s.clients);
    }
  }

  /** Creation keeps the rooms in order always, and everybody seated unless it takes an id some client is still in. */
  lemma CreateKeepsIff(s: State, id: int, name: string, password: Option<string>, nbMax: nat)
    requires Inv(s) && id in s.clients && MayCreate(s, id, name, nbMax)
    ensures Rooms(Created(s, id, name, password, nbMax))
    ensures Seated(Created(s, id, name, password, nbMax)) <==>
              (exists k :: 1 <= k <= LAST_ID && k !in s.rooms)
              || (forall c :: c in s.clients ==> s.clients[c] != LAST_ID)
  {
    NextIdIs(s.rooms, s.last);
    var n := NextId(s.rooms, s.last);
    var t := Created(s, id, name, password, nbMax);
    if n in s.rooms {
      NoFreeIdMeansLast(s.rooms, s.last);
      forall c | c in s.clients && c != id && s.clients[c] == LAST_ID
        ensures c !in t.rooms[t.clients[c]].people
      {
      }
    }
  }

  lemma NoFreeIdMeansLast(rooms: map<int, Room>, last: int)
    requires 0 <= last <= LAST_ID && NextId(rooms, last) in rooms
    ensures NextId(rooms, last) == LAST_ID
  {
    var i := FirstUnusedPosition(rooms, Order(last));
  }

  lemma JoinKeeps(s: State, id: int, room: int)
    requires Inv(s) && id in s.clients && room in s.rooms
    ensures Inv(Joined(s, id, room))
  {
  }

  lemma DroppedIs(people: seq<int>, id: int)
    ensures forall x :: x in people && x != id ==> x in Dropped(people, id)
    ensures forall x :: x in Dropped(people, id) ==> x in people
  {
  }

  lemma LeaveKeeps(s: State, id: int)
    requires Inv(s) && id in s.clients
    ensures Inv(Left(s, id))
  {
    if s.clients[id] in s.rooms {
      DroppedIs(s.rooms[s.clients[id]].people, id);
    }
  }

  lemma PositionAtEnd(people: seq<int>, id: int)
    requires id !in people
    ensures Position(people + [id], id) == |people|
  {
    assert (people + [id])[|people|] == id;
    assert forall j :: 0 <= j < |people| ==> (people + [id])[j] == people[j] && people[j] in people;
  }

  /** Leaving undoes joining for a client who was in no room and not on that room's list. */
  lemma LeaveUndoesJoin(s: State, id: int, room: int)
    requires Inv(s) && id in s.clients && s.clients[id] == 0 && room in s.rooms && id !in s.rooms[room].people
    ensures Left(Joined(s, id, room), id) == s
  {
    var people := s.rooms[room].people;
    PositionAtEnd(people, id);
    assert (people + [id])[..|people|] + (people + [id])[|people| + 1..] == people;
    assert s.rooms[room := s.rooms[room].(people := people)] == s.rooms;
    assert s.clients[id := room][id := 0] == s.clients;
  }

  /** A granted creation finds an id nobody is in: one of the 255 is free, or at least no client is in the last room. */
  ghost predicate Roomy(s: State, op: Op)
    requires Enabled(s, op)
  {
    op.Create? && MayCreate(s, op.id, op.name, op.nbMax) ==>
      (exists k :: 1 <= k <= LAST_ID && k !in s.rooms) || (forall c :: c in s.clients ==> s.clients[c] != LAST_ID)
  }

  lemma StepKeeps(s: State, op: Op)
    requires Inv(s) && Enabled(s, op) && Roomy(s, op)
    ensures Inv(Do(s, op))
  {
    match op
    case List(id) => ListKeeps(s);
    case Create(id, name, password, nbMax) =>
      if MayCreate(s, id, name, nbMax) {
        CreateKeepsIff(s, id, name, password, nbMax);
      }
    case Join(id, room, password) =>
      if MayJoin(s, id, room, password) {
        JoinKeeps(s, id, room);
      }
    case Leave(id) => LeaveKeeps(s, id);
    case Arrive(id) =>
    case Vanish(id) =>
  }

  ghost predicate Possible(s: State, ops: seq<Op>)
    requires Inv(s)
    decreases |ops|
  {
    ops == []
    || (Enabled(s, ops[0]) && Roomy(s, ops[0]) && (StepKeeps(s, ops[0]); Possible(Do(s, ops[0]), ops[1..])))
  }

  ghost function After(s: State, ops: seq<Op>): State
    requires Inv(s) && Possible(s, ops)
    decreases |ops|
  {
    if ops == [] then s else StepKeeps(s, ops[0]); After(Do(s, ops[0]), ops[1..])
  }

  lemma {:induction false} RunsKeep(s: State, ops: seq<Op>)
    requires Inv(s) && Possible(s, ops)
    ensures Inv(After(s, ops))
    decreases |ops|
  {
    if ops != [] {
      StepKeeps(s, ops[0]);
      RunsKeep(Do(s, ops[0]), ops[1..]);
    }
  }

  /** A server without rooms or clients. */
  function Empty(last: int): State {
    State(map[], last, map[])
  }

  lemma EmptyIsSound(last: int)
    requires 0 <= last <= LAST_ID
    ensures Inv(Empty(last))
  {
  }

  /** The requests can be made in this order on a server without rooms. */
  ghost predicate Servable(last: int, ops: seq<Op>) {
    0 <= last <= LAST_ID && (EmptyIsSound(last); Possible(Empty(last), ops))
  }

  /** The server after them. */
  ghost function Served(last: int, ops: seq<Op>): (t: State)
    requires Servable(last, ops)
    ensures Inv(t)
  {
    RunsKeep(Empty(last), ops);
    After(Empty(last), ops)
  }

  /**
   * From a server without rooms on, over any run: no room is left empty, no two rooms share a name, and every online
   * client in a room is on the list of an existing room of that id.
   */
  lemma NobodyUnlisted(last: int, ops: seq<Op>)
    requires Servable(last, ops)
    ensures
      var t := Served(last, ops);
      && (forall id :: id in t.rooms ==> 1 <= id <= LAST_ID && t.rooms[id].people != [])
      && (forall i, j :: i in t.rooms && j in t.rooms && t.rooms[i].name == t.rooms[j].name ==> i == j)
      && (forall c :: c in t.clients && t.clients[c] != 0 ==>
            t.clients[c] in t.rooms && c in t.rooms[t.clients[c]].people)
  {
    var t := Served(last, ops);
    assert Inv(t);
  }

  // ------------------------------------------------ a full house

  /** A name of the given length, different for every length. */
  function Name(n: nat): string {
    seq(n, _ => 'a')
  }

  function Home(c: int): int {
    if c <= LAST_ID then c else 0
  }

  /** All 255 ids taken, one client in each room, and one more client in none. */
  function FullHouse(last: int): State {
    State(map id: int | 1 <= id <= LAST_ID :: Room(Name(id), None, 10, [id]), last,
          map c: int | 1 <= c <= LAST_ID + 1 :: Home(c))
  }

  lemma FullHouseIsSound(last: int)
    requires 0 <= last <= LAST_ID
    ensures Inv(FullHouse(last))
  {
    var s := FullHouse(last);
    forall i, j | i in s.rooms && j in s.rooms && s.rooms[i].name == s.rooms[j].name
      ensures i == j
    {
      assert |Name(i)| == |Name(j)|;
    }
  }

  /** There the next id is 0xff, in use; the creation overwrites that room and leaves its one client unlisted. */
  lemma FullHouseLosesARoom(last: int, nbMax: nat)
    requires 0 <= last <= LAST_ID && nbMax != 0
    ensures var s := FullHouse(last);
            && Inv(s) && MayCreate(s, 256, "b", nbMax) && NextId(s.rooms, last) == LAST_ID && LAST_ID in s.rooms
            && !Seated(Created(s, 256, "b", None, nbMax))
  {
    var s := FullHouse(last);
    FullHouseIsSound(last);
    NextIdIs(s.rooms, last);
    NoFreeIdMeansLast(s.rooms, last);
    forall id | id in s.rooms
      ensures s.rooms[id].name != "b"
    {
      assert s.rooms[id].name[0] == 'a';
    }
    CreateKeepsIff(s, 256, "b", None, nbMax);
    assert s.clients[LAST_ID] == LAST_ID;
  }
}
