/** The chatroom requests as the character server runs them, changing its room map and its clients in place. */
module ChatServer {
  import opened Wrappers
  import opened Chatrooms

  class CCharServer {
    var chatrooms: map<int, Room>
    var lastChatroomId: int
    var clients: map<int, int>

    ghost function View(): State
      reads this
    {
      State(chatrooms, lastChatroomId, clients)
    }

    constructor ()
      ensures View() == State(map[], 0, map[]) && Inv(View())
    {
      chatrooms, lastChatroomId, clients := map[], 0, map[];
    }

    /** GetChatroomID: up from the last id, then again from 1. */
    method GetChatroomID(last: int) returns (id: int)
      requires 0 <= last <= LAST_ID
      ensures id == NextId(chatrooms, last)
    {
      ghost var ids := Order(last);
      var k := last + 1;
      while k < LAST_ID
        invariant last < k && (k <= LAST_ID || last == LAST_ID)
        invariant forall j :: 0 <= j < k - last - 1 && j < |ids| ==> ids[j] in chatrooms
        invariant last < LAST_ID ==> k - last - 1 <= |ids|
        invariant last == LAST_ID ==> k == last + 1
      {
        assert ids[k - last - 1] == k;
        if k !in chatrooms {
          FirstUnusedIs(chatrooms, ids, k - last - 1);
          return k;
        }
        k := k + 1;
      }
      ghost var first := if last < LAST_ID then LAST_ID - 1 - last else 0;
      k := 1;
      while k <= last
        invariant 1 <= k <= last + 1
        invariant forall j :: 0 <= j < first + k - 1 ==> ids[j] in chatrooms
      {
        assert ids[first + k - 1] == k;
        if k !in chatrooms {
          FirstUnusedIs(chatrooms, ids, first + k - 1);
          return k;
        }
        k := k + 1;
      }
      FirstUnusedIs(chatrooms, ids, |ids|);
      return LAST_ID;
    }

    /** The member check of one room: after an erasure it starts over, but at position 1. */
    method CleanMembers(people: seq<int>) returns (r: seq<int>)
      ensures r == Cleaned(people, clients)
    {
      r := people;
      if people == [] {
        return;
      }
      ghost var goal := Cleaned(people, clients);
      var k := 0;
      while k < |r|
        invariant k == 0 ==> r == people
        invariant k > 0 ==> Halfway(goal, clients, r, k)
        decreases |r|, |r| - k
      {
        if k == 0 {
          FirstLook(people, clients);
        } else if r[k] in clients {
          NextOnline(goal, clients, r, k);
        } else {
          NextOffline(goal, clients, r, k);
        }
        if r[k] !in clients {
          r := r[..k] + r[k + 1..];
          k := 0;
        }
        k := k + 1;
      }
      DoneLooking(goal, clients, r, k);
    }

    /** The list request's cleaning of every room. */
    method CleanRooms()
      requires Inv(View())
      modifies `chatrooms
      ensures chatrooms == CleanedRooms(old(View()))
      ensures Inv(View())
    {
      ghost var s := View();
      for id := 1 to LAST_ID + 1
        invariant forall j :: j in chatrooms <==> j in s.rooms && (j < id ==> Cleaned(s.rooms[j].people, clients) != [])
        invariant forall j :: j in chatrooms ==>
          chatrooms[j] == if j < id then s.rooms[j].(people := Cleaned(s.rooms[j].people, clients)) else s.rooms[j]
      {
        if id in chatrooms {
          var people := CleanMembers(chatrooms[id].people);
          if people == [] {
            chatrooms := chatrooms - {id};
          } else {
            chatrooms := chatrooms[id := chatrooms[id].(people := people)];
          }
        }
      }
      ListKeeps(s);
    }

    method ListRooms(id: int)
      requires Inv(View()) && id in clients
      modifies `chatrooms
      ensures View() == Do(old(View()), List(id)) && Inv(View())
    {
      if clients[id] == 0 {
        CleanRooms();
      }
    }

    method IsNameTaken(name: string) returns (taken: bool)
      requires Inv(View())
      ensures taken == NameTaken(chatrooms, name)
    {
      for id := 1 to LAST_ID + 1
        invariant forall j :: j in chatrooms && j < id ==> chatrooms[j].name != name
      {
        if id in chatrooms && chatrooms[id].name == name {
          return true;
        }
      }
      return false;
    }

    /** Creation; a protected room's password longer than four characters is dropped. */
    method CreateRoom(id: int, name: string, asked: Option<string>, maxPeople: nat)
      requires Inv(View()) && id in clients
      modifies this
      ensures
        var password := if asked.Some? && |asked.value| > 4 then None else asked;
        View() == Do(old(View()), Create(id, name, password, maxPeople))
      ensures Rooms(View())
      ensures Roomy(old(View()), Create(id, name, asked, maxPeople)) ==> Inv(View())
    {
      ghost var s := View();
      var password := asked;
      if asked.Some? && |asked.value| > 4 {
        password := None;
      }
      if clients[id] != 0 || maxPeople == 0 || name == "" {
        return;
      }
      var taken := IsNameTaken(name);
      if taken {
        return;
      }
      CreateKeepsIff(s, id, name, password, maxPeople);
      lastChatroomId := GetChatroomID(lastChatroomId);
      chatrooms := chatrooms[lastChatroomId := Room(name, password, maxPeople, [id])];
      clients := clients[id := lastChatroomId];
    }

    /** The first position of a member, by the loop of both the join and the leave request. */
    static method FindMember(people: seq<int>, id: int) returns (k: nat)
      ensures k == Position(people, id)
    {
      k := 0;
      while k < |people|
        invariant k <= |people| && forall j :: 0 <= j < k ==> people[j] != id
      {
        if people[k] == id {
          break;
        }
        k := k + 1;
      }
      PositionIs(people, id, k);
    }

    method JoinRoom(id: int, room: int, password: Option<string>)
      requires Inv(View()) && id in clients
      modifies `chatrooms, `clients
      ensures View() == Do(old(View()), Join(id, room, password)) && Inv(View())
    {
      if room !in chatrooms {
        return;
      }
      if chatrooms[room].password.Some? && password != chatrooms[room].password {
        return;
      }
      var maxUsers := FindMember(chatrooms[room].people, id);
      if maxUsers > chatrooms[room].nbMax {
        return;
      }
      JoinKeeps(View(), id, room);
      chatrooms := chatrooms[room := chatrooms[room].(people := chatrooms[room].people + [id])];
      clients := clients[id := room];
    }

    /** DisconnectClientFromChat. */
    method DisconnectClientFromChat(id: int)
      requires Inv(View()) && id in clients
      modifies `chatrooms, `clients
      ensures View() == Left(old(View()), id) && Inv(View())
    {
      LeaveKeeps(View(), id);
      var room := clients[id];
      if room == 0 {
        return;
      }
      if room in chatrooms {
        var people := chatrooms[room].people;
        var k := FindMember(people, id);
        if k < |people| {
          people := people[..k] + people[k + 1..];
        }
        if people == [] {
          chatrooms := chatrooms - {room};
        } else {
          chatrooms := chatrooms[room := chatrooms[room].(people := people)];
        }
      }
      clients := clients[id := 0];
    }
  }

  // ------------------------------------------------ what the loops need

  lemma {:induction false} PositionIs(people: seq<int>, id: int, k: nat)
    requires k <= |people| && (k < |people| ==> people[k] == id) && forall j :: 0 <= j < k ==> people[j] != id
    ensures Position(people, id) == k
  {
  }

  /** The cleaning loop at position k, on its way to goal: what is in front stays, the rest is still to be looked at. */
  ghost predicate Halfway(goal: seq<int>, clients: map<int, int>, r: seq<int>, k: int) {
    if r == [] then k >= 1 && goal == []
    else
      && 1 <= k <= |r| && goal == r[..k] + Online(r[k..], clients)
      && forall j :: 1 <= j < k ==> r[j] in clients
  }

  lemma FirstLook(people: seq<int>, clients: map<int, int>)
    requires people != []
    ensures Halfway(Cleaned(people, clients), clients,
                    if people[0] in clients then people else people[..0] + people[1..], 1)
  {
    assert people[..0] + people[1..] == people[1..];
  }

  lemma {:induction false} OnlineConcat(a: seq<int>, b: seq<int>, clients: map<int, int>)
    ensures Online(a + b, clients) == Online(a, clients) + Online(b, clients)
  {
    if b == [] {
      assert a + b == a;
    } else {
      var n := |b| - 1;
      assert (a + b)[..|a + b| - 1] == a + b[..n];
      OnlineConcat(a, b[..n], clients);
    }
  }

  lemma {:induction false} AllOnline(a: seq<int>, clients: map<int, int>)
    requires forall j :: 0 <= j < |a| ==> a[j] in clients
    ensures Online(a, clients) == a
  {
    if a != [] {
      AllOnline(a[..|a| - 1], clients);
    }
  }

  lemma OnlineHead(r: seq<int>, clients: map<int, int>, k: nat)
    requires k < |r|
    ensures Online(r[k..], clients) == (if r[k] in clients then [r[k]] else []) + Online(r[k + 1..], clients)
  {
    assert r[k..] == [r[k]] + r[k + 1..];
    OnlineConcat([r[k]], r[k + 1..], clients);
    assert [r[k]][..0] == [];
  }

  lemma FrontMoves(r: seq<int>, k: nat, rest: seq<int>)
    requires 1 <= k < |r|
    ensures r[..k] + ([r[k]] + rest) == r[..k + 1] + rest
    ensures var t := r[..k] + r[k + 1..]; t[1..] == r[1..k] + r[k + 1..] && r[..k] + rest == t[..1] + (r[1..k] + rest)
  {
  }

  lemma NextOnline(goal: seq<int>, clients: map<int, int>, r: seq<int>, k: nat)
    requires Halfway(goal, clients, r, k) && k < |r| && r[k] in clients
    ensures Halfway(goal, clients, r, k + 1)
  {
    OnlineHead(r, clients, k);
    FrontMoves(r, k, Online(r[k + 1..], clients));
  }

  lemma NextOffline(goal: seq<int>, clients: map<int, int>, r: seq<int>, k: nat)
    requires Halfway(goal, clients, r, k) && k < |r| && r[k] !in clients
    ensures Halfway(goal, clients, r[..k] + r[k + 1..], 1)
  {
    OnlineHead(r, clients, k);
    assert [] + Online(r[k + 1..], clients) == Online(r[k + 1..], clients);
    FrontMoves(r, k, Online(r[k + 1..], clients));
    OnlineConcat(r[1..k], r[k + 1..], clients);
    AllOnline(r[1..k], clients);
  }

  lemma DoneLooking(goal: seq<int>, clients: map<int, int>, r: seq<int>, k: nat)
    requires Halfway(goal, clients, r, k) && k >= |r|
    ensures r == goal
  {
    if r != [] {
      assert r[..k] == r && r[k..] == [];
    }
  }
}
