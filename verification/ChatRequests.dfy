/** What a client gets for a chatroom request: which rooms are made, who is let in, who is gone after leaving. */
module ChatRequests {
  import opened Chatrooms
  import opened Wrappers

  /**
   * A creation makes one room, with the asked name, password and places and its owner alone in it, under an id of
   * 1..0xff; or nothing, for somebody in a room, without a name or places, or for a name another room has.
   */
  lemma CreationIs(s: State, id: int, name: string, password: Option<string>, nbMax: nat)
    requires Inv(s) && id in s.clients
    ensures
      var t := Do(s, Create(id, name, password, nbMax));
      if s.clients[id] == 0 && nbMax > 0 && |name| > 0 && forall n :: n in s.rooms ==> s.rooms[n].name != name then
        && 1 <= t.last <= 0xff && t.rooms == s.rooms[t.last := Room(name, password, nbMax, [id])]
        && t.clients == s.clients[id := t.last]
      else t == s
  {
    NextIdIs(s.rooms, s.last);
  }

  lemma {:induction false} PositionOfStranger(people: seq<int>, id: int)
    requires id !in people
    ensures Position(people, id) == |people|
  {
  }

  /** Somebody not on the list is let into an existing room without a password, or with it, that has places left. */
  lemma StrangerIsLetInIff(s: State, id: int, room: int, password: Option<string>)
    requires Inv(s) && id in s.clients && (room in s.rooms ==> id !in s.rooms[room].people)
    ensures
      var t := Do(s, Join(id, room, password));
      if room in s.rooms && (s.rooms[room].password == None || password == s.rooms[room].password)
         && |s.rooms[room].people| <= s.rooms[room].nbMax then
        && t.rooms.Keys == s.rooms.Keys && t.rooms[room].people == s.rooms[room].people + [id]
        && t.clients == s.clients[id := room]
        && forall n :: n in s.rooms && n != room ==> t.rooms[n] == s.rooms[n]
      else t == s
  {
    if room in s.rooms {
      PositionOfStranger(s.rooms[room].people, id);
    }
  }

  /** The password a room was made with is the one that opens it, and no other does. */
  lemma PasswordGuards(s: State, id: int, name: string, secret: string, nbMax: nat, guest: int, word: Option<string>)
    requires Inv(s) && id in s.clients && guest in s.clients && guest != id
    requires s.clients[id] == 0 && nbMax > 0 && |name| > 0 && forall n :: n in s.rooms ==> s.rooms[n].name != name
    ensures
      var t := Do(s, Create(id, name, Some(secret), nbMax));
      && 0 <= t.last <= 0xff && t.last in t.rooms && guest in t.clients
      && var u := Do(t, Join(guest, t.last, word));
      if word == Some(secret) then u.rooms[t.last].people == [id, guest] && u.clients[guest] == t.last else u == t
  {
    CreationIs(s, id, name, Some(secret), nbMax);
    PositionOfStranger([id], guest);
  }

  /** A room without one is open to whatever word. */
  lemma NoPasswordNoGuard(s: State, id: int, name: string, nbMax: nat, guest: int, word: Option<string>)
    requires Inv(s) && id in s.clients && guest in s.clients && guest != id
    requires s.clients[id] == 0 && nbMax > 0 && |name| > 0 && forall n :: n in s.rooms ==> s.rooms[n].name != name
    ensures
      var t := Do(s, Create(id, name, None, nbMax));
      && 0 <= t.last <= 0xff && t.last in t.rooms && guest in t.clients
      && Do(t, Join(guest, t.last, word)).rooms[t.last].people == [id, guest]
  {
    CreationIs(s, id, name, None, nbMax);
    PositionOfStranger([id], guest);
  }

  lemma DroppedLosesOne(people: seq<int>, id: int)
    requires id in people
    ensures multiset(Dropped(people, id)) == multiset(people) - multiset{id}
  {
    var i := Position(people, id);
    assert i < |people|;
    assert people == people[..i] + [people[i]] + people[i + 1..];
  }

  /** Whoever leaves takes one listing of his off his room, and the room goes with the last listing; no other does. */
  lemma LeavingTakesOne(s: State, id: int)
    requires Inv(s) && id in s.clients && s.clients[id] != 0
    ensures
      var t, room := Do(s, Leave(id)), s.clients[id];
      && t.clients == s.clients[id := 0] && t.last == s.last
      && (room in t.rooms <==> |s.rooms[room].people| > 1)
      && (room in t.rooms ==> multiset(t.rooms[room].people) == multiset(s.rooms[room].people) - multiset{id})
      && (forall n :: n in s.rooms && n != room ==> n in t.rooms && t.rooms[n] == s.rooms[n])
      && forall n :: n in t.rooms ==> n in s.rooms
  {
    DroppedLosesOne(s.rooms[s.clients[id]].people, id);
    var people := Dropped(s.rooms[s.clients[id]].people, id);
    assert |people| == |s.rooms[s.clients[id]].people| - 1;
  }
}
