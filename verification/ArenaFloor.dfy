/** Who the arena's loops over the floor really reach. */
module ArenaFloor {
  import opened Erasing
  import opened Arena
  import opened ArenaRuns

  // ------------------------------------------------ the sync and pruning loops

  lemma {:induction false} SyncedExtends(roster: seq<Fighter>, h: Hall, n: nat)
    requires Sound(h) && n <= |h.list|
    ensures roster <= Synced(roster, h, n).0
    ensures forall id :: id in h.people ==> Synced(roster, h, n).1[id].inGame == h.people[id].inGame
  {
    if n > 0 {
      SyncedExtends(roster, h, n - 1);
    }
  }

  /** After the sync loop everyone in game among the first n has an entry. */
  lemma {:induction false} SyncedCovers(roster: seq<Fighter>, h: Hall, n: nat, i: nat)
    requires Sound(h) && i < n <= |h.list| && h.people[h.list[i]].inGame
    ensures exists f :: f in Synced(roster, h, n).0 && f.id == h.list[i]
  {
    SyncedExtends(roster, h, n - 1);
    var (r, people) := Synced(roster, h, n - 1);
    var id := h.list[n - 1];
    if i < n - 1 {
      SyncedCovers(roster, h, n - 1, i);
      var f :| f in r && f.id == h.list[i];
      assert f in Synced(roster, h, n).0;
    } else if Listed(r, id) {
      assert r[Find(r, id)] in r;
    } else {
      var team := if people[id].pvpId > 0 then people[id].pvpId else Smaller(r);
      assert Fighter(id, team, 0, 0, false, 0) in Synced(roster, h, n).0;
    }
  }

  /**
   * After Update's two roster loops every entry is of somebody on the floor, everybody in game on the floor has an
   * entry, and entries of people still there are kept as they were.
   */
  lemma RosterMatchesFloor(roster: seq<Fighter>, h: Hall)
    requires Sound(h)
    ensures
      var r := Pruned(Synced(roster, h, |h.list|).0, h.list);
      && (forall i :: 0 <= i < |r| ==> r[i].id in h.list)
      && (forall i :: 0 <= i < |h.list| && h.people[h.list[i]].inGame ==> exists f :: f in r && f.id == h.list[i])
      && (forall i :: 0 <= i < |roster| && roster[i].id in h.list ==> roster[i] in r)
  {
    var synced := Synced(roster, h, |h.list|).0;
    PrunedWithin(synced, h.list);
    SyncedExtends(roster, h, |h.list|);
    forall i | 0 <= i < |h.list| && h.people[h.list[i]].inGame
      ensures exists f :: f in Pruned(synced, h.list) && f.id == h.list[i]
    {
      SyncedCovers(roster, h, |h.list|, i);
      var f :| f in synced && f.id == h.list[i];
      var k :| 0 <= k < |synced| && synced[k] == f;
      assert f.id in h.list;
    }
    forall i | 0 <= i < |roster| && roster[i].id in h.list
      ensures roster[i] in Pruned(synced, h.list)
    {
      assert synced[i] == roster[i];
    }
  }

  // ------------------------------------------------ joining, leaving, standing up again

  predicate Even(roster: seq<Fighter>) {
    -1 <= Count(roster, 1) - Count(roster, 2) <= 1
  }

  lemma {:induction false} CountOfAppend(roster: seq<Fighter>, f: Fighter, team: int)
    ensures Count(roster + [f], team) == Count(roster, team) + if f.team == team then 1 else 0
  {
    assert (roster + [f])[..|roster|] == roster;
  }

  /** A newcomer goes to the smaller team, so even teams stay even. */
  lemma JoinKeepsTeamsEven(m: Match, h: Hall, id: int)
    requires id in h.people && !Listed(m.roster, id) && Even(m.roster)
    ensures Even(Joined(m, h, id).0.roster)
    ensures var (m', h', _) := Joined(m, h, id);
            m' != m ==>
              Listed(m'.roster, id) && TeamOf(m'.roster, id, 0) == h'.people[id].pvpId
              && h'.people[id].map_ == 9
  {
    var team := Smaller(m.roster);
    var f := Fighter(id, team, 0, 0, false, 0);
    CountOfAppend(m.roster, f, 1);
    CountOfAppend(m.roster, f, 2);
    NewIsFound(m.roster, f);
  }

  lemma {:induction false} NewIsFound(roster: seq<Fighter>, f: Fighter)
    requires !Listed(roster, f.id)
    ensures Find(roster + [f], f.id) == |roster|
  {
    if roster != [] {
      assert (roster + [f])[1..] == roster[1..] + [f];
      NewIsFound(roster[1..], f);
    }
  }

  /** Whoever leaves is off the roster, off the floor and on no team. */
  lemma LeaveClears(m: Match, h: Hall, id: int)
    requires RosterOk(m.roster) && Sound(h) && id in h.people
    ensures
      var (m', h') := Left(m, h, id);
      && (forall i :: 0 <= i < |m'.roster| ==> m'.roster[i].id != id)
      && id !in h'.list && h'.people[id].map_ == 2 && h'.people[id].pvpId == -1 && !h'.people[id].inGame
  {
    WithoutDropsOne(h.list, id);
    ListedStand(h);
  }

  lemma ListedStand(h: Hall)
    requires Sound(h)
    ensures forall x :: x in h.list ==> x in h.people && h.people[x].map_ == ARENA_MAP
  {
  }

  lemma {:induction false} RevivedSameFloor(roster: seq<Fighter>, h: Hall, now: int, n: nat)
    requires RosterOk(roster) && Sound(h) && n <= |roster|
    ensures
      var (r, h') := Revived(roster, h, now, n);
      |r| == |roster| && Sound(h') && forall x :: x in h'.list <==> x in h.list
  {
    RevivedKeeps(roster, h, now, n);
    if n > 0 {
      RevivedSameFloor(roster, h, now, n - 1);
      var (r, h1) := Revived(roster, h, now, n - 1);
      if r[n - 1].id in h1.list {
        StaysOnFloor(h1, r[n - 1].id);
      }
    }
  }

  /** After the respawn loop nobody who was down, due and on the floor is still down; other entries are unchanged. */
  lemma {:induction false} DueStandAgain(roster: seq<Fighter>, h: Hall, now: int, n: nat, i: nat)
    requires RosterOk(roster) && Sound(h) && i < |roster| && n <= |roster|
    ensures
      var f := roster[i];
      && |Revived(roster, h, now, n).0| == |roster|
      && Revived(roster, h, now, n).0[i]
         == if i < n && f.isDead && now >= f.respawnTime && f.id in h.list then f.(isDead := false) else f
  {
    if n > 0 {
      DueStandAgain(roster, h, now, n - 1, i);
      RevivedSameFloor(roster, h, now, n - 1);
      ListedStand(Revived(roster, h, now, n - 1).1);
    }
  }

  lemma ToBackMembers(list: seq<int>, i: nat)
    requires i < |list|
    ensures forall x :: x in ToBack(list, i) <==> x in list
  {
    assert list == list[..i] + [list[i]] + list[i + 1..];
  }

  lemma StaysOnFloor(h: Hall, id: int)
    requires Sound(h) && id in h.list
    ensures id in h.people && forall x :: x in Respawned(h, id).list <==> x in h.list
  {
    var i :| 0 <= i < |h.list| && h.list[i] == id;
    WithoutAt(h.list, i);
    assert Respawned(h, id).list == ToBack(h.list, i);
    ToBackMembers(h.list, i);
  }

  // ------------------------------------------------ the loop of StartMatch

  /** The people StartMatch readies, from the list as it stood: whoever follows one of them is passed over. */
  function Chosen(list: seq<int>, people: map<int, Person>): seq<int>
    requires forall i :: 0 <= i < |list| ==> list[i] in people
  {
    if list == [] then []
    else if !people[list[0]].inGame then Chosen(list[1..], people)
    else [list[0]] + (if |list| == 1 then [] else Chosen(list[2..], people))
  }

  lemma {:induction false} ChosenWithin(list: seq<int>, people: map<int, Person>)
    requires forall i :: 0 <= i < |list| ==> list[i] in people
    ensures forall x :: x in Chosen(list, people) ==> x in list && x in people && people[x].inGame
  {
    if list == [] {
    } else if !people[list[0]].inGame {
      ChosenWithin(list[1..], people);
    } else if |list| > 1 {
      ChosenWithin(list[2..], people);
    }
  }

  /** A readied person: a team if he had none, full hit points, and loading the map again. */
  function Fresh(roster: seq<Fighter>, id: int, p: Person): Person {
    var team := TeamOf(roster, id, p.pvpId);
    p.(pvpId := if team <= 0 then Smaller(roster) else team, hp := p.maxHp, map_ := ARENA_MAP, inGame := false)
  }

  /** From position i on, with nobody in game from position k on, StartMatch readies exactly the chosen. */
  lemma {:induction false} ReadyingChosen(roster: seq<Fighter>, h: Hall, i: nat, k: nat, id: int)
    requires Sound(h) && Teamed(roster) && i <= k <= |h.list| && id in h.people
    requires forall j :: k <= j < |h.list| ==> !h.people[h.list[j]].inGame
    ensures Readying(roster, h, i).people.Keys == h.people.Keys
    ensures Readying(roster, h, i).people[id]
         == if id in Chosen(h.list[i..k], h.people) then Fresh(roster, id, h.people[id]) else h.people[id]
    decreases |h.list| - i
  {
    if i < |h.list| && !h.people[h.list[i]].inGame {
      ReadyingChosen(roster, h, i + 1, if k == i then i + 1 else k, id);
      if i < k {
        assert h.list[i..k][1..] == h.list[i + 1..k];
      }
    } else if i < k {
      ReadyingOne(roster, h, i, k, id);
    }
  }

  lemma {:induction false} ChosenAgrees(list: seq<int>, p: map<int, Person>, q: map<int, Person>)
    requires forall i :: 0 <= i < |list| ==> list[i] in p && list[i] in q && p[list[i]].inGame == q[list[i]].inGame
    ensures Chosen(list, p) == Chosen(list, q)
  {
    if list == [] {
    } else if !p[list[0]].inGame {
      ChosenAgrees(list[1..], p, q);
    } else if |list| > 1 {
      ChosenAgrees(list[2..], p, q);
    }
  }

  /** Past the one at position i, the loop has this much left to choose from. */
  function Unseen(list: seq<int>, i: nat, k: nat): seq<int>
    requires i < k <= |list|
  {
    if k == i + 1 then [] else list[i + 2..k]
  }

  lemma ReadiedRest(roster: seq<Fighter>, h: Hall, i: nat, k: nat)
    requires Sound(h) && Teamed(roster) && i < k <= |h.list| && h.people[h.list[i]].inGame
    requires forall j :: k <= j < |h.list| ==> !h.people[h.list[j]].inGame
    ensures
      var h' := Readied(roster, h, h.list[i]);
      var k' := if k == i + 1 then i + 1 else k - 1;
      && Sound(h') && |h'.list| == |h.list|
      && h'.people == h.people[h.list[i] := Fresh(roster, h.list[i], h.people[h.list[i]])]
      && h'.list[i + 1..k'] == Unseen(h.list, i, k)
      && (forall j :: k' <= j < |h.list| ==> !h'.people[h'.list[j]].inGame)
  {
    ReadiedSound(roster, h, i);
    ToBackSame(h.list, i);
  }

  lemma ChosenSplit(h: Hall, i: nat, k: nat, p: map<int, Person>)
    requires Sound(h) && i < k <= |h.list| && h.people[h.list[i]].inGame && p.Keys == h.people.Keys
    requires forall x :: x in p && x != h.list[i] ==> p[x] == h.people[x]
    ensures Chosen(h.list[i..k], h.people) == [h.list[i]] + Chosen(Unseen(h.list, i, k), p)
    ensures h.list[i] !in Chosen(Unseen(h.list, i, k), p)
  {
    ChosenAgrees(Unseen(h.list, i, k), p, h.people);
    ChosenWithin(Unseen(h.list, i, k), p);
    if k > i + 1 {
      assert h.list[i..k][2..] == Unseen(h.list, i, k);
    }
  }

  lemma ReadyingOne(roster: seq<Fighter>, h: Hall, i: nat, k: nat, id: int)
    requires Sound(h) && Teamed(roster) && i < k <= |h.list| && id in h.people && h.people[h.list[i]].inGame
    requires forall j :: k <= j < |h.list| ==> !h.people[h.list[j]].inGame
    ensures Readying(roster, h, i).people.Keys == h.people.Keys
    ensures Readying(roster, h, i).people[id]
         == if id in Chosen(h.list[i..k], h.people) then Fresh(roster, id, h.people[id]) else h.people[id]
    decreases |h.list| - i, 0
  {
    var h' := Readied(roster, h, h.list[i]);
    ReadiedRest(roster, h, i, k);
    ReadyingChosen(roster, h', i + 1, if k == i + 1 then i + 1 else k - 1, id);
    ChosenSplit(h, i, k, h'.people);
  }

  // ------------------------------------------------ who is passed over

  lemma {:induction false} ChosenAdjacent(list: seq<int>, people: map<int, Person>, j: nat)
    requires Distinct(list) && (forall i :: 0 <= i < |list| ==> list[i] in people) && j + 1 < |list|
    ensures !(list[j] in Chosen(list, people) && list[j + 1] in Chosen(list, people))
    decreases |list|
  {
    var c := if people[list[0]].inGame then 2 else 1;
    ChosenWithin(list[c..], people);
    if j >= c {
      ChosenAdjacent(list[c..], people, j - c);
    }
  }

  lemma {:induction false} LonersAreChosen(list: seq<int>, people: map<int, Person>, j: nat)
    requires (forall i :: 0 <= i < |list| ==> list[i] in people) && j < |list| && people[list[j]].inGame
    requires forall i :: 0 <= i && i + 1 < |list| ==> !(people[list[i]].inGame && people[list[i + 1]].inGame)
    ensures list[j] in Chosen(list, people)
    decreases |list|
  {
    var c := if people[list[0]].inGame then 2 else 1;
    if j >= c {
      LonersAreChosen(list[c..], people, j - c);
    }
  }

  /**
   * StartMatch gives everyone in game on the floor a fresh start exactly when no two of them are neighbours in the
   * list; otherwise somebody is passed over, unhealed and not sent to a base.
   */
  lemma EveryoneIsReadiedIff(roster: seq<Fighter>, h: Hall)
    requires Sound(h) && Teamed(roster)
    ensures Readying(roster, h, 0).people.Keys == h.people.Keys
    ensures
      (forall j :: 0 <= j < |h.list| && h.people[h.list[j]].inGame ==> !Readying(roster, h, 0).people[h.list[j]].inGame)
      <==> forall j :: 0 <= j && j + 1 < |h.list| ==> !(h.people[h.list[j]].inGame && h.people[h.list[j + 1]].inGame)
  {
    var n := |h.list|;
    assert h.list[0..n] == h.list;
    forall id | id in h.people
      ensures Readying(roster, h, 0).people.Keys == h.people.Keys
      ensures Readying(roster, h, 0).people[id]
           == if id in Chosen(h.list, h.people) then Fresh(roster, id, h.people[id]) else h.people[id]
    {
      ReadyingChosen(roster, h, 0, n, id);
    }
    ReadyingKeys(roster, h);
    if forall j :: 0 <= j && j + 1 < n ==> !(h.people[h.list[j]].inGame && h.people[h.list[j + 1]].inGame) {
      forall j | 0 <= j < n && h.people[h.list[j]].inGame
        ensures h.list[j] in Chosen(h.list, h.people)
      {
        LonersAreChosen(h.list, h.people, j);
      }
    } else {
      var j :| 0 <= j && j + 1 < n && h.people[h.list[j]].inGame && h.people[h.list[j + 1]].inGame;
      ChosenAdjacent(h.list, h.people, j);
    }
  }

  /** Red and Blue, both hurt, next to each other on the floor. */
  const TWO_NEIGHBOURS :=
    Hall([1, 2], map[1 := Person(1, true, ARENA_MAP, 50, 100, 0, 0), 2 := Person(2, true, ARENA_MAP, 50, 100, 0, 0)])

  /** The smallest match there is: the first of the two is healed and sent to his base, the second is not. */
  lemma SecondOfTwoIsPassedOver(roster: seq<Fighter>)
    requires Teamed(roster)
    ensures Sound(TWO_NEIGHBOURS) && Readying(roster, TWO_NEIGHBOURS, 0).people.Keys == {1, 2}
    ensures var people := Readying(roster, TWO_NEIGHBOURS, 0).people;
            people[1].hp == 100 && !people[1].inGame && people[2] == Person(2, true, ARENA_MAP, 50, 100, 0, 0)
  {
    var h := TWO_NEIGHBOURS;
    assert h.list[0..2] == h.list && h.list[2..] == [];
    assert Chosen(h.list, h.people) == [1];
    ReadyingChosen(roster, h, 0, 2, 1);
    ReadyingChosen(roster, h, 0, 2, 2);
  }

  lemma {:induction false} ReadyingKeys(roster: seq<Fighter>, h: Hall)
    requires Sound(h) && Teamed(roster)
    ensures Readying(roster, h, 0).people.Keys == h.people.Keys
  {
    if h.list != [] {
      ReadyingChosen(roster, h, 0, |h.list|, h.list[0]);
    }
  }
}
