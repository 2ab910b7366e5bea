/** CDungeonManager with the tables, player lists and timing fields it changes in place. */
module Dungeons {
  import BuffLedger
  import opened Wrappers
  import opened Erasing
  import opened DungeonSlots
  import opened DungeonTicks
  import opened DungeonCalls

  /** The thirty slots of MagicStatus. */
  type Statuses = s: seq<BuffLedger.Slot> | |s| == BuffLedger.DECLARED_SLOTS
    witness seq(BuffLedger.DECLARED_SLOTS, _ => BuffLedger.EMPTY_SLOT)

  /** A player as the manager sees it; map is Position->Map. */
  datatype Player = Player(map_: int, hp: int, maxHp: nat, mp: int, maxMp: nat, magicStatus: Statuses)

  type Lists = map<int, seq<int>>
  type Players = map<int, Player>

  // ------------------------------------------------ player lists

  /** Nobody is listed twice, and whoever is listed on a map stands on it. */
  ghost predicate Housed(lists: Lists, players: Players) {
    forall m :: m in lists ==>
      Distinct(lists[m]) && forall i :: 0 <= i < |lists[m]| ==> lists[m][i] in players && players[lists[m][i]].map_ == m
  }

  predicate AllDead(list: seq<int>, players: Players)
    requires forall i :: 0 <= i < |list| ==> list[i] in players
  {
    forall i :: 0 <= i < |list| ==> players[list[i]].hp <= 0
  }

  /** A slot without time left, once RefreshBuff has come by: in use it is emptied. */
  function Ended(slot: BuffLedger.Slot): BuffLedger.Slot {
    if slot.buff == 0 then BuffLedger.Faded(slot) else BuffLedger.EMPTY_SLOT
  }

  /** A fifth of the full points, but at least one hit point, and no magic status. */
  function Revived(p: Player): (r: Player)
    ensures forall j :: 0 <= j < |r.magicStatus| ==> r.magicStatus[j].buff == 0
  {
    p.(hp := if p.maxHp * 20 / 100 < 1 then 1 else p.maxHp * 20 / 100, mp := p.maxMp * 20 / 100,
       magicStatus := seq(BuffLedger.DECLARED_SLOTS,
                          j requires 0 <= j < BuffLedger.DECLARED_SLOTS => Ended(p.magicStatus[j])))
  }

  /** A player once he has been sent to a map, revived first or not. */
  function Gone(p: Player, dest: int, revive: bool): Player {
    (if revive then Revived(p) else p).(map_ := dest)
  }

  /** The players once these have been sent to a map. */
  function SentOut(players: Players, who: seq<int>, dest: int, revive: bool): Players {
    map p | p in players :: if p !in who then players[p] else Gone(players[p], dest, revive)
  }

  /** A fifth, rounded down, but at least one hit point; whatever it was before, every status is over. */
  lemma RevivedIs(p: Player)
    ensures
      var r := Revived(p);
      && (p.maxHp >= 5 ==> 5 * r.hp <= p.maxHp < 5 * (r.hp + 1)) && (p.maxHp < 5 ==> r.hp == 1)
      && 5 * r.mp <= p.maxMp < 5 * (r.mp + 1)
      && r.map_ == p.map_ && r.maxHp == p.maxHp && r.maxMp == p.maxMp
      && forall j :: 0 <= j < 30 ==>
           r.magicStatus[j].buff == 0 && r.magicStatus[j].duration == 0 && r.magicStatus[j].buffTime == 0
  {
  }

  /** Goblin Cave's people go to map 1, George's Cave's to 22, the Oblivion Temple's to 24, Forgotten Temple's to 54. */
  lemma EveryoneAtTheExit(players: Players, who: seq<int>, base: int, revive: bool, p: int)
    requires p in who && p in players
    ensures
      var q := SentOut(players, who, ExitOf(base).0, revive)[p];
      && (24 <= base <= 28 ==> q.map_ == 1) && (31 <= base <= 33 ==> q.map_ == 22)
      && (41 <= base <= 44 ==> q.map_ == 24) && (56 <= base <= 57 ==> q.map_ == 54)
      && (!revive ==> q == players[p].(map_ := q.map_))
      && (revive ==>
            && (players[p].maxHp >= 5 ==> 5 * q.hp <= players[p].maxHp < 5 * (q.hp + 1))
            && (players[p].maxHp < 5 ==> q.hp == 1) && 5 * q.mp <= players[p].maxMp < 5 * (q.mp + 1)
            && forall j :: 0 <= j < 30 ==> q.magicStatus[j].buff == 0)
  {
    RevivedIs(players[p]);
  }

  /** The lists once everyone on one map has been sent to another. */
  function Evacuated(lists: Lists, from: int, dest: int): Lists
    requires from in lists && dest in lists
  {
    lists[from := []][dest := lists[dest] + lists[from]]
  }

  lemma EvacuatedHoused(lists: Lists, players: Players, from: int, dest: int, revive: bool)
    requires Housed(lists, players) && from in lists && dest in lists && from != dest
    ensures Housed(Evacuated(lists, from, dest), SentOut(players, lists[from], dest, revive))
    ensures forall m :: m in lists && m != from && m != dest ==>
              forall i :: 0 <= i < |lists[m]| ==> lists[m][i] !in lists[from]
  {
    ListedStand(lists, players);
    JoinedDistinct(lists[dest], lists[from]);
  }

  lemma ListedStand(lists: Lists, players: Players)
    requires Housed(lists, players)
    ensures forall m, x :: m in lists && x in lists[m] ==> x in players && players[x].map_ == m
  {
  }

  lemma JoinedDistinct(a: seq<int>, b: seq<int>)
    requires Distinct(a) && Distinct(b) && forall i :: 0 <= i < |a| ==> a[i] !in b
    ensures Distinct(a + b)
  {
  }

  // ------------------------------------------------ one player leaves

  /** TeleportPlayer's effect on the lists: off the list of the map he stands on, onto the end of the other. */
  function Moved(lists: Lists, players: Players, p: int, dest: int): Lists
    requires p in players && players[p].map_ in lists && dest in lists
  {
    var off := lists[players[p].map_ := Without(lists[players[p].map_], p)];
    off[dest := off[dest] + [p]]
  }

  /** Evacuation as a loop sees it: the first i of the list are gone. */
  function PartlyEvacuated(lists: Lists, from: int, dest: int, i: nat): Lists
    requires from in lists && dest in lists && i <= |lists[from]|
  {
    lists[from := lists[from][i..]][dest := lists[dest] + lists[from][..i]]
  }

  lemma OneMoreGone(lists: Lists, players: Players, from: int, dest: int, revive: bool, i: nat)
    requires Housed(lists, players) && from in lists && dest in lists && from != dest && i < |lists[from]|
    ensures
      var who := lists[from];
      var now := SentOut(players, who[..i], dest, revive);
      var p := who[i];
      && p in now && now[p] == players[p] && now[p].map_ == from
      && Moved(PartlyEvacuated(lists, from, dest, i), now, p, dest) == PartlyEvacuated(lists, from, dest, i + 1)
      && now[p := Gone(now[p], dest, revive)]
         == SentOut(players, who[..i + 1], dest, revive)
  {
    var who := lists[from];
    var p := who[i];
    assert p !in who[..i];
    assert who[..i + 1] == who[..i] + [p];
    assert who[i..][0] == p && who[i..][1..] == who[i + 1..];
    assert (lists[dest] + who[..i]) + [p] == lists[dest] + who[..i + 1];
  }

  lemma NoneAndAllGone(lists: Lists, players: Players, from: int, dest: int, revive: bool)
    requires Housed(lists, players) && from in lists && dest in lists && from != dest
    ensures PartlyEvacuated(lists, from, dest, 0) == lists
    ensures SentOut(players, lists[from][..0], dest, revive) == players
    ensures PartlyEvacuated(lists, from, dest, |lists[from]|) == Evacuated(lists, from, dest)
    ensures lists[from][..|lists[from]|] == lists[from]
  {
    var who := lists[from];
    assert who[0..] == who && lists[dest] + who[..0] == lists[dest];
    assert who[|who|..] == [] && lists[dest] + who[..|who|] == lists[dest] + who;
  }

  // ------------------------------------------------ one pass over all instances

  /** What the pass may change about instances and players. */
  datatype Ward = Ward(rooms: map<int, Room>, lists: Lists, players: Players)

  ghost predicate WardSound(heap: map<int, Record>, w: Ward) {
    && w.rooms.Keys == heap.Keys && Housed(w.lists, w.players)
    && (forall h :: h in heap ==> heap[h].id in w.lists && heap[h].id >= FIRST_SLOT)
    && forall g, h :: g in heap && h in heap && heap[g].id == heap[h].id ==> g == h
  }

  ghost function TickOf(w: Ward, id: int, first: int, second: int): Tick
    requires Housed(w.lists, w.players) && id in w.lists
  {
    Tick(w.lists[id] == [], AllDead(w.lists[id], w.players), first, second)
  }

  /** What the state before the pass decides about an instance. */
  ghost function Verdict(heap: map<int, Record>, w: Ward, h: int, clock: (int, int, int), cps: int): Fate
    requires WardSound(heap, w) && h in heap && cps > 0
  {
    FateOf(w.rooms[h], TickOf(w, heap[h].id, clock.0, clock.1), cps)
  }

  /** An instance whose list and players the pass has left as they were. */
  ghost predicate Untouched(heap: map<int, Record>, w0: Ward, w: Ward, h: int)
    requires WardSound(heap, w0) && h in heap
  {
    var id := heap[h].id;
    && id in w.lists && w.lists[id] == w0.lists[id]
    && forall p :: p in w0.lists[id] ==> p in w.players && p in w0.players && w.players[p] == w0.players[p]
  }

  /** An instance nobody is on any more, its players at the exit and on its list, revived or as they were. */
  ghost predicate Cleared(heap: map<int, Record>, w0: Ward, w: Ward, h: int, revive: bool)
    requires WardSound(heap, w0) && h in heap
  {
    var id := heap[h].id;
    && id in w.lists && w.lists[id] == []
    && var exit := ExitOf(heap[h].key.base).0;
    && forall p :: p in w0.lists[id] ==>
         p in w.players && p in w0.players && w.players[p] == Gone(w0.players[p], exit, revive)
         && exit in w.lists && p in w.lists[exit]
  }

  /** An instance the pass is done with. */
  ghost predicate Settled(heap: map<int, Record>, w0: Ward, w: Ward, h: int, clock: (int, int, int), cps: int)
    requires WardSound(heap, w0) && h in heap && cps > 0
  {
    if Verdict(heap, w0, h, clock, cps) == Stays then
      && Untouched(heap, w0, w, h) && h in w.rooms
      && w.rooms[h] == Ticked(w0.rooms[h], TickOf(w0, heap[h].id, clock.0, clock.1), cps)
    else Cleared(heap, w0, w, h, Verdict(heap, w0, h, clock, cps) == Wipes)
  }

  /** Everyone has been sent from an instance to its exit. */
  ghost predicate LeftEmpty(heap: map<int, Record>, w0: Ward, w: Ward, h: int, revive: bool) {
    && h in heap && h in w.rooms && w.rooms == w0.rooms[h := w.rooms[h]]
    && var id, exit := heap[h].id, ExitOf(heap[h].key.base).0;
    && id in w0.lists && exit in w0.lists && id != exit
    && w.lists == Evacuated(w0.lists, id, exit) && w.players == SentOut(w0.players, w0.lists[id], exit, revive)
  }

  /** What the turn of one instance does, by the verdict on it. */
  ghost predicate Turned(heap: map<int, Record>, w: Ward, w': Ward, h: int, t: Tick, cps: int)
    requires cps > 0
  {
    && h in heap && h in w.rooms
    && var fate := FateOf(w.rooms[h], t, cps);
    && (fate == Stays || fate == Empties ==> w'.lists == w.lists && w'.players == w.players)
    && (fate == Stays ==> w'.rooms == w.rooms[h := Ticked(w.rooms[h], t, cps)])
    && (fate == Empties ==> t.empty && w'.rooms == w.rooms)
    && (fate == Wipes || fate == TimesOut ==> LeftEmpty(heap, w, w', h, fate == Wipes))
  }

  lemma LongEmptyTurn(heap: map<int, Record>, w: Ward, h: int, t: Tick, cps: int)
    requires cps > 0 && h in heap && h in w.rooms
    requires t.empty && w.rooms[h].emptySince != 0 && Seconds(t.first - w.rooms[h].emptySince, cps) >= EMPTY_LIMIT
    ensures Turned(heap, w, w, h, t, cps) && FateOf(w.rooms[h], t, cps) == Empties
  {
  }

  predicate Wiped(r: Room, t: Tick) {
    !r.wiped && !t.empty && t.allDead
  }

  /** What the second and third checks do to an instance. */
  ghost predicate Checked(heap: map<int, Record>, w: Ward, w': Ward, h: int, t: Tick, cps: int, doomed: bool)
    requires cps > 0
  {
    && h in w.rooms
    && var r := w.rooms[h];
    && (doomed <==> Wiped(r, t) || Elapsed(r, t, cps) >= r.limit)
    && if doomed then LeftEmpty(heap, w, w', h, Wiped(r, t))
       else w' == w.(rooms := w.rooms[h := Marked(r, WarningOf(r, t, cps))])
  }

  /** The three checks of an instance not found long empty, put together. */
  lemma ChecksMakeTurn(heap: map<int, Record>, w: Ward, w1: Ward, w': Ward, h: int, t: Tick, cps: int, doomed: bool)
    requires cps > 0 && h in heap && h in w.rooms
    requires !(t.empty && w.rooms[h].emptySince != 0 && Seconds(t.first - w.rooms[h].emptySince, cps) >= EMPTY_LIMIT)
    requires w1 == w.(rooms := w.rooms[h := w.rooms[h].(emptySince := EmptySince(w.rooms[h], t))])
    requires Checked(heap, w1, w', h, t, cps, doomed)
    ensures Turned(heap, w, w', h, t, cps) && (doomed <==> FateOf(w.rooms[h], t, cps) != Stays)
  {
  }

  /** Sending everyone on h home leaves any other instance alone. */
  lemma EvacuationSpares(heap: map<int, Record>, w0: Ward, w: Ward, w': Ward, h: int, revive: bool, g: int)
    requires WardSound(heap, w0) && WardSound(heap, w) && g in heap && g != h && LeftEmpty(heap, w, w', h, revive)
    ensures Untouched(heap, w0, w, g) ==> Untouched(heap, w0, w', g)
    ensures forall cured :: Cleared(heap, w0, w, g, cured) ==> Cleared(heap, w0, w', g, cured)
    ensures w'.rooms[g] == w.rooms[g]
  {
    ListedStand(w.lists, w.players);
    ExitsAreNotInstances(heap[h].key.base);
    ExitsAreNotInstances(heap[g].key.base);
  }

  lemma TurnSpares(heap: map<int, Record>, w0: Ward, w: Ward, w': Ward, h: int, t: Tick, g: int,
                   clock: (int, int, int), cps: int)
    requires cps > 0 && WardSound(heap, w0) && WardSound(heap, w) && g in heap && g != h
    requires Turned(heap, w, w', h, t, cps)
    ensures g in w'.rooms && w'.rooms[g] == w.rooms[g]
    ensures Untouched(heap, w0, w, g) ==> Untouched(heap, w0, w', g)
    ensures Settled(heap, w0, w, g, clock, cps) ==> Settled(heap, w0, w', g, clock, cps)
  {
    var fate := FateOf(w.rooms[h], t, cps);
    if fate == Wipes || fate == TimesOut {
      EvacuationSpares(heap, w0, w, w', h, fate == Wipes, g);
    }
  }

  /** Sending everyone on h home clears it. */
  lemma EvacuationClears(heap: map<int, Record>, w0: Ward, w: Ward, w': Ward, h: int, revive: bool)
    requires WardSound(heap, w0) && WardSound(heap, w) && h in heap && Untouched(heap, w0, w, h)
    requires LeftEmpty(heap, w, w', h, revive)
    ensures Cleared(heap, w0, w', h, revive)
  {
    var id, exit := heap[h].id, ExitOf(heap[h].key.base).0;
    forall p | p in w0.lists[id]
      ensures p in w'.players && p in w0.players && w'.players[p] == Gone(w0.players[p], exit, revive)
      ensures exit in w'.lists && p in w'.lists[exit]
    {
      OneSentOut(w.lists, w.players, id, exit, revive, p);
    }
  }

  lemma OneSentOut(lists: Lists, players: Players, from: int, dest: int, revive: bool, p: int)
    requires from in lists && dest in lists && from != dest && p in lists[from] && p in players
    ensures p in SentOut(players, lists[from], dest, revive)
    ensures SentOut(players, lists[from], dest, revive)[p] == Gone(players[p], dest, revive)
    ensures Evacuated(lists, from, dest)[from] == [] && p in Evacuated(lists, from, dest)[dest]
  {
  }

  /** A verdict does not depend on what the pass has done to other instances before. */
  lemma SameVerdict(heap: map<int, Record>, w0: Ward, w: Ward, h: int, clock: (int, int, int), cps: int)
    requires cps > 0 && WardSound(heap, w0) && WardSound(heap, w) && h in heap && Untouched(heap, w0, w, h)
    requires w.rooms[h] == w0.rooms[h]
    ensures TickOf(w, heap[h].id, clock.0, clock.1) == TickOf(w0, heap[h].id, clock.0, clock.1)
    ensures Verdict(heap, w, h, clock, cps) == Verdict(heap, w0, h, clock, cps)
  {
    var l := w0.lists[heap[h].id];
    assert forall i :: 0 <= i < |l| ==> l[i] in l;
  }

  lemma TurnSettles(heap: map<int, Record>, w0: Ward, w: Ward, w': Ward, h: int, clock: (int, int, int), cps: int)
    requires cps > 0 && WardSound(heap, w0) && WardSound(heap, w) && h in heap && Untouched(heap, w0, w, h)
    requires w.rooms[h] == w0.rooms[h] && Turned(heap, w, w', h, TickOf(w, heap[h].id, clock.0, clock.1), cps)
    ensures Settled(heap, w0, w', h, clock, cps)
  {
    SameVerdict(heap, w0, w, h, clock, cps);
    var fate := Verdict(heap, w0, h, clock, cps);
    if fate == Wipes || fate == TimesOut {
      EvacuationClears(heap, w0, w, w', h, fate == Wipes);
    }
  }

  type Clock = int -> (int, int, int)

  /** The pass is done with the first i instances and has not begun with the others. */
  ghost predicate PassAt(heap: map<int, Record>, w0: Ward, w: Ward, q: seq<int>, i: nat, clock: Clock, cps: int)
    requires cps > 0 && WardSound(heap, w0) && i <= |q| && forall k :: 0 <= k < |q| ==> q[k] in heap
  {
    && WardSound(heap, w)
    && (forall k :: 0 <= k < i ==> Settled(heap, w0, w, q[k], clock(q[k]), cps))
    && (forall k :: i <= k < |q| ==> Untouched(heap, w0, w, q[k]) && w.rooms[q[k]] == w0.rooms[q[k]])
  }

  lemma PassMovesOn(heap: map<int, Record>, w0: Ward, w: Ward, w': Ward, q: seq<int>, i: nat, clock: Clock, cps: int)
    requires cps > 0 && WardSound(heap, w0) && i < |q| && Distinct(q) && forall k :: 0 <= k < |q| ==> q[k] in heap
    requires PassAt(heap, w0, w, q, i, clock, cps) && WardSound(heap, w')
    requires Turned(heap, w, w', q[i], TickOf(w, heap[q[i]].id, clock(q[i]).0, clock(q[i]).1), cps)
    ensures PassAt(heap, w0, w', q, i + 1, clock, cps)
  {
    var h := q[i];
    TurnSettles(heap, w0, w, w', h, clock(h), cps);
    forall k | 0 <= k < |q| && k != i
      ensures q[k] != h
      ensures k < i ==> Settled(heap, w0, w', q[k], clock(q[k]), cps)
      ensures k > i ==> Untouched(heap, w0, w', q[k]) && w'.rooms[q[k]] == w0.rooms[q[k]]
    {
      TurnSpares(heap, w0, w, w', h, TickOf(w, heap[h].id, clock(h).0, clock(h).1), q[k], clock(q[k]), cps);
    }
  }

  /** Exactly the doomed among the first i are to be destroyed, once each. */
  ghost predicate DoomedAt(heap: map<int, Record>, w0: Ward, q: seq<int>, i: nat, doomed: seq<int>, clock: Clock,
                           cps: int)
    requires cps > 0 && WardSound(heap, w0) && i <= |q| && forall k :: 0 <= k < |q| ==> q[k] in heap
  {
    && Distinct(doomed)
    && forall h :: h in doomed <==> h in q[..i] && Verdict(heap, w0, h, clock(h), cps) != Stays
  }

  lemma DoomedMovesOn(heap: map<int, Record>, w0: Ward, q: seq<int>, i: nat, doomed: seq<int>, clock: Clock, cps: int)
    requires cps > 0 && WardSound(heap, w0) && i < |q| && Distinct(q) && forall k :: 0 <= k < |q| ==> q[k] in heap
    requires DoomedAt(heap, w0, q, i, doomed, clock, cps)
    ensures DoomedAt(heap, w0, q, i + 1,
              if Verdict(heap, w0, q[i], clock(q[i]), cps) != Stays then doomed + [q[i]] else doomed, clock, cps)
  {
    assert q[..i + 1] == q[..i] + [q[i]];
    assert q[i] !in q[..i];
    assert forall j :: 0 <= j < |doomed| ==> doomed[j] in doomed;
  }

  ghost function Members(q: seq<int>): set<int> {
    set h | h in q
  }

  lemma OneMoreMember(q: seq<int>, i: nat)
    requires i < |q| && Distinct(q)
    ensures q[..i + 1][..i] == q[..i] && q[i] !in Members(q[..i])
    ensures Members(q[..i + 1]) == Members(q[..i]) + {q[i]}
  {
    assert q[..i + 1] == q[..i] + [q[i]];
  }

  lemma MinusOneMore<T>(m: map<int, T>, gone: set<int>, x: int)
    ensures (m - gone) - {x} == m - (gone + {x})
  {
  }

  lemma UpdatedTwice<T>(m: map<int, T>, x: int, first: T, second: T)
    ensures m[x := first][x := second] == m[x := second]
  {
  }

  /** The tables once these instances have been destroyed in turn. */
  function DestroyedAll(s: State, q: seq<int>): State {
    if q == [] then s
    else
      var t := DestroyedAll(s, q[..|q| - 1]);
      if q[|q| - 1] in t.heap then Destroyed(t, q[|q| - 1]) else t
  }

  /** What a whole pass promises of one instance. */
  ghost predicate Outcome(heap: map<int, Record>, heap': map<int, Record>, w0: Ward, w: Ward, h: int,
                          clock: (int, int, int), cps: int)
    requires cps > 0 && WardSound(heap, w0) && h in heap
  {
    && (h in heap' <==> Verdict(heap, w0, h, clock, cps) == Stays)
    && (h in heap' ==>
          && heap'[h] == heap[h] && Untouched(heap, w0, w, h) && h in w.rooms
          && w.rooms[h] == Ticked(w0.rooms[h], TickOf(w0, heap[h].id, clock.0, clock.1), cps))
    && (h !in heap' ==> Cleared(heap, w0, w, h, Verdict(heap, w0, h, clock, cps) == Wipes))
  }

  ghost predicate Outcomes(heap: map<int, Record>, heap': map<int, Record>, w0: Ward, w: Ward, clock: Clock, cps: int)
  {
    cps > 0 && WardSound(heap, w0) && forall h :: h in heap ==> Outcome(heap, heap', w0, w, h, clock(h), cps)
  }

  lemma PassOutcome(heap: map<int, Record>, w0: Ward, w: Ward, rooms: map<int, Room>, q: seq<int>, doomed: seq<int>,
                    clock: Clock, cps: int)
    requires cps > 0 && WardSound(heap, w0)
    requires (forall h :: h in q <==> h in heap) && forall k :: 0 <= k < |q| ==> q[k] in heap
    requires PassAt(heap, w0, w, q, |q|, clock, cps) && DoomedAt(heap, w0, q, |q|, doomed, clock, cps)
    requires rooms == w.rooms - Members(doomed)
    ensures Outcomes(heap, heap - Members(doomed), w0, w.(rooms := rooms), clock, cps)
    ensures Distinct(doomed) && forall i :: 0 <= i < |doomed| ==> doomed[i] in heap
  {
    assert q[..|q|] == q;
    assert forall i :: 0 <= i < |doomed| ==> doomed[i] in doomed;
    forall h | h in heap
      ensures Outcome(heap, heap - Members(doomed), w0, w.(rooms := rooms), h, clock(h), cps)
    {
      assert h in q;
      assert Settled(heap, w0, w, h, clock(h), cps);
    }
  }

  /** In plain words: who survives a pass is within its time and has somebody standing on it, or nobody on it at all. */
  lemma SurvivorsAreInTime(heap: map<int, Record>, heap': map<int, Record>, w0: Ward, w: Ward, clock: Clock, cps: int,
                           h: int)
    requires Outcomes(heap, heap', w0, w, clock, cps) && h in heap && h in heap'
    ensures Seconds(clock(h).1 - w0.rooms[h].creation, cps) < w0.rooms[h].limit
    ensures w.lists[heap[h].id] == w0.lists[heap[h].id]
    ensures w0.rooms[h].wiped || w.lists[heap[h].id] == []
         || exists p :: p in w.lists[heap[h].id] && p in w.players && w.players[p].hp > 0
  {
    var l := w0.lists[heap[h].id];
    if !w0.rooms[h].wiped && l != [] {
      var i :| 0 <= i < |l| && w0.players[l[i]].hp > 0;
      assert l[i] in l;
    }
  }

  /**
   * And which do not, by plain readings of the state and clock before: empty for thirty seconds by its own record,
   * everybody on it down for the first time, or at its time limit.
   */
  lemma DestroyedIff(heap: map<int, Record>, heap': map<int, Record>, w0: Ward, w: Ward, clock: Clock, cps: int, h: int)
    requires Outcomes(heap, heap', w0, w, clock, cps) && h in heap && w0.rooms[h].limit > 0
    ensures
      var r, l := w0.rooms[h], w0.lists[heap[h].id];
      h !in heap' <==>
        || (l == [] && r.emptySince != 0 && clock(h).0 - r.emptySince >= 30 * cps)
        || (l != [] && !r.wiped && forall p :: p in l ==> w0.players[p].hp <= 0)
        || clock(h).1 - r.creation >= r.limit * cps
  {
    var r, l := w0.rooms[h], w0.lists[heap[h].id];
    SecondsAtLeast(clock(h).0 - r.emptySince, cps, 30);
    SecondsAtLeast(clock(h).1 - r.creation, cps, r.limit);
    DownIs(l, w0.players);
  }

  lemma DownIs(list: seq<int>, players: Players)
    requires forall i :: 0 <= i < |list| ==> list[i] in players
    ensures AllDead(list, players) <==> forall p :: p in list ==> players[p].hp <= 0
  {
    if AllDead(list, players) {
      forall p | p in list
        ensures players[p].hp <= 0
      {
        var i :| 0 <= i < |list| && list[i] == p;
      }
    } else {
      var i :| 0 <= i < |list| && players[list[i]].hp > 0;
      var p := list[i];
      assert p in list && players[p].hp > 0;
    }
  }

  /** Where the people of a destroyed instance are, and how: only those of a wiped one are revived. */
  lemma SentHome(heap: map<int, Record>, heap': map<int, Record>, w0: Ward, w: Ward, clock: Clock, cps: int, h: int,
                 p: int)
    requires Outcomes(heap, heap', w0, w, clock, cps) && h in heap && h !in heap' && p in w0.lists[heap[h].id]
    ensures p in w0.players && p in w.players && w.players[p].map_ in w.lists && p in w.lists[w.players[p].map_]
    ensures
      var base, l, was, q := heap[h].key.base, w0.lists[heap[h].id], w0.players[p], w.players[p];
      var wiped := !w0.rooms[h].wiped && forall x :: x in l ==> w0.players[x].hp <= 0;
      && (24 <= base <= 28 ==> q.map_ == 1) && (31 <= base <= 33 ==> q.map_ == 22)
      && (41 <= base <= 44 ==> q.map_ == 24) && (56 <= base <= 57 ==> q.map_ == 54)
      && (!wiped ==> q == was.(map_ := q.map_))
      && (wiped ==> (was.maxHp >= 5 ==> 5 * q.hp <= was.maxHp < 5 * (q.hp + 1)) && (was.maxHp < 5 ==> q.hp == 1))
  {
    RevivedIs(w0.players[p]);
    DownIs(w0.lists[heap[h].id], w0.players);
  }

  /** And who does not is empty at the end, with everyone who was on it standing on a map that is no instance. */
  lemma NobodyIsLost(heap: map<int, Record>, heap': map<int, Record>, w0: Ward, w: Ward, clock: Clock, cps: int,
                     h: int, p: int)
    requires Outcomes(heap, heap', w0, w, clock, cps) && h in heap && h !in heap' && p in w0.lists[heap[h].id]
    ensures w.lists[heap[h].id] == [] && p in w.players && 0 < w.players[p].map_ < FIRST_SLOT
  {
    ExitsAreNotInstances(heap[h].key.base);
  }

  /** In a quiet state ids tell instances apart. */
  lemma IdsAreDistinct(s: State)
    requires Quiet(s)
    ensures forall g, h :: g in s.heap && h in s.heap && s.heap[g].id == s.heap[h].id ==> g == h
  {
    assert forall h :: h in s.heap ==> Owns(s, h);
  }

  // ------------------------------------------------ the manager

  class DungeonManager {
    const index: array<Slot>
    const maxZone: nat
    const cps: int
    var list: seq<int>
    var heap: map<int, Record>
    var rooms: map<int, Room>
    var active: map<int, int>
    var parties: map<Key, int>
    var lists: Lists
    var players: Players

    ghost function View(): State
      reads `list, `heap, `active, `parties, index
    {
      State(index[..], list, heap, active, parties, map[], Free, Between, [])
    }

    /** The tables are sound and agree, and every instance is a cave. */
    ghost predicate Tables()
      reads `list, `heap, `active, `parties, index
    {
      Quiet(View()) && OneToOne(View()) && forall h :: h in heap ==> IsCave(heap[h].key.base)
    }

    ghost function Now(): Ward
      reads `rooms, `lists, `players
    {
      Ward(rooms, lists, players)
    }

    /** Every instance has its timing fields and its player list, and every exit has one. */
    ghost predicate Peopled()
      reads `heap, `rooms, `lists, `players
    {
      && cps > 0 && rooms.Keys == heap.Keys && Housed(lists, players)
      && 1 in lists && 2 in lists && 22 in lists && 24 in lists && 54 in lists
      && forall h :: h in heap ==> heap[h].id in lists && heap[h].id >= FIRST_SLOT
    }

    /** A server that has loaded its zones: nobody has an instance yet. */
    constructor (loaded: seq<bool>, cps: int, lists: Lists, players: Players)
      requires |loaded| <= MAX_ZONE_INSTANCES && cps > 0 && Housed(lists, players)
      requires 1 in lists && 2 in lists && 22 in lists && 24 in lists && 54 in lists
      ensures Tables() && Peopled() && heap == map[] && fresh(index)
      ensures maxZone == |loaded| && this.cps == cps && this.lists == lists && this.players == players
      ensures forall id :: 0 <= id < index.Length ==>
                index[id] == if id < |loaded| && loaded[id] then Static else NullZone
    {
      index := new Slot[MAX_ZONE_INSTANCES](_ => NullZone);
      maxZone, this.cps := |loaded|, cps;
      list, heap, rooms, active, parties := [], map[], map[], map[], map[];
      this.lists, this.players := lists, players;
      new;
      for i := 0 to |loaded|
        modifies index
        invariant forall id :: 0 <= id < index.Length ==>
          index[id] == if id < i && loaded[id] then Static else NullZone
      {
        if loaded[i] {
          index[i] := Static;
        }
      }
    }

    /** CreateInstance, for any base zone and party. */
    method CreateInstance(base: nat, partyId: nat, pointer: int, now: int) returns (r: Option<int>)
      requires Quiet(View()) && pointer !in heap && (base < maxZone ==> base < MAX_ZONE_INSTANCES)
      modifies index, `list, `heap, `rooms, `active, `parties, `lists
      ensures Quiet(View())
      ensures
        var s := old(View());
        var key := Key(base, partyId);
        if base < maxZone && s.index[base] != NullZone && FirstFree(s, FIRST_SLOT) < MAX_ZONE_INSTANCES then
          && r == Some(pointer) && View() == Opened(s, key, pointer) && Recorded(View(), pointer)
          && rooms == old(rooms)[pointer := NewRoom(now)] && lists == old(lists)[heap[pointer].id := []]
          && rooms[pointer].creation == now && rooms[pointer].limit == 1800
          && (OneToOne(s) ==> (OneToOne(View()) <==> key !in s.parties))
        else
          r == None && View() == s && rooms == old(rooms) && lists == old(lists)
    {
      var key := Key(base, partyId);
      ghost var s := View();
      if base >= maxZone || index[base] == NullZone {
        return None;
      }
      var newId := 0;
      var id := FIRST_SLOT;
      while id < MAX_ZONE_INSTANCES
        invariant FIRST_SLOT <= id <= MAX_ZONE_INSTANCES && newId == 0
        invariant FirstFree(s, FIRST_SLOT) == FirstFree(s, id)
      {
        if index[id] == NullZone && id !in active {
          newId := id;
          break;
        }
        id := id + 1;
      }
      if newId == 0 {
        return None;
      }
      CreatedKeeps(s, key, newId, pointer);
      CreatedIs(s, key, newId, pointer);
      if OneToOne(s) {
        CreatedOneToOneIff(s, key, newId, pointer);
      }
      Enter(key, newId, pointer, NewRoom(now));
      return Some(pointer);
    }

    /** The registrations of a new instance. */
    method Enter(key: Key, id: int, h: int, room: Room)
      requires 0 <= id < index.Length
      modifies index, `list, `heap, `rooms, `active, `parties, `lists
      ensures View() == old(View()).(index := old(index[..])[id := Owner(h)], list := old(list) + [h],
                                     heap := old(heap)[h := Record(id, key)],
                                     active := old(active)[id := h], parties := old(parties)[key := id])
      ensures rooms == old(rooms)[h := room] && lists == old(lists)[id := []]
    {
      heap, rooms, lists := heap[h := Record(id, key)], rooms[h := room], lists[id := []];
      index[id] := Owner(h);
      list := list + [h];
      active := active[id := h];
      parties := parties[key := id];
    }

    /** A creation for a cave and a party without an entry. */
    method CreateFor(key: Key, pointer: int, now: int) returns (r: Option<int>)
      requires Tables() && pointer !in heap && IsCave(key.base) && key.party >= 0 && key !in parties
      modifies index, `list, `heap, `rooms, `active, `parties, `lists
      ensures Tables()
      ensures
        var s := old(View());
        if key.base < maxZone && s.index[key.base] != NullZone then
          View() == Apply(s, Visit(key, pointer)) && r == if Hits(View(), key) then Some(Found(View(), key)) else None
        else View() == s && r == None
      ensures rooms == if pointer in heap then old(rooms)[pointer := NewRoom(now)] else old(rooms)
      ensures lists == if pointer in heap then old(lists)[heap[pointer].id := []] else old(lists)
    {
      OpenedServes(View(), key, pointer);
      r := CreateInstance(key.base, key.party, pointer, now);
    }

    /** GetOrCreatePartyInstance. */
    method GetOrCreatePartyInstance(party: Option<nat>, charId: nat, mapId: nat, pointer: int, now: int)
      returns (r: Option<int>)
      requires Tables() && pointer !in heap
      modifies index, `list, `heap, `rooms, `active, `parties, `lists
      ensures Tables()
      ensures
        var s := old(View());
        var key := Key(BaseZone(s, mapId), PartyKey(party, charId));
        if IsCave(key.base) && (Hits(s, key) || (key.base < maxZone && s.index[key.base] != NullZone)) then
          && View() == Apply(s, Visit(key, pointer))
          && r == (if Hits(View(), key) then Some(Found(View(), key)) else None)
        else View() == s && r == None
      ensures rooms == if pointer in heap then old(rooms)[pointer := NewRoom(now)] else old(rooms)
      ensures lists == if pointer in heap then old(lists)[heap[pointer].id := []] else old(lists)
      ensures
        var s := old(View());
        r.Some? ==> r.value in heap && heap[r.value].key == Key(BaseZone(s, mapId), PartyKey(party, charId))
    {
      ghost var s := View();
      var base := mapId;
      if mapId < MAX_ZONE_INSTANCES && index[mapId].Owner? {
        base := heap[index[mapId].h].key.base;
      }
      if !IsCave(base) {
        return None;
      }
      var partyId := if party.Some? && party.value > 0 then party.value else Solo(charId);
      var key := Key(base, partyId);
      LookupIsLive(s, key);
      if key in parties {
        var instId := parties[key];
        if instId < MAX_ZONE_INSTANCES && index[instId].Owner? {
          return Some(index[instId].h);
        }
      }
      r := CreateFor(key, pointer, now);
      LookupIsLive(View(), key);
    }

    /** TeleportPlayer, as far as player lists and positions go. */
    method TeleportPlayer(p: int, dest: int)
      requires p in players && players[p].map_ in lists && dest in lists
      modifies `lists, `players
      ensures lists == Moved(old(lists), old(players), p, dest)
      ensures players == old(players)[p := old(players)[p].(map_ := dest)]
    {
      var from := players[p].map_;
      var rest := EraseFirst(lists[from], p);
      lists := lists[from := rest];
      players := players[p := players[p].(map_ := dest)];
      lists := lists[dest := lists[dest] + [p]];
    }

    /** The loop of a wipe that takes the time off a player's slots. */
    method Fade(magicStatus: Statuses) returns (slots: Statuses)
      ensures slots == BuffLedger.FadeTo(magicStatus, BuffLedger.DECLARED_SLOTS)
    {
      slots := magicStatus;
      for j := 0 to BuffLedger.DECLARED_SLOTS
        invariant slots == BuffLedger.FadeTo(magicStatus, j)
      {
        slots := slots[j := BuffLedger.Faded(slots[j])];
      }
    }

    /** RefreshBuff, as far as slots without time left go. */
    method RefreshBuff(faded: Statuses) returns (slots: Statuses)
      ensures forall j :: 0 <= j < |slots| ==>
                slots[j] == if faded[j].buff == 0 then faded[j] else BuffLedger.EMPTY_SLOT
    {
      slots := faded;
      for i := 0 to BuffLedger.DECLARED_SLOTS
        invariant forall j :: 0 <= j < |slots| ==>
          slots[j] == if j < i && faded[j].buff != 0 then BuffLedger.EMPTY_SLOT else faded[j]
      {
        if slots[i].buff != 0 {
          slots := slots[i := BuffLedger.EMPTY_SLOT];
        }
      }
    }

    /** What a wipe does to one player before sending him out. */
    method Revive(player: int)
      requires player in players
      modifies `players
      ensures players == old(players)[player := Revived(old(players)[player])]
    {
      var p := players[player];
      var hp := p.maxHp * 20 / 100;
      if hp < 1 {
        hp := 1;
      }
      var slots := Fade(p.magicStatus);
      slots := RefreshBuff(slots);
      assert slots == Revived(p).magicStatus;
      players := players[player := p.(hp := hp, mp := p.maxMp * 20 / 100, magicStatus := slots)];
    }

    /** The loop over a copy of the player list that sends everyone out. */
    method SendOut(id: int, exit: int, revive: bool)
      requires Housed(lists, players) && id in lists && exit in lists && id != exit
      modifies `lists, `players
      ensures lists == Evacuated(old(lists), id, exit)
      ensures players == SentOut(old(players), old(lists)[id], exit, revive)
      ensures Housed(lists, players)
    {
      ghost var l, p := lists, players;
      var playersToTeleport := lists[id];
      NoneAndAllGone(l, p, id, exit, revive);
      for i := 0 to |playersToTeleport|
        invariant lists == PartlyEvacuated(l, id, exit, i)
        invariant players == SentOut(p, playersToTeleport[..i], exit, revive)
      {
        OneMoreGone(l, p, id, exit, revive, i);
        var player := playersToTeleport[i];
        if revive {
          Revive(player);
        }
        TeleportPlayer(player, exit);
      }
      EvacuatedHoused(l, p, id, exit, revive);
    }

    /** HandlePartyWipe: everyone is revived and sent out, once. */
    method HandlePartyWipe(h: int, now: int)
      requires Peopled() && h in heap
      modifies `rooms, `lists, `players
      ensures Peopled()
      ensures
        var id, exit := heap[h].id, ExitOf(heap[h].key.base).0;
        if old(rooms)[h].wiped then rooms == old(rooms) && lists == old(lists) && players == old(players)
        else
          && lists == Evacuated(old(lists), id, exit) && players == SentOut(old(players), old(lists)[id], exit, true)
          && rooms == old(rooms)[h := old(rooms)[h].(wiped := true, emptySince := now)]
      ensures
        var base := heap[h].key.base;
        !old(rooms)[h].wiped ==>
          forall p :: p in old(lists)[heap[h].id] ==>
            && p in old(players) && p in players
            && players[p].map_ in lists && p in lists[players[p].map_]
            && (24 <= base <= 28 ==> players[p].map_ == 1) && (31 <= base <= 33 ==> players[p].map_ == 22)
            && (41 <= base <= 44 ==> players[p].map_ == 24) && (56 <= base <= 57 ==> players[p].map_ == 54)
            && (old(players)[p].maxHp >= 5 ==>
                  5 * players[p].hp <= old(players)[p].maxHp < 5 * (players[p].hp + 1))
            && (old(players)[p].maxHp < 5 ==> players[p].hp == 1)
    {
      if rooms[h].wiped {
        return;
      }
      ghost var was := rooms;
      rooms := rooms[h := rooms[h].(wiped := true)];
      ExitsAreNotInstances(heap[h].key.base);
      SendOut(heap[h].id, ExitOf(heap[h].key.base).0, true);
      rooms := rooms[h := rooms[h].(emptySince := now)];
      UpdatedTwice(was, h, was[h].(wiped := true), rooms[h]);
      forall p | p in old(lists)[heap[h].id] {
        EveryoneAtTheExit(old(players), old(lists)[heap[h].id], heap[h].key.base, true, p);
      }
    }

    /** HandleTimeout: everyone is sent out as they are. */
    method HandleTimeout(h: int, now: int)
      requires Peopled() && h in heap
      modifies `rooms, `lists, `players
      ensures Peopled()
      ensures
        var id, exit := heap[h].id, ExitOf(heap[h].key.base).0;
        && lists == Evacuated(old(lists), id, exit) && players == SentOut(old(players), old(lists)[id], exit, false)
        && rooms == old(rooms)[h := old(rooms)[h].(emptySince := now)]
      ensures
        var base := heap[h].key.base;
        forall p :: p in old(lists)[heap[h].id] ==>
          && p in old(players) && p in players && players[p] == old(players)[p].(map_ := players[p].map_)
          && players[p].map_ in lists && p in lists[players[p].map_]
          && (24 <= base <= 28 ==> players[p].map_ == 1) && (31 <= base <= 33 ==> players[p].map_ == 22)
          && (41 <= base <= 44 ==> players[p].map_ == 24) && (56 <= base <= 57 ==> players[p].map_ == 54)
    {
      ExitsAreNotInstances(heap[h].key.base);
      SendOut(heap[h].id, ExitOf(heap[h].key.base).0, false);
      rooms := rooms[h := rooms[h].(emptySince := now)];
      forall p | p in old(lists)[heap[h].id] {
        EveryoneAtTheExit(old(players), old(lists)[heap[h].id], heap[h].key.base, false, p);
      }
    }

    /** The wipe check's loop. */
    method NobodyStands(list: seq<int>) returns (allDead: bool)
      requires forall i :: 0 <= i < |list| ==> list[i] in players
      ensures allDead == AllDead(list, players)
    {
      for j := 0 to |list|
        invariant AllDead(list[..j], players)
      {
        if players[list[j]].hp > 0 {
          return false;
        }
      }
      return true;
    }

    /** What this pass sees of an instance. */
    ghost function Seen(h: int, first: int, second: int): Tick
      requires Peopled() && h in heap
      reads `heap, `rooms, `lists, `players
    {
      var l := lists[heap[h].id];
      Tick(l == [], AllDead(l, players), first, second)
    }

    /** Update's first check: empty, and for how long? */
    method CheckEmpty(h: int, now: int) returns (gone: bool)
      requires Peopled() && h in heap
      modifies `rooms
      ensures Peopled()
      ensures
        var r, t := old(rooms)[h], old(Seen(h, now, 0));
        && (gone <==> t.empty && r.emptySince != 0 && Seconds(now - r.emptySince, cps) >= EMPTY_LIMIT)
        && Now() == if gone then old(Now())
                    else old(Now()).(rooms := old(rooms)[h := r.(emptySince := EmptySince(r, t))])
    {
      if lists[heap[h].id] == [] {
        if rooms[h].emptySince == 0 {
          rooms := rooms[h := rooms[h].(emptySince := now)];
        } else if Seconds(now - rooms[h].emptySince, cps) >= EMPTY_LIMIT {
          return true;
        }
      } else {
        rooms := rooms[h := rooms[h].(emptySince := 0)];
      }
      return false;
    }

    /** Update's second check: have all of them fallen? */
    method CheckWipe(h: int, now: int) returns (wiped: bool)
      requires Peopled() && h in heap
      modifies `rooms, `lists, `players
      ensures Peopled()
      ensures
        var r, t := old(rooms)[h], old(Seen(h, now, 0));
        && (wiped <==> !r.wiped && !t.empty && t.allDead)
        && if wiped then LeftEmpty(heap, old(Now()), Now(), h, true)
           else rooms == old(rooms) && lists == old(lists) && players == old(players)
    {
      if !rooms[h].wiped && lists[heap[h].id] != [] {
        wiped := NobodyStands(lists[heap[h].id]);
        if wiped {
          HandlePartyWipe(h, now);
        }
        return;
      }
      return false;
    }

    /** Update's third check: is the time up, and if not, is a warning due? */
    method CheckTime(h: int, now: int, later: int) returns (over: bool)
      requires Peopled() && h in heap
      modifies `rooms, `lists, `players
      ensures Peopled()
      ensures
        var r, t := old(rooms)[h], old(Seen(h, 0, now));
        && (over <==> Elapsed(r, t, cps) >= r.limit)
        && if over then LeftEmpty(heap, old(Now()), Now(), h, false)
           else
             && rooms == old(rooms)[h := Marked(r, WarningOf(r, t, cps))]
             && lists == old(lists) && players == old(players)
    {
      var elapsed := Seconds(now - rooms[h].creation, cps);
      if elapsed >= rooms[h].limit {
        HandleTimeout(h, later);
        return true;
      }
      var rem := rooms[h].limit - elapsed;
      if rem <= 60 && !rooms[h].warn1 {
        rooms := rooms[h := rooms[h].(warn1 := true)];
      } else if rem <= 300 && !rooms[h].warn5 {
        rooms := rooms[h := rooms[h].(warn5 := true)];
      } else if rem <= 600 && !rooms[h].warn10 {
        rooms := rooms[h := rooms[h].(warn10 := true)];
      }
      return false;
    }

    /** The second and third checks of an instance that was not found long empty. */
    method CheckPlayers(h: int, ghost first: int, second: int, third: int) returns (doomed: bool)
      requires Peopled() && h in heap
      modifies `rooms, `lists, `players
      ensures Peopled()
      ensures Checked(heap, old(Now()), Now(), h, old(Seen(h, first, second)), cps, doomed)
    {
      doomed := CheckWipe(h, third);
      if !doomed {
        doomed := CheckTime(h, second, third);
      }
    }

    /** The turn of one instance in Update's loop, with its clock readings. */
    method Examine(h: int, first: int, second: int, third: int) returns (doomed: bool)
      requires Peopled() && h in heap
      modifies `rooms, `lists, `players
      ensures Peopled()
      ensures doomed <==> FateOf(old(rooms)[h], old(Seen(h, first, second)), cps) != Stays
      ensures Turned(heap, old(Now()), Now(), h, old(Seen(h, first, second)), cps)
    {
      ghost var w, t := Now(), Seen(h, first, second);
      doomed := CheckEmpty(h, first);
      if doomed {
        LongEmptyTurn(heap, w, h, t, cps);
        return;
      }
      ghost var w1 := Now();
      doomed := CheckPlayers(h, first, second, third);
      ChecksMakeTurn(heap, w, w1, Now(), h, t, cps, doomed);
    }

    /** DestroyInstance, for a null pointer or any map; only an instance goes. */
    method DestroyInstance(map_: Option<Slot>)
      requires Tables() && Peopled() && (map_.Some? && map_.value.Owner? ==> map_.value.h in heap)
      modifies index, `list, `heap, `rooms, `active, `parties
      ensures Tables() && Peopled()
      ensures
        if map_.Some? && map_.value.Owner? then
          var h := map_.value.h;
          View() == Destroyed(old(View()), h) && heap == old(heap) - {h} && rooms == old(rooms) - {h}
        else View() == old(View()) && rooms == old(rooms)
    {
      if map_.None? || !map_.value.Owner? {
        return;
      }
      Unregister(map_.value.h);
    }

    /** The rest of DestroyInstance, for an instance. */
    method Unregister(h: int)
      requires Tables() && Peopled() && h in heap
      modifies index, `list, `heap, `rooms, `active, `parties
      ensures Tables() && Peopled()
      ensures View() == Destroyed(old(View()), h) && heap == old(heap) - {h} && rooms == old(rooms) - {h}
    {
      ghost var s := View();
      DestroyedKeeps(s, h);
      DestroyedIs(s, h);
      DropOneToOne(s, h);
      var instId, key := heap[h].id, heap[h].key;
      active := active - {instId};
      parties := parties - {key};
      if instId < MAX_ZONE_INSTANCES && index[instId] == Owner(h) {
        index[instId] := NullZone;
      }
      list := EraseFirst(list, h);
      heap, rooms := heap - {h}, rooms - {h};
    }

    /** Update's copy of the active instances, in id order. */
    method Snapshot() returns (instances: seq<int>)
      requires Tables()
      ensures Distinct(instances) && (forall h :: h in instances <==> h in heap)
      ensures forall k :: 0 <= k < |instances| ==> instances[k] in heap
    {
      instances := [];
      ghost var s := View();
      for id := 0 to MAX_ZONE_INSTANCES
        invariant Distinct(instances) && forall k :: 0 <= k < |instances| ==> instances[k] in heap
        invariant forall h :: h in instances <==> h in heap && heap[h].id < id
      {
        assert id in active ==> s.index[id].Owner? && heap[active[id]].id == id;
        if id in active {
          instances := instances + [active[id]];
        }
        assert forall h :: h in heap && heap[h].id == id ==> Recorded(s, h);
      }
    }

    /** Update's first loop: which instances are to go? */
    method ExamineAll(instances: seq<int>, clock: Clock) returns (toDestroy: seq<int>)
      requires Peopled() && WardSound(heap, Now()) && Distinct(instances)
      requires forall k :: 0 <= k < |instances| ==> instances[k] in heap
      modifies `rooms, `lists, `players
      ensures Peopled()
      ensures PassAt(heap, old(Now()), Now(), instances, |instances|, clock, cps)
      ensures DoomedAt(heap, old(Now()), instances, |instances|, toDestroy, clock, cps)
    {
      toDestroy := [];
      ghost var w0 := Now();
      for i := 0 to |instances|
        invariant Peopled()
        invariant PassAt(heap, w0, Now(), instances, i, clock, cps)
        invariant DoomedAt(heap, w0, instances, i, toDestroy, clock, cps)
      {
        var h := instances[i];
        ghost var w := Now();
        SameVerdict(heap, w0, w, h, clock(h), cps);
        var doomed := Examine(h, clock(h).0, clock(h).1, clock(h).2);
        PassMovesOn(heap, w0, w, Now(), instances, i, clock, cps);
        DoomedMovesOn(heap, w0, instances, i, toDestroy, clock, cps);
        if doomed {
          toDestroy := toDestroy + [h];
        }
      }
    }

    /** Update's second loop. */
    method DestroyAll(toDestroy: seq<int>)
      requires Tables() && Peopled() && Distinct(toDestroy) && forall i :: 0 <= i < |toDestroy| ==> toDestroy[i] in heap
      modifies index, `list, `heap, `rooms, `active, `parties
      ensures Tables() && Peopled()
      ensures View() == DestroyedAll(old(View()), toDestroy)
      ensures heap == old(heap) - Members(toDestroy) && rooms == old(rooms) - Members(toDestroy)
    {
      ghost var s, r := View(), rooms;
      for i := 0 to |toDestroy|
        invariant Tables() && Peopled() && View() == DestroyedAll(s, toDestroy[..i])
        invariant heap == s.heap - Members(toDestroy[..i]) && rooms == r - Members(toDestroy[..i])
      {
        OneMoreMember(toDestroy, i);
        MinusOneMore(s.heap, Members(toDestroy[..i]), toDestroy[i]);
        MinusOneMore(r, Members(toDestroy[..i]), toDestroy[i]);
        DestroyInstance(Some(Owner(toDestroy[i])));
      }
      assert toDestroy[..|toDestroy|] == toDestroy;
    }

    /** Update up to its second loop: the verdicts are in, and the doomed instances have been left. */
    method Collect(clock: Clock) returns (toDestroy: seq<int>)
      requires Tables() && Peopled()
      modifies `rooms, `lists, `players
      ensures Peopled() && Distinct(toDestroy) && forall i :: 0 <= i < |toDestroy| ==> toDestroy[i] in heap
      ensures Outcomes(heap, heap - Members(toDestroy), old(Now()), Now().(rooms := rooms - Members(toDestroy)),
                       clock, cps)
    {
      IdsAreDistinct(View());
      ghost var w0 := Now();
      var instances := Snapshot();
      toDestroy := ExamineAll(instances, clock);
      PassOutcome(heap, w0, Now(), rooms - Members(toDestroy), instances, toDestroy, clock, cps);
    }

    /**
     * Update: exactly the instances whose verdict is not to stay are destroyed, once each, with nobody left on them and
     * their players at an exit that is no instance; the others keep their players and only have their clocks advanced.
     */
    method Update(clock: Clock) returns (ghost gone: seq<int>)
      requires Tables() && Peopled()
      modifies index, `list, `heap, `rooms, `active, `parties, `lists, `players
      ensures Tables() && Peopled() && Distinct(gone)
      ensures View() == DestroyedAll(old(View()), gone) && heap == old(heap) - Members(gone)
      ensures Outcomes(old(heap), heap, old(Now()), Now(), clock, cps)
    {
      var toDestroy := Collect(clock);
      DestroyAll(toDestroy);
      gone := toDestroy;
    }
  }
}
