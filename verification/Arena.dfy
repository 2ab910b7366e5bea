/** The Akram arena's match manager: what each call does to the match, the roster and the people on map 9. */
module Arena {
  import opened Wrappers
  import opened Erasing

  const ARENA_MAP: int := 9
  const EXIT_MAP: int := 2
  const ROUND_DURATION: int := 300
  const MAX_KILLS: int := 10

  datatype Phase = Idle | Countdown | Active | Ended

  /** A roster entry. */
  datatype Fighter = Fighter(id: int, team: int, kills: int, deaths: int, isDead: bool, respawnTime: int)

  datatype Match = Match(phase: Phase, timer: int, score1: int, score2: int, roster: seq<Fighter>)

  /** A player as the arena sees it. */
  datatype Person = Person(pvpId: int, inGame: bool, map_: int, hp: int, maxHp: int, zulies: int, exp: int)

  /** The player list of map 9, and everybody. */
  datatype Hall = Hall(list: seq<int>, people: map<int, Person>)

  datatype Event = Start(at: int) | End(at: int, winner: int, score1: int, score2: int)

  // ------------------------------------------------ the roster

  /** FindArenaPlayer: the first entry of a client, or the roster's length. */
  function Find(roster: seq<Fighter>, id: int): (i: nat)
    ensures i <= |roster|
    ensures i < |roster| ==> roster[i].id == id
    ensures forall j :: 0 <= j < i ==> roster[j].id != id
  {
    if roster == [] || roster[0].id == id then 0 else 1 + Find(roster[1..], id)
  }

  /** Every entry is on the red or the blue team. */
  predicate Teamed(roster: seq<Fighter>) {
    forall i :: 0 <= i < |roster| ==> roster[i].team == 1 || roster[i].team == 2
  }

  predicate Listed(roster: seq<Fighter>, id: int) {
    Find(roster, id) < |roster|
  }

  function Count(roster: seq<Fighter>, team: int): nat {
    if roster == [] then 0 else Count(roster[..|roster| - 1], team) + if roster[|roster| - 1].team == team then 1 else 0
  }

  /** AssignTeam's choice: Red unless Blue has fewer. */
  function Smaller(roster: seq<Fighter>): (team: int)
    ensures team == 1 || team == 2
  {
    if Count(roster, 1) <= Count(roster, 2) then 1 else 2
  }

  function TeamOf(roster: seq<Fighter>, id: int, pvpId: int): int {
    if Listed(roster, id) then roster[Find(roster, id)].team else pvpId
  }

  function Kills(roster: seq<Fighter>): int {
    if roster == [] then 0 else Kills(roster[..|roster| - 1]) + roster[|roster| - 1].kills
  }

  /** The roster without the first entry of a client. */
  function Removed(roster: seq<Fighter>, id: int): seq<Fighter> {
    var i := Find(roster, id);
    if i < |roster| then roster[..i] + roster[i + 1..] else roster
  }

  // ------------------------------------------------ the floor

  ghost predicate Sound(h: Hall) {
    && Distinct(h.list)
    && (forall i :: 0 <= i < |h.list| ==>
          h.list[i] in h.people && h.people[h.list[i]].map_ == ARENA_MAP && -1 <= h.people[h.list[i]].pvpId <= 2)
  }

  /** TeleportPlayer: off this map's list if he was on it, onto the end of it if he comes to it, and loading again. */
  function Sent(h: Hall, id: int, dest: int): Hall
    requires id in h.people
  {
    var off := if h.people[id].map_ == ARENA_MAP then Without(h.list, id) else h.list;
    Hall(if dest == ARENA_MAP then off + [id] else off, h.people[id := h.people[id].(map_ := dest, inGame := false)])
  }

  /** RespawnPlayerAtBase. */
  function Respawned(h: Hall, id: int): Hall
    requires id in h.people
  {
    Sent(h.(people := h.people[id := h.people[id].(hp := h.people[id].maxHp)]), id, ARENA_MAP)
  }

  // ------------------------------------------------ joining and leaving

  function Joined(m: Match, h: Hall, id: int): (Match, Hall, bool)
    requires id in h.people
  {
    var p := h.people[id];
    if !p.inGame then (m, h, false)
    else if p.map_ == ARENA_MAP then (m, h, true)
    else
      var team := Smaller(m.roster);
      var i := Find(m.roster, id);
      var roster :=
        if i == |m.roster| then m.roster + [Fighter(id, team, 0, 0, false, 0)]
        else m.roster[i := m.roster[i].(team := team, isDead := false)];
      (m.(roster := roster), Sent(h.(people := h.people[id := p.(pvpId := team)]), id, ARENA_MAP), true)
  }

  function Left(m: Match, h: Hall, id: int): (Match, Hall)
    requires id in h.people
  {
    (m.(roster := Removed(m.roster, id)), Sent(h.(people := h.people[id := h.people[id].(pvpId := -1)]), id, EXIT_MAP))
  }

  // ------------------------------------------------ rewards

  function Reward(team: int, winner: int): int {
    if team == winner && winner != 0 then 50000 else if winner == 0 then 25000 else 15000
  }

  function Richer(roster: seq<Fighter>, id: int, p: Person, winner: int): Person {
    var r := Reward(TeamOf(roster, id, p.pvpId), winner);
    p.(zulies := p.zulies + r, exp := p.exp + r)
  }

  /** Everyone in game on the floor is paid once. */
  function Paid(roster: seq<Fighter>, h: Hall, winner: int): map<int, Person> {
    map id | id in h.people ::
      if id in h.list && h.people[id].inGame then Richer(roster, id, h.people[id], winner) else h.people[id]
  }

  function EndedMatch(m: Match, h: Hall, winner: int, now: int): (Match, Hall, seq<Event>) {
    (m.(phase := Ended, timer := now + 15), h.(people := Paid(m.roster, h, winner)),
     [End(now, winner, m.score1, m.score2)])
  }

  // ------------------------------------------------ kills

  function Fallen(roster: seq<Fighter>, victim: int, now: int): seq<Fighter> {
    var i := Find(roster, victim);
    if i == |roster| then roster
    else roster[i := roster[i].(deaths := roster[i].deaths + 1, isDead := true, respawnTime := now + 5)]
  }

  function Credited(roster: seq<Fighter>, killer: int): seq<Fighter> {
    var i := Find(roster, killer);
    if i == |roster| then roster else roster[i := roster[i].(kills := roster[i].kills + 1)]
  }

  /** The match once a kill by this team is scored, before the kill target is checked. */
  function Scored(m: Match, killer: int, team: int): Match {
    m.(roster := Credited(m.roster, killer),
       score1 := m.score1 + if team == 1 then 1 else 0, score2 := m.score2 + if team == 2 then 1 else 0)
  }

  /** OnPlayerKill, with the victim if there is one, the killer if it is a player, and two clock readings. */
  function Killed(m: Match, h: Hall, killer: Option<int>, victim: Option<int>, now: int, later: int)
    : (Match, Hall, seq<Event>)
    requires killer.Some? ==> killer.value in h.people
  {
    var m1 := if victim.None? then m else m.(roster := Fallen(m.roster, victim.value, now));
    if victim.None? || m.phase != Active || killer.None? then (m1, h, [])
    else
      var m2 := Scored(m1, killer.value, TeamOf(m1.roster, killer.value, h.people[killer.value].pvpId));
      if m2.score1 >= MAX_KILLS then EndedMatch(m2, h, 1, later)
      else if m2.score2 >= MAX_KILLS then EndedMatch(m2, h, 2, later)
      else (m2, h, [])
  }

  // ------------------------------------------------ the tick

  /** The sync loop over the first n of the list: who is in game and has no entry gets one. */
  function Synced(roster: seq<Fighter>, h: Hall, n: nat): (seq<Fighter>, map<int, Person>)
    requires n <= |h.list| && forall i :: 0 <= i < |h.list| ==> h.list[i] in h.people
    ensures Synced(roster, h, n).1.Keys == h.people.Keys
  {
    if n == 0 then (roster, h.people)
    else
      var (r, people) := Synced(roster, h, n - 1);
      var id := h.list[n - 1];
      var p := people[id];
      if !p.inGame then (r, people)
      else if Find(r, id) == |r| then
        var team := if p.pvpId > 0 then p.pvpId else Smaller(r);
        (r + [Fighter(id, team, 0, 0, false, 0)], people[id := p.(pvpId := team)])
      else if p.pvpId <= 0 then (r, people[id := p.(pvpId := r[Find(r, id)].team)])
      else (r, people)
  }

  /** Only entries of clients on the floor stay. */
  function Pruned(roster: seq<Fighter>, list: seq<int>): seq<Fighter> {
    if roster == [] then []
    else
      var rest := Pruned(roster[..|roster| - 1], list);
      if roster[|roster| - 1].id in list then rest + [roster[|roster| - 1]] else rest
  }

  /** One person's turn in StartMatch's loop. */
  function Readied(roster: seq<Fighter>, h: Hall, id: int): Hall
    requires id in h.people
  {
    var p := h.people[id];
    var team := TeamOf(roster, id, p.pvpId);
    var team' := if team <= 0 then Smaller(roster) else team;
    Respawned(h.(people := h.people[id := p.(pvpId := team')]), id)
  }

  /**
   * StartMatch's loop from position i. Respawning moves a player to the end of the very list the loop walks, so the one
   * behind him is passed over.
   */
  ghost function Readying(roster: seq<Fighter>, h: Hall, i: nat): Hall
    requires Sound(h) && Teamed(roster)
    decreases |h.list| - i
  {
    if i >= |h.list| then h
    else if !h.people[h.list[i]].inGame then Readying(roster, h, i + 1)
    else ReadiedSound(roster, h, i); Readying(roster, Readied(roster, h, h.list[i]), i + 1)
  }

  /** The active phase's respawn loop over the first n entries. */
  function Revived(roster: seq<Fighter>, h: Hall, now: int, n: nat): (seq<Fighter>, Hall)
    requires n <= |roster|
  {
    if n == 0 then (roster, h)
    else
      var (r, h1) := Revived(roster, h, now, n - 1);
      if |r| == |roster| && r[n - 1].isDead && now >= r[n - 1].respawnTime
         && r[n - 1].id in h1.list && r[n - 1].id in h1.people then
        (r[n - 1 := r[n - 1].(isDead := false)], Respawned(h1, r[n - 1].id))
      else (r, h1)
  }

  function ToBack(list: seq<int>, i: nat): seq<int>
    requires i < |list|
  {
    list[..i] + list[i + 1..] + [list[i]]
  }

  lemma ToBackSame(list: seq<int>, i: nat)
    requires i < |list| && Distinct(list)
    ensures Distinct(ToBack(list, i)) && |ToBack(list, i)| == |list|
    ensures forall j :: 0 <= j < |list| ==>
              ToBack(list, i)[j] == list[if j < i then j else if j < |list| - 1 then j + 1 else i]
  {
  }

  lemma ReadiedIs(roster: seq<Fighter>, h: Hall, i: nat)
    requires Sound(h) && i < |h.list|
    ensures Readied(roster, h, h.list[i]).list == ToBack(h.list, i)
    ensures Readied(roster, h, h.list[i]).people.Keys == h.people.Keys
  {
    WithoutAt(h.list, i);
  }

  lemma ReadiedSound(roster: seq<Fighter>, h: Hall, i: nat)
    requires Sound(h) && Teamed(roster) && i < |h.list|
    ensures Sound(Readied(roster, h, h.list[i])) && |Readied(roster, h, h.list[i]).list| == |h.list|
    ensures Readied(roster, h, h.list[i]).list == ToBack(h.list, i)
    ensures Readied(roster, h, h.list[i]).people.Keys == h.people.Keys
  {
    ReadiedIs(roster, h, i);
    ToBackSame(h.list, i);
  }
}
