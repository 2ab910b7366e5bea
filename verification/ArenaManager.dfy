/** CArenaManager with the fields it changes in place, each call proved against its specification. */
module ArenaManager {
  import opened Wrappers
  import opened Erasing
  import opened Arena
  import opened ArenaRuns

  class CArenaManager {
    var phase: Phase
    var stateTimer: int
    var score1: int
    var score2: int
    var roster: seq<Fighter>
    var list: seq<int>
    var people: map<int, Person>
    ghost var log: seq<Event>

    ghost function M(): Match
      reads `phase, `stateTimer, `score1, `score2, `roster
    {
      Match(phase, stateTimer, score1, score2, roster)
    }

    ghost function H(): Hall
      reads `list, `people
    {
      Hall(list, people)
    }

    ghost predicate Valid()
      reads `list, `people, `roster
    {
      Sound(H()) && Teamed(roster)
    }

    constructor (list: seq<int>, people: map<int, Person>)
      ensures M() == Match(Idle, 0, 0, 0, []) && H() == Hall(list, people) && log == []
    {
      phase, stateTimer, score1, score2, roster := Idle, 0, 0, 0, [];
      this.list, this.people, log := list, people, [];
    }

    method FindArenaPlayer(id: int) returns (i: nat)
      ensures i == Find(roster, id)
    {
      i := 0;
      while i < |roster|
        invariant i <= |roster| && forall j :: 0 <= j < i ==> roster[j].id != id
      {
        if roster[i].id == id {
          FirstIsFind(roster, id, i);
          return;
        }
        i := i + 1;
      }
      FirstIsFind(roster, id, i);
    }

    /** AssignTeam's count and choice. */
    method SmallerTeam() returns (team: int)
      ensures team == Smaller(roster)
    {
      var team1Count, team2Count := 0, 0;
      for i := 0 to |roster|
        invariant team1Count == Count(roster[..i], 1) && team2Count == Count(roster[..i], 2)
      {
        assert roster[..i + 1][..i] == roster[..i];
        if roster[i].team == 1 {
          team1Count := team1Count + 1;
        } else if roster[i].team == 2 {
          team2Count := team2Count + 1;
        }
      }
      assert roster[..|roster|] == roster;
      team := if team1Count <= team2Count then 1 else 2;
    }

    method AssignTeam(id: int) returns (team: int)
      requires id in people
      modifies `people
      ensures team == Smaller(roster) && people == old(people)[id := old(people)[id].(pvpId := team)]
    {
      team := SmallerTeam();
      people := people[id := people[id].(pvpId := team)];
    }

    /** TeleportPlayer, as far as map 9's list goes. */
    method TeleportPlayer(id: int, dest: int)
      requires id in people
      modifies `list, `people
      ensures H() == Sent(old(H()), id, dest)
    {
      if people[id].map_ == ARENA_MAP {
        RemovePlayer(id);
      }
      people := people[id := people[id].(map_ := dest, inGame := false)];
      if dest == ARENA_MAP {
        list := list + [id];
      }
    }

    method RemovePlayer(id: int)
      modifies `list
      ensures list == Without(old(list), id)
    {
      list := EraseFirst(list, id);
    }

    method RespawnPlayerAtBase(id: int)
      requires id in people
      modifies `list, `people
      ensures H() == Respawned(old(H()), id)
    {
      people := people[id := people[id].(hp := people[id].maxHp)];
      TeleportPlayer(id, ARENA_MAP);
    }

    method JoinArena(id: int) returns (ok: bool)
      requires id in people
      modifies `roster, `list, `people
      ensures (M(), H(), ok) == Joined(old(M()), old(H()), id)
    {
      if !people[id].inGame {
        return false;
      }
      if people[id].map_ == ARENA_MAP {
        return true;
      }
      var team := AssignTeam(id);
      var i := FindArenaPlayer(id);
      if i == |roster| {
        roster := roster + [Fighter(id, team, 0, 0, false, 0)];
      } else {
        roster := roster[i := roster[i].(team := team, isDead := false)];
      }
      TeleportPlayer(id, ARENA_MAP);
      return true;
    }

    method EraseEntry(id: int)
      modifies `roster
      ensures roster == Removed(old(roster), id)
    {
      var i := FindArenaPlayer(id);
      if i < |roster| {
        roster := roster[..i] + roster[i + 1..];
      }
    }

    method LeaveArena(id: int)
      requires id in people
      modifies `roster, `list, `people
      ensures (M(), H()) == Left(old(M()), old(H()), id)
    {
      EraseEntry(id);
      people := people[id := people[id].(pvpId := -1)];
      TeleportPlayer(id, EXIT_MAP);
    }

    method OnPlayerDisconnect(id: int)
      modifies `roster
      ensures M() == old(M()).(roster := Removed(old(roster), id))
    {
      EraseEntry(id);
    }

    /** EndMatch: the intermission begins and everyone in game on the floor is paid. */
    method EndMatch(winner: int, now: int)
      requires Valid()
      modifies `phase, `stateTimer, `people, `log
      ensures var (m, h, events) := EndedMatch(old(M()), old(H()), winner, now);
              M() == m && H() == h && log == old(log) + events
    {
      phase, stateTimer := Ended, now + 15;
      log := log + [End(now, winner, score1, score2)];
      PayEveryone(winner);
    }

    /** The rewards' loop over the people on the floor. */
    method PayEveryone(winner: int)
      requires Valid()
      modifies `people
      ensures people == Paid(roster, old(H()), winner)
    {
      ghost var was := people;
      assert list[..0] == [] && list[..|list|] == list;
      for i := 0 to |list|
        invariant people == Paid(roster, Hall(list[..i], was), winner)
      {
        PaidOneMore(roster, list, was, i, winner);
        if people[list[i]].inGame {
          Pay(list[i], winner);
        }
      }
    }

    /** One person's reward. */
    method Pay(id: int, winner: int)
      requires id in people
      modifies `people
      ensures people == old(people)[id := Richer(roster, id, old(people)[id], winner)]
    {
      var entry := FindArenaPlayer(id);
      var team := if entry < |roster| then roster[entry].team else people[id].pvpId;
      var reward := 15000;
      if team == winner && winner != 0 {
        reward := 50000;
      } else if winner == 0 {
        reward := 25000;
      }
      people := people[id := people[id].(zulies := people[id].zulies + reward, exp := people[id].exp + reward)];
    }

    method OnPlayerKill(killer: Option<int>, victim: Option<int>, now: int, later: int)
      requires Valid() && (killer.Some? ==> killer.value in people)
      modifies `phase, `stateTimer, `score1, `score2, `roster, `people, `log
      ensures var (m, h, events) := Killed(old(M()), old(H()), killer, victim, now, later);
              M() == m && H() == h && log == old(log) + events
    {
      if victim.None? {
        return;
      }
      var victimEntry := FindArenaPlayer(victim.value);
      if victimEntry < |roster| {
        var f := roster[victimEntry];
        roster := roster[victimEntry := f.(deaths := f.deaths + 1, isDead := true, respawnTime := now + 5)];
      }
      if phase != Active || killer.None? {
        return;
      }
      Score(killer.value);
      if score1 >= MAX_KILLS {
        EndMatch(1, later);
      } else if score2 >= MAX_KILLS {
        EndMatch(2, later);
      }
    }

    /** A player's kill is credited to him and to his team. */
    method Score(killer: int)
      requires killer in people
      modifies `score1, `score2, `roster
      ensures M() == Scored(old(M()), killer, TeamOf(old(roster), killer, people[killer].pvpId))
      ensures Teamed(old(roster)) ==> Teamed(roster)
    {
      var killerEntry := FindArenaPlayer(killer);
      var team := people[killer].pvpId;
      if killerEntry < |roster| {
        team := roster[killerEntry].team;
        roster := roster[killerEntry := roster[killerEntry].(kills := roster[killerEntry].kills + 1)];
      }
      if team == 1 {
        score1 := score1 + 1;
      } else if team == 2 {
        score2 := score2 + 1;
      }
    }

    /** StartMatch: a new score, and the loop that heals people and sends them to their base. */
    method StartMatch(now: int)
      requires Valid()
      modifies `phase, `stateTimer, `score1, `score2, `list, `people, `log
      ensures M() == Match(Active, now + ROUND_DURATION, 0, 0, roster) && log == old(log) + [Start(now)]
      ensures H() == Readying(roster, old(H()), 0)
    {
      phase, stateTimer, score1, score2 := Active, now + ROUND_DURATION, 0, 0;
      log := log + [Start(now)];
      var i := 0;
      while i < |list|
        invariant Valid()
        invariant Readying(roster, H(), i) == Readying(roster, old(H()), 0)
        invariant i <= |list| == |old(list)|
        modifies `list, `people
      {
        var id := list[i];
        if people[id].inGame {
          ReadiedSound(roster, H(), i);
          Ready(id);
        }
        i := i + 1;
      }
    }

    method Ready(id: int)
      requires id in people
      modifies `list, `people
      ensures H() == Readied(roster, old(H()), id)
    {
      var entry := FindArenaPlayer(id);
      var team := if entry < |roster| then roster[entry].team else people[id].pvpId;
      if team <= 0 {
        team := AssignTeam(id);
      }
      people := people[id := people[id].(pvpId := team)];
      RespawnPlayerAtBase(id);
    }

    method ResetArena()
      modifies `phase, `stateTimer, `score1, `score2, `roster
      ensures M() == Reset(old(M()))
    {
      phase, stateTimer, score1, score2 := Idle, 0, 0, 0;
      for i := 0 to |roster|
        invariant |roster| == |old(roster)|
        invariant forall j :: 0 <= j < i ==> roster[j] == Reset(old(M())).roster[j]
        invariant forall j :: i <= j < |roster| ==> roster[j] == old(roster)[j]
        modifies `roster
      {
        roster := roster[i := roster[i].(kills := 0, deaths := 0, isDead := false, respawnTime := 0)];
      }
    }

    /** Update's sync loop. */
    method Sync()
      requires Valid() && RosterOk(roster)
      modifies `roster, `people
      ensures (roster, people) == Synced(old(roster), old(H()), |list|)
    {
      for i := 0 to |list|
        invariant (roster, people) == Synced(old(roster), old(H()), i)
      {
        SyncedKeeps(old(roster), old(H()), i);
        var id := list[i];
        if people[id].inGame {
          SyncOne(id);
        }
      }
    }

    method SyncOne(id: int)
      requires id in people
      modifies `roster, `people
      ensures
        var p := old(people)[id];
        var team := if p.pvpId > 0 then p.pvpId else Smaller(old(roster));
        if Find(old(roster), id) == |old(roster)| then
          && roster == old(roster) + [Fighter(id, team, 0, 0, false, 0)]
          && people == old(people)[id := p.(pvpId := team)]
        else
          && roster == old(roster)
          && people == if p.pvpId > 0 then old(people)
                       else old(people)[id := p.(pvpId := roster[Find(roster, id)].team)]
    {
      var entry := FindArenaPlayer(id);
      if entry == |roster| {
        var team := people[id].pvpId;
        if team <= 0 {
          team := AssignTeam(id);
        }
        people := people[id := people[id].(pvpId := team)];
        roster := roster + [Fighter(id, team, 0, 0, false, 0)];
      } else if people[id].pvpId <= 0 {
        people := people[id := people[id].(pvpId := roster[entry].team)];
      }
    }

    /** Update's pruning loop. */
    method Prune()
      modifies `roster
      ensures roster == Pruned(old(roster), list)
    {
      ghost var was := roster;
      ghost var n := 0;
      var it := 0;
      while it < |roster|
        invariant n <= |was| && it <= |roster|
        invariant roster[..it] == Pruned(was[..n], list) && roster[it..] == was[n..]
        decreases |was| - n
      {
        assert was[..n + 1][..n] == was[..n] && was[n] == roster[it..][0];
        if roster[it].id !in list {
          roster := roster[..it] + roster[it + 1..];
        } else {
          it := it + 1;
        }
        n := n + 1;
      }
      assert was[..n] == was;
    }

    /** The active phase's respawn loop. */
    method ReviveFallen(now: int)
      requires Valid() && RosterOk(roster)
      modifies `roster, `list, `people
      ensures (roster, H()) == Revived(old(roster), old(H()), now, |old(roster)|)
    {
      ghost var r0, h0 := roster, H();
      for i := 0 to |roster|
        invariant |roster| == |r0| && (roster, H()) == Revived(r0, h0, now, i)
      {
        RevivedKeeps(r0, h0, now, i);
        var f := roster[i];
        if f.isDead && now >= f.respawnTime {
          if f.id in list && f.id in people {
            RespawnPlayerAtBase(f.id);
            roster := roster[i := f.(isDead := false)];
          }
        }
      }
    }

    /** Update's state machine. */
    method Tick(now: int, second: int, third: int)
      requires Valid() && RosterOk(roster)
      modifies `phase, `stateTimer, `score1, `score2, `roster, `list, `people, `log
      ensures var (m, h, events) := Ticked(old(M()), old(H()), now, second, third);
              M() == m && H() == h && log == old(log) + events
    {
      match phase
      case Idle =>
        var redCount := CountTeam(1);
        var blueCount := CountTeam(2);
        if redCount >= 1 && blueCount >= 1 {
          phase, stateTimer := Countdown, now + 20;
        }
      case Countdown =>
        if stateTimer - now <= 0 {
          StartMatch(second);
        }
      case Active =>
        var rem := if second >= stateTimer then 0 else stateTimer - second;
        if rem <= 0 {
          if score1 > score2 {
            EndMatch(1, third);
          } else if score2 > score1 {
            EndMatch(2, third);
          } else {
            EndMatch(0, third);
          }
          return;
        }
        ReviveFallen(now);
      case Ended =>
        if now >= stateTimer {
          ResetArena();
        }
    }

    method CountTeam(team: int) returns (n: nat)
      ensures n == Count(roster, team)
    {
      n := 0;
      for i := 0 to |roster|
        invariant n == Count(roster[..i], team)
      {
        assert roster[..i + 1][..i] == roster[..i];
        if roster[i].team == team {
          n := n + 1;
        }
      }
      assert roster[..|roster|] == roster;
    }

    /** Update's two roster loops. */
    method MatchFloor()
      requires Valid() && RosterOk(roster)
      modifies `roster, `people
      ensures Valid() && RosterOk(roster)
      ensures var (r, p) := Synced(old(roster), old(H()), |list|); roster == Pruned(r, list) && people == p
    {
      SyncedKeeps(roster, H(), |list|);
      Sync();
      PrunedKeeps(roster, list);
      Prune();
    }

    /** Update, with the three clock readings it may make; it is the step of the runs. */
    method Update(ghost latest: int, now: int, second: int, third: int)
      requires Inv(State(M(), H(), log, latest)) && latest <= now <= second <= third
      modifies `phase, `stateTimer, `score1, `score2, `roster, `list, `people, `log
      ensures State(M(), H(), log, third) == Do(old(State(M(), H(), log, latest)), ArenaRuns.Update(now, second, third))
      ensures Inv(State(M(), H(), log, third))
    {
      UpdateKeeps(State(M(), H(), log, latest), now, second, third);
      MatchFloor();
      Tick(now, second, third);
    }
  }

  // ------------------------------------------------ what the loops need

  lemma {:induction false} FirstIsFind(roster: seq<Fighter>, id: int, i: nat)
    requires i <= |roster| && (i < |roster| ==> roster[i].id == id)
    requires forall j :: 0 <= j < i ==> roster[j].id != id
    ensures Find(roster, id) == i
  {
  }

  lemma PaidOneMore(roster: seq<Fighter>, list: seq<int>, people: map<int, Person>, i: nat, winner: int)
    requires i < |list| && Distinct(list) && list[i] in people
    ensures
      var before := Paid(roster, Hall(list[..i], people), winner);
      var p := people[list[i]];
      && before[list[i]] == p
      && Paid(roster, Hall(list[..i + 1], people), winner)
         == if p.inGame then before[list[i] := Richer(roster, list[i], p, winner)] else before
  {
    assert list[..i + 1] == list[..i] + [list[i]] && list[i] !in list[..i];
  }
}
