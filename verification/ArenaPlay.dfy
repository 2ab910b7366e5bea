/** What the arena's calls come to for those who play, in plain numbers: scores, rewards, times and teams. */
module ArenaPlay {
  import opened Arena
  import opened ArenaFloor
  import opened ArenaRuns
  import opened Wrappers

  /** The team of somebody with one entry, or with none. */
  ghost predicate PlaysFor(roster: seq<Fighter>, id: int, pvpId: int, team: int) {
    if exists i :: 0 <= i < |roster| && roster[i].id == id
    then exists i :: 0 <= i < |roster| && roster[i].id == id && roster[i].team == team
    else team == pvpId
  }

  lemma {:induction false} FindIs(roster: seq<Fighter>, i: nat)
    requires i < |roster| && forall j, k :: 0 <= j < k < |roster| ==> roster[j].id != roster[k].id
    ensures Find(roster, roster[i].id) == i
  {
  }

  lemma TeamIs(roster: seq<Fighter>, id: int, pvpId: int, team: int)
    requires RosterOk(roster) && PlaysFor(roster, id, pvpId, team)
    ensures TeamOf(roster, id, pvpId) == team
  {
    if exists i :: 0 <= i < |roster| && roster[i].id == id {
      var i :| 0 <= i < |roster| && roster[i].id == id && roster[i].team == team;
      FindIs(roster, i);
    }
  }

  /** Falling changes nobody's team. */
  lemma FallenPlaysFor(roster: seq<Fighter>, victim: int, now: int, id: int, pvpId: int, team: int)
    requires RosterOk(roster) && PlaysFor(roster, id, pvpId, team)
    ensures PlaysFor(Fallen(roster, victim, now), id, pvpId, team)
  {
    var r := Fallen(roster, victim, now);
    assert |r| == |roster| && forall i :: 0 <= i < |r| ==> r[i].id == roster[i].id && r[i].team == roster[i].team;
    if exists i :: 0 <= i < |roster| && roster[i].id == id {
      var i :| 0 <= i < |roster| && roster[i].id == id && roster[i].team == team;
      assert r[i].id == id && r[i].team == team;
    } else {
      assert forall i :: 0 <= i < |r| ==> roster[i].id != id;
    }
  }

  /**
   * A kill in an active match is a point for the killer's own team and for no other, and the tenth point of a team ends
   * the match with that team as the winner.
   */
  lemma KillScores(m: Match, h: Hall, killer: int, victim: int, team: int, now: int, later: int)
    requires m.phase == Active && RosterOk(m.roster) && killer in h.people && m.score1 < 10 && m.score2 < 10
    requires PlaysFor(m.roster, killer, h.people[killer].pvpId, team)
    ensures
      var (m', h', events) := Killed(m, h, Some(killer), Some(victim), now, later);
      && m'.score1 == m.score1 + (if team == 1 then 1 else 0) && m'.score2 == m.score2 + (if team == 2 then 1 else 0)
      && (m'.score1 < 10 && m'.score2 < 10 ==> m'.phase == Active && h' == h && events == [])
      && (m'.score1 == 10 || m'.score2 == 10 ==>
            m'.phase == Ended && m'.timer == later + 15 && events == [End(later, team, m'.score1, m'.score2)])
  {
    FallenKeeps(m.roster, victim, now);
    FallenPlaysFor(m.roster, victim, now, killer, h.people[killer].pvpId, team);
    TeamIs(Fallen(m.roster, victim, now), killer, h.people[killer].pvpId, team);
  }

  /** Outside a match, or without a player for a killer, nothing is scored; without a victim nothing happens. */
  lemma OnlyPlayersScore(m: Match, h: Hall, killer: Option<int>, victim: Option<int>, now: int, later: int)
    requires killer.Some? ==> killer.value in h.people
    ensures
      var (m', h', events) := Killed(m, h, killer, victim, now, later);
      && (m.phase != Active || killer.None? ==> m' == m.(roster := m'.roster) && h' == h && events == [])
      && (victim.None? ==> m' == m && h' == h && events == [])
  {
  }

  /** Red's first kill in a match. */
  lemma RedScoresForRed(h: Hall, now: int, later: int)
    requires 1 in h.people
    ensures
      var m := Match(Active, 1000, 0, 0, [Fighter(1, 1, 0, 0, false, 0), Fighter(2, 2, 0, 0, false, 0)]);
      var m' := Killed(m, h, Some(1), Some(2), now, later).0;
      m'.score1 == 1 && m'.score2 == 0
  {
    var roster := [Fighter(1, 1, 0, 0, false, 0), Fighter(2, 2, 0, 0, false, 0)];
    assert roster[0].id == 1 && roster[0].team == 1;
    KillScores(Match(Active, 1000, 0, 0, roster), h, 1, 2, 1, now, later);
  }

  /** Whoever falls has one more death and is down for five seconds; his killer has one more kill; nobody else has. */
  lemma EntriesOfAKill(m: Match, h: Hall, killer: int, victim: int, now: int, later: int, i: nat)
    requires m.phase == Active && RosterOk(m.roster) && killer in h.people && killer != victim && i < |m.roster|
    ensures
      var (r, f) := (Killed(m, h, Some(killer), Some(victim), now, later).0.roster, m.roster[i]);
      && |r| == |m.roster|
      && r[i] == if f.id == victim then f.(deaths := f.deaths + 1, isDead := true, respawnTime := now + 5)
                 else if f.id == killer then f.(kills := f.kills + 1)
                 else f
  {
    KilledRoster(m, h, killer, victim, now, later);
    FallenKeeps(m.roster, victim, now);
    FallenEntry(m.roster, victim, now, i);
    CreditedEntry(Fallen(m.roster, victim, now), killer, i);
  }

  lemma KilledRoster(m: Match, h: Hall, killer: int, victim: int, now: int, later: int)
    requires m.phase == Active && killer in h.people
    ensures Killed(m, h, Some(killer), Some(victim), now, later).0.roster
         == Credited(Fallen(m.roster, victim, now), killer)
  {
  }

  lemma FallenEntry(roster: seq<Fighter>, victim: int, now: int, i: nat)
    requires RosterOk(roster) && i < |roster|
    ensures
      var f := roster[i];
      && |Fallen(roster, victim, now)| == |roster|
      && Fallen(roster, victim, now)[i]
         == if f.id == victim then f.(deaths := f.deaths + 1, isDead := true, respawnTime := now + 5) else f
  {
    FindIs(roster, i);
  }

  lemma CreditedEntry(roster: seq<Fighter>, killer: int, i: nat)
    requires RosterOk(roster) && i < |roster|
    ensures
      var f := roster[i];
      && |Credited(roster, killer)| == |roster|
      && Credited(roster, killer)[i] == if f.id == killer then f.(kills := f.kills + 1) else f
  {
    FindIs(roster, i);
  }

  /** At the end of a match everyone in game on the floor gets 50000 for a victory, 25000 for a draw and else 15000. */
  lemma PaysByTeam(m: Match, h: Hall, winner: int, now: int, id: int, team: int)
    requires RosterOk(m.roster) && id in h.people && PlaysFor(m.roster, id, h.people[id].pvpId, team)
    ensures
      var (p, q) := (h.people[id], EndedMatch(m, h, winner, now).1.people[id]);
      var reward := if winner == 0 then 25000 else if team == winner then 50000 else 15000;
      q == if id in h.list && p.inGame then p.(zulies := p.zulies + reward, exp := p.exp + reward) else p
  {
    TeamIs(m.roster, id, h.people[id].pvpId, team);
  }

  lemma {:induction false} CountIs(roster: seq<Fighter>, team: int)
    ensures Count(roster, team) >= 1 <==> exists i :: 0 <= i < |roster| && roster[i].team == team
  {
    if roster != [] {
      var n := |roster| - 1;
      CountIs(roster[..n], team);
      if i :| 0 <= i < |roster| && roster[i].team == team && roster[n].team != team {
        assert roster[..n][i].team == team;
      }
    }
  }

  /**
   * The phases: twenty seconds of countdown once both teams have somebody, five minutes of play from nil all, the end
   * when they are over, won by the higher score, and a new opening, with every entry as new, when the intermission is.
   */
  lemma PhasesGoRound(m: Match, h: Hall, now: int, second: int, third: int)
    requires Sound(h) && RosterOk(m.roster)
    ensures
      var (m', h', events) := Ticked(m, h, now, second, third);
      var both := (exists i :: 0 <= i < |m.roster| && m.roster[i].team == 1)
                  && (exists i :: 0 <= i < |m.roster| && m.roster[i].team == 2);
      && (m.phase == Idle ==> m' == (if both then m.(phase := Countdown, timer := now + 20) else m) && events == [])
      && (m.phase == Countdown && now < m.timer ==> m' == m && events == [])
      && (m.phase == Countdown && now >= m.timer ==>
            m' == Match(Active, second + 300, 0, 0, m.roster) && events == [Start(second)])
      && (m.phase == Active && second < m.timer ==>
            m'.phase == Active && m'.timer == m.timer && m'.score1 == m.score1 && m'.score2 == m.score2 && events == [])
      && (m.phase == Active && second >= m.timer ==>
            && m' == m.(phase := Ended, timer := third + 15)
            && events == [End(third, if m.score1 > m.score2 then 1 else if m.score2 > m.score1 then 2 else 0,
                              m.score1, m.score2)])
      && (m.phase == Ended && now < m.timer ==> m' == m && events == [])
      && (m.phase == Ended && now >= m.timer ==>
            && m'.phase == Idle && m'.score1 == m'.score2 == 0 && events == [] && |m'.roster| == |m.roster|
            && forall i :: 0 <= i < |m.roster| ==>
                 m'.roster[i] == Fighter(m.roster[i].id, m.roster[i].team, 0, 0, false, 0))
      && (m.phase == Idle || m.phase == Ended || (m.phase == Countdown && now < m.timer) ==> h' == h)
  {
    CountIs(m.roster, 1);
    CountIs(m.roster, 2);
  }

  /** Somebody in game found on the floor without an entry plays for the team he has, or without one for the smaller. */
  lemma FoundOnTheFloor(roster: seq<Fighter>, h: Hall, id: int)
    requires Sound(h) && h.list == [id] && id in h.people && h.people[id].inGame && !Listed(roster, id)
    ensures
      var (r, people) := Synced(roster, h, 1);
      var p := h.people[id];
      var team := if p.pvpId > 0 then p.pvpId else if Count(roster, 1) <= Count(roster, 2) then 1 else 2;
      r == roster + [Fighter(id, team, 0, 0, false, 0)] && people == h.people[id := p.(pvpId := team)]
  {
    assert Synced(roster, h, 0) == (roster, h.people);
  }

  /** Somebody there with an entry keeps it; without a team of his own he takes the entry's. */
  lemma KnownOnTheFloor(roster: seq<Fighter>, h: Hall, id: int, i: nat)
    requires RosterOk(roster) && Sound(h) && h.list == [id] && id in h.people && h.people[id].inGame
    requires i < |roster| && roster[i].id == id
    ensures
      var p := h.people[id];
      Synced(roster, h, 1)
      == (roster, if p.pvpId > 0 then h.people else h.people[id := p.(pvpId := roster[i].team)])
  {
    assert Synced(roster, h, 0) == (roster, h.people);
    FindIs(roster, i);
  }

  /** Whoever comes back keeps kills and deaths, stands, and goes to the smaller team; whoever is loading is refused. */
  lemma JoiningAgain(m: Match, h: Hall, id: int, i: nat)
    requires RosterOk(m.roster) && id in h.people && i < |m.roster| && m.roster[i].id == id
    ensures
      var (m', h', ok) := Joined(m, h, id);
      var team := if Count(m.roster, 1) <= Count(m.roster, 2) then 1 else 2;
      && (!h.people[id].inGame ==> (m', h', ok) == (m, h, false))
      && (h.people[id].inGame && h.people[id].map_ == 9 ==> (m', h', ok) == (m, h, true))
      && (h.people[id].inGame && h.people[id].map_ != 9 ==>
            && ok && m' == m.(roster := m.roster[i := m.roster[i].(team := team, isDead := false)])
            && h'.people[id].pvpId == team && h'.people[id].map_ == 9)
  {
    FindIs(m.roster, i);
  }

  /** A fresh start: on his own team if he has one, with all his hit points, on the way to map 9. */
  lemma FreshStartIs(roster: seq<Fighter>, id: int, p: Person, team: int)
    requires RosterOk(roster) && PlaysFor(roster, id, p.pvpId, team) && team > 0
    ensures Fresh(roster, id, p) == Person(team, false, 9, p.maxHp, p.maxHp, p.zulies, p.exp)
  {
    TeamIs(roster, id, p.pvpId, team);
  }

  /** A newcomer to even teams is Red, and stands on map 9. */
  lemma TieGoesToRed(m: Match, h: Hall, id: int)
    requires id in h.people && h.people[id].inGame && h.people[id].map_ != 9 && !Listed(m.roster, id)
    requires Count(m.roster, 1) == Count(m.roster, 2)
    ensures
      var (m', h', ok) := Joined(m, h, id);
      && ok && m'.roster == m.roster + [Fighter(id, 1, 0, 0, false, 0)]
      && h'.people[id].pvpId == 1 && h'.people[id].map_ == 9
  {
  }

  /** Somebody down and due who stands up again does so with all his hit points, at the end of map 9's list. */
  lemma StandsUpHealed(h: Hall, id: int)
    requires Sound(h) && id in h.list
    ensures
      var h' := Respawned(h, id);
      && h'.people[id].hp == h.people[id].maxHp && h'.people[id].map_ == 9 && !h'.people[id].inGame
      && |h'.list| > 0 && h'.list[|h'.list| - 1] == id
      && forall other :: other in h.people && other != id ==> h'.people[other] == h.people[other]
  {
  }
}
