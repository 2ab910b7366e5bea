/** Runs of the arena: the roster, the scores and the timing of matches over any sequence of calls. */
module ArenaRuns {
  import opened Wrappers
  import opened Erasing
  import opened Arena

  const PAYOUT_GAP: int := 35

  // ------------------------------------------------ the tick

  function Remaining(timer: int, now: int): int {
    if now >= timer then 0 else timer - now
  }

  function Leader(m: Match): int {
    if m.score1 > m.score2 then 1 else if m.score2 > m.score1 then 2 else 0
  }

  function Reset(m: Match): Match {
    Match(Idle, 0, 0, 0, seq(|m.roster|, i requires 0 <= i < |m.roster| =>
      m.roster[i].(kills := 0, deaths := 0, isDead := false, respawnTime := 0)))
  }

  /** Update's state machine, once the roster is in step with the floor; three clock readings. */
  ghost function Ticked(m: Match, h: Hall, now: int, second: int, third: int): (Match, Hall, seq<Event>)
    requires Sound(h) && Teamed(m.roster)
  {
    match m.phase
    case Idle =>
      if Count(m.roster, 1) >= 1 && Count(m.roster, 2) >= 1 then (m.(phase := Countdown, timer := now + 20), h, [])
      else (m, h, [])
    case Countdown =>
      if m.timer - now <= 0 then
        (Match(Active, second + ROUND_DURATION, 0, 0, m.roster), Readying(m.roster, h, 0), [Start(second)])
      else (m, h, [])
    case Active =>
      if Remaining(m.timer, second) <= 0 then EndedMatch(m, h, Leader(m), third)
      else
        var (roster, h1) := Revived(m.roster, h, now, |m.roster|);
        (m.(roster := roster), h1, [])
    case Ended =>
      if now >= m.timer then (Reset(m), h, []) else (m, h, [])
  }

  // ------------------------------------------------ the roster

  ghost predicate RosterOk(roster: seq<Fighter>) {
    && Teamed(roster)
    && (forall i, j :: 0 <= i < j < |roster| ==> roster[i].id != roster[j].id)
    && (forall i :: 0 <= i < |roster| ==> roster[i].kills >= 0)
  }

  lemma {:induction false} KillsBounds(roster: seq<Fighter>)
    requires RosterOk(roster)
    ensures Kills(roster) >= 0
  {
    if roster != [] {
      KillsBounds(roster[..|roster| - 1]);
    }
  }

  lemma {:induction false} KillsOfUpdate(roster: seq<Fighter>, i: nat, f: Fighter)
    requires i < |roster|
    ensures Kills(roster[i := f]) == Kills(roster) - roster[i].kills + f.kills
  {
    var n := |roster| - 1;
    if i < n {
      assert roster[i := f][..n] == roster[..n][i := f];
      KillsOfUpdate(roster[..n], i, f);
    } else {
      assert roster[i := f][..n] == roster[..n];
    }
  }

  lemma {:induction false} KillsOfRest(roster: seq<Fighter>, i: nat)
    requires i < |roster|
    ensures Kills(roster[..i] + roster[i + 1..]) == Kills(roster) - roster[i].kills
  {
    var n := |roster| - 1;
    var rest := roster[..i] + roster[i + 1..];
    if i < n {
      assert rest[..n - 1] == roster[..n][..i] + roster[..n][i + 1..];
      KillsOfRest(roster[..n], i);
    } else {
      assert rest == roster[..n];
    }
  }

  lemma AppendedOk(roster: seq<Fighter>, f: Fighter)
    requires RosterOk(roster) && (f.team == 1 || f.team == 2) && f.kills >= 0
    requires forall i :: 0 <= i < |roster| ==> roster[i].id != f.id
    ensures RosterOk(roster + [f]) && Kills(roster + [f]) == Kills(roster) + f.kills
  {
    assert (roster + [f])[..|roster|] == roster;
  }

  lemma {:induction false} SyncedKeeps(roster: seq<Fighter>, h: Hall, n: nat)
    requires RosterOk(roster) && Sound(h) && n <= |h.list|
    ensures
      var (r, people) := Synced(roster, h, n);
      RosterOk(r) && Sound(h.(people := people)) && Kills(r) == Kills(roster)
  {
    if n > 0 {
      SyncedKeeps(roster, h, n - 1);
      var (r, people) := Synced(roster, h, n - 1);
      var id := h.list[n - 1];
      if people[id].inGame && !Listed(r, id) {
        var team := if people[id].pvpId > 0 then people[id].pvpId else Smaller(r);
        AppendedOk(r, Fighter(id, team, 0, 0, false, 0));
      }
    }
  }

  lemma {:induction false} PrunedWithin(roster: seq<Fighter>, list: seq<int>)
    ensures forall i :: 0 <= i < |Pruned(roster, list)| ==>
              Pruned(roster, list)[i] in roster && Pruned(roster, list)[i].id in list
    ensures forall i :: 0 <= i < |roster| && roster[i].id in list ==> roster[i] in Pruned(roster, list)
  {
    if roster != [] {
      PrunedWithin(roster[..|roster| - 1], list);
      assert forall f :: f in roster <==> f in roster[..|roster| - 1] || f == roster[|roster| - 1];
    }
  }

  lemma {:induction false} PrunedKeeps(roster: seq<Fighter>, list: seq<int>)
    requires RosterOk(roster)
    ensures RosterOk(Pruned(roster, list)) && Kills(Pruned(roster, list)) <= Kills(roster)
  {
    if roster != [] {
      var n := |roster| - 1;
      PrunedKeeps(roster[..n], list);
      PrunedWithin(roster[..n], list);
      var rest := Pruned(roster[..n], list);
      if roster[n].id in list {
        forall i | 0 <= i < |rest|
          ensures rest[i].id != roster[n].id
        {
          assert rest[i] in roster[..n];
        }
        AppendedOk(rest, roster[n]);
      }
    }
  }

  lemma RestOk(roster: seq<Fighter>, i: nat)
    requires RosterOk(roster) && i < |roster|
    ensures RosterOk(roster[..i] + roster[i + 1..])
  {
    var rest := roster[..i] + roster[i + 1..];
    assert forall j :: 0 <= j < |rest| ==> rest[j] == roster[if j < i then j else j + 1];
  }

  lemma RemovedKeeps(roster: seq<Fighter>, id: int)
    requires RosterOk(roster)
    ensures RosterOk(Removed(roster, id)) && Kills(Removed(roster, id)) <= Kills(roster)
  {
    var i := Find(roster, id);
    if i < |roster| {
      RestOk(roster, i);
      KillsOfRest(roster, i);
    }
  }

  lemma FallenKeeps(roster: seq<Fighter>, victim: int, now: int)
    requires RosterOk(roster)
    ensures RosterOk(Fallen(roster, victim, now)) && Kills(Fallen(roster, victim, now)) == Kills(roster)
  {
    var i := Find(roster, victim);
    if i < |roster| {
      KillsOfUpdate(roster, i, Fallen(roster, victim, now)[i]);
    }
  }

  /** A credited kill is also scored, because whoever has an entry has a team. */
  lemma ScoredKeeps(m: Match, killer: int, pvpId: int)
    requires RosterOk(m.roster)
    ensures
      var m' := Scored(m, killer, TeamOf(m.roster, killer, pvpId));
      && RosterOk(m'.roster)
      && Kills(m'.roster) - Kills(m.roster) <= (m'.score1 + m'.score2) - (m.score1 + m.score2) <= 1
      && m.score1 <= m'.score1 <= m.score1 + 1 && m.score2 <= m'.score2 <= m.score2 + 1
  {
    var i := Find(m.roster, killer);
    if i < |m.roster| {
      KillsOfUpdate(m.roster, i, m.roster[i].(kills := m.roster[i].kills + 1));
    }
  }

  lemma StandsAgain(roster: seq<Fighter>, i: nat)
    requires RosterOk(roster) && i < |roster|
    ensures var r := roster[i := roster[i].(isDead := false)]; RosterOk(r) && Kills(r) == Kills(roster)
  {
    KillsOfUpdate(roster, i, roster[i].(isDead := false));
  }

  lemma {:induction false} RevivedKeeps(roster: seq<Fighter>, h: Hall, now: int, n: nat)
    requires RosterOk(roster) && Sound(h) && n <= |roster|
    ensures
      var (r, h') := Revived(roster, h, now, n);
      RosterOk(r) && Sound(h') && Kills(r) == Kills(roster) && |r| == |roster|
  {
    if n > 0 {
      RevivedKeeps(roster, h, now, n - 1);
      var (r, h1) := Revived(roster, h, now, n - 1);
      StandsAgain(r, n - 1);
      if r[n - 1].id in h1.list && r[n - 1].id in h1.people {
        RespawnedSound(h1, r[n - 1].id);
      }
    }
  }

  lemma RespawnedSound(h: Hall, id: int)
    requires Sound(h) && id in h.list && id in h.people
    ensures Sound(Respawned(h, id))
  {
    var i :| 0 <= i < |h.list| && h.list[i] == id;
    WithoutAt(h.list, i);
    ToBackSame(h.list, i);
    assert Respawned(h, id).list == ToBack(h.list, i);
  }

  lemma {:induction false} ReadyingSound(roster: seq<Fighter>, h: Hall, i: nat)
    requires Sound(h) && Teamed(roster)
    ensures Sound(Readying(roster, h, i))
    decreases |h.list| - i
  {
    if i < |h.list| {
      if h.people[h.list[i]].inGame {
        ReadiedSound(roster, h, i);
        ReadyingSound(roster, Readied(roster, h, h.list[i]), i + 1);
      } else {
        ReadyingSound(roster, h, i + 1);
      }
    }
  }

  // ------------------------------------------------ what holds between calls

  datatype State = State(m: Match, h: Hall, log: seq<Event>, latest: int)

  ghost predicate ScoresOk(m: Match) {
    && RosterOk(m.roster) && m.score1 >= 0 && m.score2 >= 0
    && Kills(m.roster) <= m.score1 + m.score2
    && (m.phase == Active ==> m.score1 < MAX_KILLS && m.score2 < MAX_KILLS)
    && (m.phase == Ended ==> m.score1 < MAX_KILLS || m.score2 < MAX_KILLS)
    && (m.phase == Idle || m.phase == Countdown ==> m.score1 == 0 && m.score2 == 0)
  }

  predicate RightWinner(e: Event) {
    e.End? ==> e.winner == (if e.score1 > e.score2 then 1 else if e.score2 > e.score1 then 2 else 0)
  }

  /** Starts and ends alternate, every end names the right winner, and no match starts within 35 s of an end. */
  ghost predicate LogOk(log: seq<Event>) {
    && (forall i :: 0 <= i < |log| ==> (log[i].Start? <==> i % 2 == 0))
    && (forall i :: 0 <= i < |log| ==> RightWinner(log[i]))
    && (forall i :: 0 < i < |log| ==> log[i].at >= log[i - 1].at + if log[i - 1].End? then PAYOUT_GAP else 0)
  }

  /** The timer of each phase, against the last entry of the log. */
  ghost predicate TimerOk(s: State) {
    && (s.m.phase == Active <==> |s.log| % 2 == 1)
    && (s.m.phase == Ended ==> s.log != [])
    && (s.log != [] ==>
          var last := s.log[|s.log| - 1].at;
          && last <= s.latest
          && (s.m.phase == Idle ==> s.latest >= last + 15)
          && (s.m.phase == Countdown ==> s.m.timer >= last + PAYOUT_GAP)
          && (s.m.phase == Ended ==> s.m.timer == last + 15))
  }

  ghost predicate Inv(s: State) {
    Sound(s.h) && ScoresOk(s.m) && LogOk(s.log) && TimerOk(s)
  }

  // ------------------------------------------------ calls

  /** A call of the match manager with its clock readings, or whatever else happens to people and to map 9's list. */
  datatype Op =
    | Update(now: int, second: int, third: int)
    | Kill(killer: Option<int>, victim: Option<int>, now: int, later: int)
    | Join(id: int)
    | Leave(id: int)
    | Disconnect(id: int)
    | Elsewhere(h: Hall)

  ghost predicate Enabled(s: State, op: Op) {
    match op
    case Update(now, second, third) => s.latest <= now <= second <= third
    case Kill(killer, _, now, later) => s.latest <= now <= later && (killer.Some? ==> killer.value in s.h.people)
    case Join(id) => id in s.h.people
    case Leave(id) => id in s.h.people
    case Disconnect(_) => true
    case Elsewhere(h) => Sound(h)
  }

  ghost function Do(s: State, op: Op): State
    requires Inv(s) && Enabled(s, op)
  {
    match op
    case Update(now, second, third) =>
      var (roster, people) := Synced(s.m.roster, s.h, |s.h.list|);
      SyncedKeeps(s.m.roster, s.h, |s.h.list|);
      PrunedKeeps(roster, s.h.list);
      var (m, h, events) :=
        Ticked(s.m.(roster := Pruned(roster, s.h.list)), s.h.(people := people), now, second, third);
      State(m, h, s.log + events, third)
    case Kill(killer, victim, now, later) =>
      var (m, h, events) := Killed(s.m, s.h, killer, victim, now, later);
      State(m, h, s.log + events, later)
    case Join(id) => var (m, h, _) := Joined(s.m, s.h, id); s.(m := m, h := h)
    case Leave(id) => var (m, h) := Left(s.m, s.h, id); s.(m := m, h := h)
    case Disconnect(id) => s.(m := s.m.(roster := Removed(s.m.roster, id)))
    case Elsewhere(h) => s.(h := h)
  }

  // ------------------------------------------------ every call keeps them

  lemma EndKeeps(s: State, winner: int, now: int)
    requires Sound(s.h) && ScoresOk(s.m.(phase := Ended)) && LogOk(s.log) && TimerOk(s) && s.m.phase == Active
    requires s.latest <= now && winner == Leader(s.m)
    ensures var (m, h, events) := EndedMatch(s.m, s.h, winner, now); Inv(State(m, h, s.log + events, now))
  {
  }

  lemma KillKeeps(s: State, killer: Option<int>, victim: Option<int>, now: int, later: int)
    requires Inv(s) && Enabled(s, Kill(killer, victim, now, later))
    ensures Inv(Do(s, Kill(killer, victim, now, later)))
  {
    if victim.None? {
      assert s.log + [] == s.log;
      return;
    }
    FallenKeeps(s.m.roster, victim.value, now);
    var m1 := s.m.(roster := Fallen(s.m.roster, victim.value, now));
    if s.m.phase == Active && killer.Some? {
      ScoredKeeps(m1, killer.value, s.h.people[killer.value].pvpId);
      var m2 := Scored(m1, killer.value, TeamOf(m1.roster, killer.value, s.h.people[killer.value].pvpId));
      if m2.score1 >= MAX_KILLS || m2.score2 >= MAX_KILLS {
        EndKeeps(s.(m := m2), Leader(m2), later);
      } else {
        assert s.log + [] == s.log;
      }
    } else {
      assert s.log + [] == s.log;
    }
  }

  lemma StartKeeps(s: State, second: int, third: int)
    requires Inv(s) && s.m.phase == Countdown && s.m.timer <= second <= third && s.latest <= second
    ensures Inv(State(Match(Active, second + ROUND_DURATION, 0, 0, s.m.roster), Readying(s.m.roster, s.h, 0),
                      s.log + [Start(second)], third))
  {
    ReadyingSound(s.m.roster, s.h, 0);
  }

  lemma ReviveKeeps(s: State, now: int, third: int)
    requires Inv(s) && s.m.phase == Active && s.latest <= third
    ensures var (roster, h) := Revived(s.m.roster, s.h, now, |s.m.roster|);
            Inv(s.(m := s.m.(roster := roster), h := h, latest := third))
  {
    RevivedKeeps(s.m.roster, s.h, now, |s.m.roster|);
  }

  lemma TickKeeps(s: State, now: int, second: int, third: int)
    requires Inv(s) && s.latest <= now <= second <= third
    ensures var (m, h, events) := Ticked(s.m, s.h, now, second, third); Inv(State(m, h, s.log + events, third))
  {
    assert s.log + [] == s.log;
    match s.m.phase
    case Idle =>
    case Countdown =>
      if s.m.timer - now <= 0 {
        StartKeeps(s, second, third);
      }
    case Active =>
      if Remaining(s.m.timer, second) <= 0 {
        EndKeeps(s, Leader(s.m), third);
      } else {
        ReviveKeeps(s, now, third);
      }
    case Ended =>
      ResetKeeps(s.m);
  }

  lemma {:induction false} NoKills(roster: seq<Fighter>)
    requires forall i :: 0 <= i < |roster| ==> roster[i].kills == 0
    ensures Kills(roster) == 0
  {
    if roster != [] {
      NoKills(roster[..|roster| - 1]);
    }
  }

  lemma ResetKeeps(m: Match)
    requires RosterOk(m.roster)
    ensures ScoresOk(Reset(m))
  {
    NoKills(Reset(m).roster);
  }

  lemma UpdateKeeps(s: State, now: int, second: int, third: int)
    requires Inv(s) && s.latest <= now <= second <= third
    ensures Inv(Do(s, Update(now, second, third)))
  {
    var (roster, people) := Synced(s.m.roster, s.h, |s.h.list|);
    SyncedKeeps(s.m.roster, s.h, |s.h.list|);
    PrunedKeeps(roster, s.h.list);
    TickKeeps(State(s.m.(roster := Pruned(roster, s.h.list)), s.h.(people := people), s.log, s.latest),
              now, second, third);
  }

  lemma JoinKeepsMatch(m: Match, h: Hall, id: int)
    requires ScoresOk(m) && id in h.people
    ensures ScoresOk(Joined(m, h, id).0) && Joined(m, h, id).0.phase == m.phase && Joined(m, h, id).0.timer == m.timer
  {
    var m' := Joined(m, h, id).0;
    var i := Find(m.roster, id);
    if i == |m.roster| {
      assert m'.roster == m.roster || m'.roster[..i] == m.roster;
    } else {
      KillsOfUpdate(m.roster, i, m'.roster[i]);
    }
  }

  lemma JoinKeepsHall(m: Match, h: Hall, id: int)
    requires Sound(h) && id in h.people
    ensures Sound(Joined(m, h, id).1)
  {
  }

  lemma JoinKeeps(s: State, id: int)
    requires Inv(s) && id in s.h.people
    ensures Inv(Do(s, Join(id)))
  {
    JoinKeepsMatch(s.m, s.h, id);
    JoinKeepsHall(s.m, s.h, id);
  }

  lemma SentOutSound(h: Hall, id: int)
    requires Sound(h) && id in h.people
    ensures Sound(Sent(h, id, EXIT_MAP))
  {
    WithoutDropsOne(h.list, id);
    var list := Sent(h, id, EXIT_MAP).list;
    forall i | 0 <= i < |list|
      ensures list[i] in h.list && list[i] != id
    {
      assert list == h.list || list == Without(h.list, id);
      assert list[i] in list;
    }
  }

  lemma LeaveKeeps(s: State, id: int)
    requires Inv(s) && id in s.h.people
    ensures Inv(Do(s, Leave(id)))
  {
    RemovedKeeps(s.m.roster, id);
    SentOutSound(s.h.(people := s.h.people[id := s.h.people[id].(pvpId := -1)]), id);
  }

  lemma StepKeeps(s: State, op: Op)
    requires Inv(s) && Enabled(s, op)
    ensures Inv(Do(s, op)) && s.log <= Do(s, op).log
  {
    match op
    case Update(now, second, third) => UpdateKeeps(s, now, second, third);
    case Kill(killer, victim, now, later) => KillKeeps(s, killer, victim, now, later);
    case Join(id) => JoinKeeps(s, id);
    case Leave(id) => LeaveKeeps(s, id);
    case Disconnect(id) => RemovedKeeps(s.m.roster, id);
    case Elsewhere(h) =>
  }

  ghost predicate Possible(s: State, ops: seq<Op>)
    requires Inv(s)
    decreases |ops|
  {
    ops == [] || (Enabled(s, ops[0]) && (StepKeeps(s, ops[0]); Possible(Do(s, ops[0]), ops[1..])))
  }

  ghost function After(s: State, ops: seq<Op>): State
    requires Inv(s) && Possible(s, ops)
    decreases |ops|
  {
    if ops == [] then s else StepKeeps(s, ops[0]); After(Do(s, ops[0]), ops[1..])
  }

  /** Over every run of calls all of this holds: roster, scores, winners and times. */
  lemma {:induction false} RunsKeep(s: State, ops: seq<Op>)
    requires Inv(s) && Possible(s, ops)
    ensures Inv(After(s, ops))
    decreases |ops|
  {
    if ops != [] {
      StepKeeps(s, ops[0]);
      RunsKeep(Do(s, ops[0]), ops[1..]);
    }
  }

  /** A new arena. */
  function Opened(h: Hall, now: int): State {
    State(Match(Idle, 0, 0, 0, []), h, [], now)
  }

  lemma OpenedIsSound(h: Hall, now: int)
    requires Sound(h)
    ensures Inv(Opened(h, now))
  {
  }

  /** The calls can be made in this order on a new arena. */
  ghost predicate Playable(h: Hall, now: int, ops: seq<Op>) {
    Sound(h) && (OpenedIsSound(h, now); Possible(Opened(h, now), ops))
  }

  /** The arena after them. */
  ghost function Played(h: Hall, now: int, ops: seq<Op>): (s: State)
    requires Playable(h, now, ops)
    ensures Inv(s)
  {
    RunsKeep(Opened(h, now), ops);
    After(Opened(h, now), ops)
  }

  /** What RunsKeep means from the opening on, in plain words. */
  lemma ArenaSafety(h: Hall, now: int, ops: seq<Op>)
    requires Playable(h, now, ops)
    ensures
      var s := Played(h, now, ops);
      && (forall i, j :: 0 <= i < j < |s.m.roster| ==> s.m.roster[i].id != s.m.roster[j].id)
      && (s.m.phase == Active ==> s.m.score1 < MAX_KILLS && s.m.score2 < MAX_KILLS)
      && !(s.m.score1 >= MAX_KILLS && s.m.score2 >= MAX_KILLS)
      && Kills(s.m.roster) <= s.m.score1 + s.m.score2
      && (forall i :: 0 <= i < |s.log| ==> RightWinner(s.log[i]))
  {
    var s := Played(h, now, ops);
    assert Inv(s);
  }

  function Starts(log: seq<Event>, n: nat): nat
    requires n <= |log|
  {
    if n == 0 then 0 else Starts(log, n - 1) + if log[n - 1].Start? then 1 else 0
  }

  lemma {:induction false} StartsLead(log: seq<Event>, n: nat)
    requires LogOk(log) && n <= |log|
    ensures 2 * Starts(log, n) == n + n % 2
  {
    if n > 0 {
      StartsLead(log, n - 1);
    }
  }

  lemma EvenlySpaced(log: seq<Event>, i: nat, j: nat)
    requires LogOk(log) && i < j < |log| && log[i].Start? && log[j].Start?
    ensures (j - i) - (Starts(log, j) - Starts(log, i)) == Starts(log, j) - Starts(log, i)
    ensures log[i + 1].End? && (j == i + 2 <==> Starts(log, j) - Starts(log, i) == 1)
  {
    StartsLead(log, i);
    StartsLead(log, j);
  }

  lemma {:induction false} EndsSpaced(log: seq<Event>, i: nat, j: nat)
    requires LogOk(log) && i < j < |log| && log[i].End?
    ensures log[j].at >= log[i].at + PAYOUT_GAP
  {
    if j > i + 1 {
      EndsSpaced(log, i, j - 1);
    }
  }

  /** Payouts among the first n events, at times from a to b. */
  function Payouts(log: seq<Event>, n: nat, a: int, b: int): nat
    requires n <= |log|
  {
    if n == 0 then 0
    else Payouts(log, n - 1, a, b) + if log[n - 1].End? && a <= log[n - 1].at <= b then 1 else 0
  }

  lemma {:induction false} PayoutsSpaced(log: seq<Event>, n: nat, a: int, b: int) returns (k: nat)
    requires LogOk(log) && n <= |log|
    ensures Payouts(log, n, a, b) > 0 ==>
              k < n && log[k].End? && a <= log[k].at <= b && PAYOUT_GAP * (Payouts(log, n, a, b) - 1) <= log[k].at - a
  {
    k := 0;
    if n > 0 {
      k := PayoutsSpaced(log, n - 1, a, b);
      if log[n - 1].End? && a <= log[n - 1].at <= b {
        if Payouts(log, n - 1, a, b) > 0 {
          EndsSpaced(log, k, n - 1);
        }
        k := n - 1;
      }
    }
  }

  /**
   * In every run, from one start to any later one there are exactly as many ends as starts, so exactly one between
   * consecutive starts.
   */
  lemma OneEndPerStart(h: Hall, now: int, ops: seq<Op>, i: nat, j: nat)
    requires Playable(h, now, ops)
    requires var log := Played(h, now, ops).log; i < j < |log| && log[i].Start? && log[j].Start?
    ensures
      var log := Played(h, now, ops).log;
      var starts := Starts(log, j) - Starts(log, i);
      (j - i) - starts == starts && log[i + 1].End? && (j == i + 2 <==> starts == 1)
  {
    EvenlySpaced(Played(h, now, ops).log, i, j);
  }

  /** In every run nothing starts and nobody is paid within 35 seconds of a payout. */
  lemma EndsFarApart(h: Hall, now: int, ops: seq<Op>, i: nat, j: nat)
    requires Playable(h, now, ops)
    requires var log := Played(h, now, ops).log; i < j < |log| && log[i].End?
    ensures var log := Played(h, now, ops).log; log[j].at >= log[i].at + PAYOUT_GAP
  {
    EndsSpaced(Played(h, now, ops).log, i, j);
  }

  /** In every run, any window of T seconds has at most T / 35 + 1 payouts. */
  lemma PayoutsInWindow(h: Hall, now: int, ops: seq<Op>, a: int, t: nat)
    requires Playable(h, now, ops)
    ensures var log := Played(h, now, ops).log; Payouts(log, |log|, a, a + t) <= t / PAYOUT_GAP + 1
  {
    var log := Played(h, now, ops).log;
    var k := PayoutsSpaced(log, |log|, a, a + t);
  }
}
