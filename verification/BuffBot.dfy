/** The buff bot's queue: who needs help, whose turn it is, which charm, and how the queue drains. */
module BuffBot {

  const NONE: int := 0xff

  /**
   * Somebody the bot may serve: alive, near enough, no buff bot and, if human, in game when able. The seven up-statuses
   * hold a slot number, or 0xff.
   */
  datatype Target = Target(able: bool, hp: int, maxHp: nat, dash: int, haste: int, attack: int, defense: int,
                           accuracy: int, critical: int, extra: int)

  predicate Hurt(t: Target) {
    t.hp < t.maxHp * 85 / 100
  }

  /** The check of the candidate loop. */
  predicate NeedsHelp(t: Target) {
    Hurt(t) || t.dash == NONE || t.haste == NONE || t.attack == NONE || t.defense == NONE || t.accuracy == NONE
    || t.critical == NONE || t.extra == NONE
  }

  /** The decision chain: a heal first, then the charms in a fixed order; 0 is no skill. */
  function SkillFor(t: Target): int {
    if Hurt(t) then 985
    else if t.dash == NONE then 930
    else if t.haste == NONE then 1254
    else if t.attack == NONE then 1270
    else if t.defense == NONE then 1004
    else if t.accuracy == NONE then 1019
    else if t.critical == NONE then 1284
    else if t.extra == NONE then 1294
    else 0
  }

  function One(b: bool): nat {
    if b then 1 else 0
  }

  /** What a target lacks, one by one. */
  function Lacks(t: Target): nat {
    One(Hurt(t)) + One(t.dash == NONE) + One(t.haste == NONE) + One(t.attack == NONE) + One(t.defense == NONE)
    + One(t.accuracy == NONE) + One(t.critical == NONE) + One(t.extra == NONE)
  }

  /** A cast that takes: the heal brings the target out of need, a charm gives its status a slot. */
  function Treated(t: Target, skill: int, outcome: int): Target {
    match skill
    case 985 => t.(hp := outcome)
    case 930 => t.(dash := outcome)
    case 1254 => t.(haste := outcome)
    case 1270 => t.(attack := outcome)
    case 1004 => t.(defense := outcome)
    case 1019 => t.(accuracy := outcome)
    case 1284 => t.(critical := outcome)
    case 1294 => t.(extra := outcome)
    case _ => t
  }

  predicate Takes(t: Target, skill: int, outcome: int) {
    if skill == 985 then outcome >= t.maxHp * 85 / 100 else outcome != NONE
  }

  /** Every candidate yields a skill, nobody else does, and candidates are exactly those who lack something. */
  lemma CandidatesYieldSkills(t: Target)
    ensures NeedsHelp(t) <==> SkillFor(t) != 0
    ensures NeedsHelp(t) <==> Lacks(t) > 0
  {
  }

  /**
   * Healing comes first, for whoever has less than 85 of a hundred parts of his hit points, rounded down; then the
   * charms in a fixed order, each only for somebody who has all those before it.
   */
  lemma SkillsComeInOrder(t: Target)
    ensures
      var n, hurt := SkillFor(t), 100 * (t.hp + 1) <= 85 * t.maxHp;
      && (n == 985 <==> hurt)
      && (n in {930, 1254, 1270, 1004, 1019, 1284, 1294, 0} <==> !hurt)
      && (n == 930 ==> t.dash == 255)
      && (n == 1254 ==> t.haste == 255 != t.dash)
      && (n == 1270 ==> t.attack == 255 && t.dash != 255 && t.haste != 255)
      && (n == 1004 ==> t.defense == 255 && t.dash != 255 && t.haste != 255 && t.attack != 255)
      && (n == 1019 ==> t.accuracy == 255 && t.dash != 255 && t.haste != 255 && t.attack != 255 && t.defense != 255)
      && (n == 1284 ==>
            t.critical == 255 && t.dash != 255 && t.haste != 255 && t.attack != 255 && t.defense != 255
            && t.accuracy != 255)
      && (n == 1294 ==>
            t.extra == 255 && t.dash != 255 && t.haste != 255 && t.attack != 255 && t.defense != 255
            && t.accuracy != 255 && t.critical != 255)
      && (n == 0 ==>
            t.dash != 255 && t.haste != 255 && t.attack != 255 && t.defense != 255 && t.accuracy != 255
            && t.critical != 255 && t.extra != 255)
  {
  }

  /** The chosen skill, if it takes, removes exactly one lack. */
  lemma CastRemovesOne(t: Target, outcome: int)
    requires NeedsHelp(t) && Takes(t, SkillFor(t), outcome)
    ensures Lacks(Treated(t, SkillFor(t), outcome)) == Lacks(t) - 1
    ensures Treated(t, SkillFor(t), outcome).able == t.able
  {
  }

  // ------------------------------------------------ the queue

  predicate Candidate(t: Target) {
    t.able && NeedsHelp(t)
  }

  /** The positions of the candidates among the first n people. */
  function Candidates(people: seq<Target>, n: nat): (c: seq<int>)
    requires n <= |people|
    ensures forall i :: 0 <= i < |c| ==> 0 <= c[i] < n && Candidate(people[c[i]])
    ensures forall i, j :: 0 <= i < j < |c| ==> c[i] < c[j]
    ensures forall k :: 0 <= k < n && Candidate(people[k]) ==> k in c
  {
    if n == 0 then []
    else
      var c := Candidates(people, n - 1);
      if Candidate(people[n - 1]) then c + [n - 1] else c
  }

  /** All that the people within reach lack. */
  function TotalLacks(people: seq<Target>): nat {
    if people == [] then 0
    else TotalLacks(people[..|people| - 1]) + if people[|people| - 1].able then Lacks(people[|people| - 1]) else 0
  }

  /** The turn of the round robin, given the stored index and the number of candidates. */
  function Turn(index: nat, count: nat): nat {
    if index >= count then 0 else index
  }

  /** The index stored for the next round. */
  function NextIndex(turn: nat, count: nat): nat
    requires turn < count
  {
    if turn + 1 == count then 0 else turn + 1
  }

  lemma NextIndexIsMod(turn: nat, count: nat)
    requires turn < count
    ensures (turn + 1) % count == NextIndex(turn, count)
  {
  }

  lemma {:induction false} TotalOfUpdate(people: seq<Target>, k: nat, t: Target)
    requires k < |people| && people[k].able && t.able
    ensures TotalLacks(people[k := t]) == TotalLacks(people) - Lacks(people[k]) + Lacks(t)
  {
    var n := |people| - 1;
    if k < n {
      assert people[k := t][..n] == people[..n][k := t];
      TotalOfUpdate(people[..n], k, t);
    } else {
      assert people[k := t][..n] == people[..n];
    }
  }

  lemma {:induction false} NothingLeft(people: seq<Target>)
    ensures TotalLacks(people) == 0 <==> forall k :: 0 <= k < |people| ==> !Candidate(people[k])
  {
    if people != [] {
      var n := |people| - 1;
      NothingLeft(people[..n]);
      CandidatesYieldSkills(people[n]);
      assert forall k :: 0 <= k < n ==> people[..n][k] == people[k];
    }
  }

  datatype State = State(people: seq<Target>, index: nat)

  /** The person whose turn it is. */
  function Served(s: State): (k: nat)
    requires Candidates(s.people, |s.people|) != []
    ensures k < |s.people| && Candidate(s.people[k])
  {
    var c := Candidates(s.people, |s.people|);
    c[Turn(s.index, |c|)]
  }

  /** One unthrottled round: the turn moves on, and whatever became of the person served has become of him. */
  function Turned(s: State, after: Target): State {
    var c := Candidates(s.people, |s.people|);
    if c == [] then s else State(s.people[Served(s) := after], NextIndex(Turn(s.index, |c|), |c|))
  }

  /** A round whose cast takes with this outcome. */
  function Round(s: State, outcome: int): State {
    if Candidates(s.people, |s.people|) == [] then s
    else Turned(s, Treated(s.people[Served(s)], SkillFor(s.people[Served(s)]), outcome))
  }

  /** A round whose cast does not take. */
  function IdleRound(s: State): State {
    if Candidates(s.people, |s.people|) == [] then s else Turned(s, s.people[Served(s)])
  }

  /** Whoever's turn it is, the outcome is one that takes. */
  predicate Effective(s: State, outcome: int) {
    Candidates(s.people, |s.people|) != [] ==> Takes(s.people[Served(s)], SkillFor(s.people[Served(s)]), outcome)
  }

  predicate AllEffective(s: State, outcomes: seq<int>)
    decreases |outcomes|
  {
    outcomes == [] || (Effective(s, outcomes[0]) && AllEffective(Round(s, outcomes[0]), outcomes[1..]))
  }

  function After(s: State, outcomes: seq<int>): State
    decreases |outcomes|
  {
    if outcomes == [] then s else After(Round(s, outcomes[0]), outcomes[1..])
  }

  lemma RoundRemovesOne(s: State, outcome: int)
    requires Effective(s, outcome)
    ensures TotalLacks(Round(s, outcome).people) == if TotalLacks(s.people) == 0 then 0 else TotalLacks(s.people) - 1
  {
    var c := Candidates(s.people, |s.people|);
    NothingLeft(s.people);
    if c != [] {
      var k := Served(s);
      CastRemovesOne(s.people[k], outcome);
      TotalOfUpdate(s.people, k, Treated(s.people[k], SkillFor(s.people[k]), outcome));
      assert Candidate(s.people[k]);
    }
  }

  /** With casts that take and nothing expiring, n rounds remove n lacks, whatever the index was. */
  lemma {:induction false} RoundsRemoveOneEach(s: State, outcomes: seq<int>)
    requires AllEffective(s, outcomes)
    ensures TotalLacks(After(s, outcomes).people)
         == if |outcomes| <= TotalLacks(s.people) then TotalLacks(s.people) - |outcomes| else 0
    decreases |outcomes|
  {
    if outcomes != [] {
      RoundRemovesOne(s, outcomes[0]);
      RoundsRemoveOneEach(Round(s, outcomes[0]), outcomes[1..]);
    }
  }

  /** So the queue is empty after exactly as many casts as there are lacks, and not before. */
  lemma QueueDrains(s: State, outcomes: seq<int>)
    requires AllEffective(s, outcomes)
    ensures var t := After(s, outcomes); Candidates(t.people, |t.people|) == [] <==> |outcomes| >= TotalLacks(s.people)
  {
    RoundsRemoveOneEach(s, outcomes);
    var t := After(s, outcomes);
    NothingLeft(t.people);
    var c := Candidates(t.people, |t.people|);
    assert c != [] ==> Candidate(t.people[c[0]]);
  }

  // ------------------------------------------------ fairness

  function Idled(s: State, n: nat): State {
    if n == 0 then s else IdleRound(Idled(s, n - 1))
  }

  /** The stored index after n rounds that leave the candidates as they are. */
  function IndexAfter(index: nat, count: nat, n: nat): nat
    requires count > 0
  {
    if n == 0 then index else NextIndex(Turn(IndexAfter(index, count, n - 1), count), count)
  }

  lemma {:induction false} IndexGoesRound(index: nat, count: nat, n: nat)
    requires count > 0 && n <= count
    ensures
      var turn := Turn(index, count);
      Turn(IndexAfter(index, count, n), count) == if turn + n < count then turn + n else turn + n - count
  {
    if n > 0 {
      IndexGoesRound(index, count, n - 1);
    }
  }

  lemma IdleIs(s: State, c: seq<int>)
    requires c == Candidates(s.people, |s.people|) && c != []
    ensures IdleRound(s) == State(s.people, NextIndex(Turn(s.index, |c|), |c|))
  {
  }

  /** While no cast takes the candidates stay and the index goes round. */
  lemma {:induction false} IdledIs(s: State, c: seq<int>, n: nat)
    requires c == Candidates(s.people, |s.people|) && c != []
    ensures Idled(s, n) == State(s.people, IndexAfter(s.index, |c|, n))
  {
    if n > 0 {
      IdledIs(s, c, n - 1);
      IdleIs(Idled(s, n - 1), c);
    }
  }

  lemma ServedIs(people: seq<Target>, index: nat, c: seq<int>)
    requires c == Candidates(people, |people|) && c != []
    ensures Served(State(people, index)) == c[Turn(index, |c|)]
  {
  }

  /** The position served in round n, in terms of the index alone. */
  lemma ServedAfter(people: seq<Target>, index: nat, c: seq<int>, n: nat)
    requires c == Candidates(people, |people|) && n < |c|
    ensures
      var turn := Turn(index, |c|);
      Served(State(people, IndexAfter(index, |c|, n))) == c[if turn + n < |c| then turn + n else turn + n - |c|]
  {
    IndexGoesRound(index, |c|, n);
    ServedIs(people, IndexAfter(index, |c|, n), c);
  }

  /** While no cast takes, as many rounds in a row as there are candidates serve each of them once, from any index. */
  lemma FairRounds(s: State, i: nat, j: nat)
    requires i < j < |Candidates(s.people, |s.people|)|
    ensures Idled(s, i).people == s.people == Idled(s, j).people && Served(Idled(s, i)) != Served(Idled(s, j))
  {
    var c := Candidates(s.people, |s.people|);
    IdledIs(s, c, i);
    IdledIs(s, c, j);
    ServedAfter(s.people, s.index, c, i);
    ServedAfter(s.people, s.index, c, j);
  }

  /** And nobody who needs help waits longer than that. */
  lemma EveryoneIsServed(s: State, k: nat) returns (n: nat)
    requires k < |s.people| && Candidate(s.people[k])
    ensures n < |Candidates(s.people, |s.people|)| && Idled(s, n).people == s.people && Served(Idled(s, n)) == k
  {
    var c := Candidates(s.people, |s.people|);
    var p :| 0 <= p < |c| && c[p] == k;
    assert c != [];
    var turn := Turn(s.index, |c|);
    n := if turn <= p then p - turn else p + |c| - turn;
    IdledIs(s, c, n);
    ServedAfter(s.people, s.index, c, n);
  }

  // ------------------------------------------------ the bot

  class CPlayerBot {
    var nextBuffCandidateIndex: nat
    var lastBuffCastTime: int

    constructor ()
      ensures nextBuffCandidateIndex == 0 && lastBuffCastTime == 0
    {
      nextBuffCandidateIndex, lastBuffCastTime := 0, 0;
    }

    /** The candidate loop. */
    method Collect(people: seq<Target>) returns (candidates: seq<int>)
      ensures candidates == Candidates(people, |people|)
    {
      candidates := [];
      for i := 0 to |people|
        invariant candidates == Candidates(people, i)
      {
        var p := people[i];
        if !p.able {
          continue;
        }
        var needsHelp := false;
        if p.hp < p.maxHp * 85 / 100 {
          needsHelp := true;
        } else if p.dash == NONE || p.haste == NONE || p.attack == NONE || p.defense == NONE || p.accuracy == NONE
                  || p.critical == NONE || p.extra == NONE {
          needsHelp := true;
        }
        if needsHelp {
          candidates := candidates + [i];
        }
      }
    }

    /**
     * The queue part of HandleBuffBot: whom it casts on, and what, with the throttle in clock ticks; known says that
     * the skill table has the skill. Nobody is served twice within the throttle, and nobody who needs nothing.
     */
    method ServeQueue(people: seq<Target>, now: int, throttle: int, known: int -> bool)
      returns (target: int, skill: int)
      modifies this
      ensures
        var c := Candidates(people, |people|);
        if now - old(lastBuffCastTime) < throttle || c == [] then
          && skill == 0 && nextBuffCandidateIndex == old(nextBuffCandidateIndex)
          && lastBuffCastTime == old(lastBuffCastTime)
        else
          && State(people, nextBuffCandidateIndex) == IdleRound(State(people, old(nextBuffCandidateIndex)))
          && target == Served(State(people, old(nextBuffCandidateIndex))) && Candidate(people[target])
          && skill == (if known(SkillFor(people[target])) then SkillFor(people[target]) else 0)
          && lastBuffCastTime == if skill != 0 then now else old(lastBuffCastTime)
    {
      target, skill := 0, 0;
      if now - lastBuffCastTime < throttle {
        return;
      }
      var candidates := Collect(people);
      if candidates == [] {
        return;
      }
      if nextBuffCandidateIndex >= |candidates| {
        nextBuffCandidateIndex := 0;
      }
      target := candidates[nextBuffCandidateIndex];
      assert people[target := people[target]] == people;
      NextIndexIsMod(nextBuffCandidateIndex, |candidates|);
      nextBuffCandidateIndex := (nextBuffCandidateIndex + 1) % |candidates|;
      CandidatesYieldSkills(people[target]);
      var wanted := SkillFor(people[target]);
      if wanted > 0 && known(wanted) {
        skill := wanted;
        lastBuffCastTime := now;
      }
    }
  }
}
