/** The bot's stat-point spender: CPlayerBot::AllocateStats over any sequence of random choices. */
module StatSpender {

  const STR: int := 0
  const DEX: int := 1
  const INT: int := 2
  const CON: int := 3
  const CHA: int := 4
  const SEN: int := 5

  /** The attribute picked for a job by a roll of rand() and, for dealers, a second one. */
  function Choice(job: int, roll: nat, second: nat): int {
    if job == 111 || job == 121 || job == 122 then if roll % 10 < 6 then STR else CON
    else if job == 211 || job == 221 || job == 222 then if roll % 10 < 6 then INT else SEN
    else if job == 311 || job == 321 || job == 322 then if roll % 10 < 6 then DEX else SEN
    else if job == 411 || job == 421 || job == 422 then
      if roll % 10 < 5 then CON else if second % 5 < 3 then SEN else STR
    else if roll % 10 < 5 then STR else DEX
  }

  /** Whether the choice rolled a second time. */
  predicate RollsTwice(job: int, roll: nat) {
    (job == 411 || job == 421 || job == 422) && roll % 10 >= 5
  }

  /** The attributes a job's points go to. */
  function Favoured(job: int): set<int> {
    if job == 111 || job == 121 || job == 122 then {STR, CON}
    else if job == 211 || job == 221 || job == 222 then {INT, SEN}
    else if job == 311 || job == 321 || job == 322 then {DEX, SEN}
    else if job == 411 || job == 421 || job == 422 then {CON, SEN, STR}
    else {STR, DEX}
  }

  /** The price of raising an attribute that stands at v. */
  function Cost(v: nat): (c: nat)
    ensures v < 5 ==> c == 1
    ensures v >= 5 ==> c >= 1 && 5 * c <= v < 5 * (c + 1)
  {
    if v / 5 < 1 then 1 else v / 5
  }

  /** The price of raising an attribute from a to b: the sum over every value passed through. */
  function Price(a: nat, b: nat): nat
    decreases b - a
  {
    if b <= a then 0 else Price(a, b - 1) + Cost(b - 1)
  }

  /** The price of all that was raised among the first n attributes. */
  function TotalPrice(was: seq<nat>, now: seq<nat>, n: nat): nat
    requires n <= |was| && n <= |now|
  {
    if n == 0 then 0 else TotalPrice(was, now, n - 1) + Price(was[n - 1], now[n - 1])
  }

  ghost predicate Raised(was: seq<nat>, now: seq<nat>) {
    |was| == |now| && forall s :: 0 <= s < |was| ==> was[s] <= now[s]
  }

  lemma {:induction false} TotalOfRaise(was: seq<nat>, now: seq<nat>, n: nat, s: nat)
    requires Raised(was, now) && s < |now| && n <= |now|
    ensures TotalPrice(was, now[s := now[s] + 1], n) == TotalPrice(was, now, n) + if s < n then Cost(now[s]) else 0
  {
    if n > 0 {
      TotalOfRaise(was, now, n - 1, s);
    }
  }

  lemma {:induction false} TotalOfNothing(was: seq<nat>, n: nat)
    requires n <= |was|
    ensures TotalPrice(was, was, n) == 0
  {
    if n > 0 {
      TotalOfNothing(was, n - 1);
    }
  }

  lemma {:induction false} PriceAtLeast(a: nat, b: nat)
    requires a <= b
    ensures Price(a, b) >= b - a
    decreases b - a
  {
    if a < b {
      PriceAtLeast(a, b - 1);
    }
  }

  lemma {:induction false} TotalAtLeast(was: seq<nat>, now: seq<nat>, n: nat, s: nat)
    requires Raised(was, now) && s < n <= |now|
    ensures TotalPrice(was, now, n) >= now[s] - was[s]
  {
    PriceAtLeast(was[n - 1], now[n - 1]);
    if s < n - 1 {
      TotalAtLeast(was, now, n - 1, s);
    }
  }

  /** Prices add up over the values passed through, in whatever steps they are passed. */
  lemma {:induction false} PriceAddsUp(a: nat, b: nat, c: nat)
    requires a <= b <= c
    ensures Price(a, c) == Price(a, b) + Price(b, c)
    decreases c - b
  {
    if b < c {
      PriceAddsUp(a, b, c - 1);
    }
  }

  lemma {:induction false} PriceOfFive(k: nat)
    requires k >= 1
    ensures Price(5 * k, 5 * k + 5) == 5 * k
  {
    var v := 5 * k;
    assert Price(v, v) == 0 && Price(v, v + 1) == k && Price(v, v + 2) == 2 * k;
    assert Price(v, v + 3) == 3 * k && Price(v, v + 4) == 4 * k;
  }

  lemma NextTriangle(j: nat)
    ensures j * (j - 1) + 2 * j == (j + 1) * j
  {
  }

  lemma PriceOfFirstFive()
    ensures Price(0, 5) == 5
  {
    assert Price(0, 1) == 1 && Price(0, 2) == 2 && Price(0, 3) == 3 && Price(0, 4) == 4;
  }

  lemma OneMoreFive(j: nat)
    requires j >= 1
    ensures Price(0, 5 * j + 5) == Price(0, 5 * j) + 5 * j
  {
    PriceOfFive(j);
    PriceAddsUp(0, 5 * j, 5 * j + 5);
  }

  /** Raising an attribute from nothing to 5j costs 5 points for the first five and 5i for each five from 5i on. */
  lemma {:induction false} PriceFromNothing(j: nat, top: nat)
    requires j >= 1 && top == 5 * j
    ensures 2 * Price(0, top) == 10 + 5 * (j * (j - 1))
    decreases j
  {
    if j == 1 {
      PriceOfFirstFive();
    } else {
      PriceFromNothing(j - 1, top - 5);
      OneMoreFive(j - 1);
      NextTriangle(j - 1);
    }
  }

  /** Six rolls of ten raise a soldier's strength, a muse's intelligence, a hawker's dexterity; others have five. */
  lemma RollsRaise(job: int, roll: nat, second: nat)
    ensures
      var c, six, half := Choice(job, roll, second), roll % 10 <= 5, roll % 10 <= 4;
      && (job in {111, 121, 122} ==> (c == 0 <==> six) && (c == 3 <==> !six))
      && (job in {211, 221, 222} ==> (c == 2 <==> six) && (c == 5 <==> !six))
      && (job in {311, 321, 322} ==> (c == 1 <==> six) && (c == 5 <==> !six))
      && (job in {411, 421, 422} ==>
            (c == 3 <==> half) && (c == 5 <==> !half && second % 5 <= 2) && (c == 0 <==> !half && second % 5 >= 3))
      && (job !in {111, 121, 122, 211, 221, 222, 311, 321, 322, 411, 421, 422} ==>
            (c == 0 <==> half) && (c == 1 <==> !half))
  {
  }

  /** What a job's attributes are. */
  lemma FavouredAre(job: int, s: int)
    ensures
      s in Favoured(job) <==>
        if job in {111, 121, 122} then s == 0 || s == 3
        else if job in {211, 221, 222} then s == 2 || s == 5
        else if job in {311, 321, 322} then s == 1 || s == 5
        else if job in {411, 421, 422} then s == 0 || s == 3 || s == 5
        else s == 0 || s == 1
  {
  }

  lemma ChoiceIsFavoured(job: int, roll: nat, second: nat)
    ensures Choice(job, roll, second) in Favoured(job) && 0 <= Choice(job, roll, second) < 6
    ensures CHA !in Favoured(job)
  {
  }

  class CPlayerBot {
    /** Strength, dexterity, intelligence, concentration, charm and sense. */
    var attr: seq<nat>
    var statPoints: int

    constructor (attr: seq<nat>, statPoints: int)
      requires |attr| == 6
      ensures this.attr == attr && this.statPoints == statPoints
    {
      this.attr, this.statPoints := attr, statPoints;
    }

    /**
     * AllocateStats: whatever the rolls, it ends; the points spent are exactly the prices of every value passed
     * through; they never go below zero; only the job's attributes rise; and it stops for want of points, the last
     * choice being beyond what is left.
     */
    method AllocateStats(job: int, rolls: nat -> nat) returns (ghost used: nat, ghost last: int)
      requires |attr| == 6
      modifies this
      ensures |attr| == 6 && Raised(old(attr), attr)
      ensures old(statPoints) - statPoints == TotalPrice(old(attr), attr, 6)
      ensures old(statPoints) > 0 ==> statPoints >= 0
      ensures old(statPoints) <= 0 ==> statPoints == old(statPoints) && attr == old(attr)
      ensures forall s :: 0 <= s < 6 && s !in Favoured(job) ==> attr[s] == old(attr)[s]
      ensures forall s :: 0 <= s < 6 ==> attr[s] - old(attr)[s] <= old(statPoints) - statPoints
      ensures statPoints > 0 ==> last in Favoured(job) && 0 <= last < 6 && statPoints < Cost(attr[last])
    {
      used, last := 0, 0;
      TotalOfNothing(attr, 6);
      if statPoints < 1 {
        return;
      }
      var k: nat := 0;
      while statPoints > 0
        invariant |attr| == 6 && Raised(old(attr), attr) && statPoints >= 0
        invariant old(statPoints) - statPoints == TotalPrice(old(attr), attr, 6)
        invariant forall s :: 0 <= s < 6 && s !in Favoured(job) ==> attr[s] == old(attr)[s]
        decreases statPoints
      {
        var statid := Choice(job, rolls(k), rolls(k + 1));
        ChoiceIsFavoured(job, rolls(k), rolls(k + 1));
        k := if RollsTwice(job, rolls(k)) then k + 2 else k + 1;
        var nstatval := attr[statid] / 5;
        if nstatval < 1 {
          nstatval := 1;
        }
        used, last := k, statid;
        if statPoints < nstatval {
          break;
        }
        TotalOfRaise(old(attr), attr, 6, statid);
        attr := attr[statid := attr[statid] + 1];
        statPoints := statPoints - nstatval;
      }
      forall s | 0 <= s < 6
        ensures attr[s] - old(attr)[s] <= old(statPoints) - statPoints
      {
        TotalAtLeast(old(attr), attr, 6, s);
      }
    }
  }
}
