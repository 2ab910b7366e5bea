/** The monster AI rule interpreter: CMonster::DoAi over the rules loaded from AIP files. */
module MonsterAi {

  const AI_SUCCESS: int := 7
  const AI_FAILURE: int := 8
  const LAST_CONDITION: int := 32
  const LAST_ACTION: int := 38
  const CHECK_TARGET_LEVEL: int := 20
  const LTB_ACTION: int := 28
  const QSD_ACTION: int := 30
  const IDLE: int := 1

  datatype Datum<D> = Datum(opcode: int, data: D)

  /** One rule: IF conditions THEN actions, with the offsets of its last LTB and QSD trigger actions or -1. */
  datatype Script<D> = Script(conditions: seq<Datum<D>>, actions: seq<Datum<D>>, offsetLtb: int, offsetQsd: int)

  /** What a rule may read and change; 0 stands for NULL. */
  datatype Monster<S> = Monster(nextAiAttacked: int, nearChar: int, findChar: int, refNpc: int, rest: S)

  /** The condition and action tables as state transformers: opcode, monster, data and AI number in, result out. */
  datatype World<!S, !D> = World(
    cond: (int, Monster<S>, D, int) -> (Monster<S>, int),
    act: (int, Monster<S>, D, int) -> (Monster<S>, int))

  /** The caller's AI number and event type. */
  datatype Call = Call(ai: int, kind: int)

  // ------------------------------------------------ loading

  /** The last index whose opcode is op, or -1. */
  function LastWith<D>(actions: seq<Datum<D>>, op: int): (r: int)
    ensures -1 <= r < |actions|
    ensures r >= 0 ==> actions[r].opcode == op
    ensures forall i :: r < i < |actions| ==> actions[i].opcode != op
  {
    if actions == [] then -1
    else if actions[|actions| - 1].opcode == op then |actions| - 1
    else LastWith(actions[..|actions| - 1], op)
  }

  /**
   * A script as the AIP loader leaves it. The offsets are only set when there are actions; without any, they keep the
   * 0 a new script starts with and the action table stays NULL.
   */
  ghost predicate Loaded<D>(s: Script<D>) {
    if s.actions == [] then s.offsetLtb == 0 && s.offsetQsd == 0
    else s.offsetLtb == LastWith(s.actions, LTB_ACTION) && s.offsetQsd == LastWith(s.actions, QSD_ACTION)
  }

  lemma LastWithIs<D>(actions: seq<Datum<D>>, op: int, r: int)
    requires -1 <= r < |actions| && (r >= 0 ==> actions[r].opcode == op)
    requires forall i :: r < i < |actions| ==> actions[i].opcode != op
    ensures LastWith(actions, op) == r
  {
  }

  /** The loader's action loop. */
  method LoadScript<D>(conditions: seq<Datum<D>>, actions: seq<Datum<D>>) returns (s: Script<D>)
    ensures s.conditions == conditions && s.actions == actions
    ensures Loaded(s)
  {
    var ltb, qsd := 0, 0;
    if |actions| > 0 {
      ltb, qsd := -1, -1;
      for k := 0 to |actions|
        invariant -1 <= ltb < k && (ltb >= 0 ==> actions[ltb].opcode == LTB_ACTION)
        invariant -1 <= qsd < k && (qsd >= 0 ==> actions[qsd].opcode == QSD_ACTION)
        invariant forall i :: ltb < i < k ==> actions[i].opcode != LTB_ACTION
        invariant forall i :: qsd < i < k ==> actions[i].opcode != QSD_ACTION
      {
        if actions[k].opcode == LTB_ACTION {
          ltb := k;
        }
        if actions[k].opcode == QSD_ACTION {
          qsd := k;
        }
      }
      LastWithIs(actions, LTB_ACTION, ltb);
      LastWithIs(actions, QSD_ACTION, qsd);
    }
    s := Script(conditions, actions, ltb, qsd);
  }

  // ------------------------------------------------ conditions

  predicate Evaluates<D>(c: Datum<D>) {
    0 <= c.opcode <= LAST_CONDITION
  }

  /** A condition's result; checking the target level while idle is waived. */
  function Result<S, D>(w: World<S, D>, c: Datum<D>, call: Call, m: Monster<S>): int {
    var r := w.cond(c.opcode, m, c.data, call.ai).1;
    if c.opcode == CHECK_TARGET_LEVEL && call.kind == IDLE && r == AI_FAILURE then AI_SUCCESS else r
  }

  /** The monster after the first n conditions of a rule, none of which stopped it. */
  function CondState<S, D>(w: World<S, D>, cs: seq<Datum<D>>, call: Call, m: Monster<S>, n: nat): Monster<S>
    requires n <= |cs|
  {
    if n == 0 then m
    else
      var before := CondState(w, cs, call, m, n - 1);
      if Evaluates(cs[n - 1]) then w.cond(cs[n - 1].opcode, before, cs[n - 1].data, call.ai).0 else before
  }

  /** Condition i, if it is evaluated at all, does not fail in its turn. */
  predicate Passes<S, D>(w: World<S, D>, cs: seq<Datum<D>>, call: Call, m: Monster<S>, i: nat)
    requires i < |cs|
  {
    Evaluates(cs[i]) ==> Result(w, cs[i], call, CondState(w, cs, call, m, i)) != AI_FAILURE
  }

  /** The answer of the last condition evaluated among the first n. */
  function Verdict<S, D>(w: World<S, D>, cs: seq<Datum<D>>, call: Call, m: Monster<S>, n: nat): int
    requires n <= |cs|
  {
    if n == 0 then AI_SUCCESS
    else if Evaluates(cs[n - 1]) then Result(w, cs[n - 1], call, CondState(w, cs, call, m, n - 1))
    else Verdict(w, cs, call, m, n - 1)
  }

  /** How many conditions pass before the first that does not. */
  function FirstFailure<S, D>(w: World<S, D>, cs: seq<Datum<D>>, call: Call, m: Monster<S>, from: nat): (n: nat)
    requires from <= |cs|
    ensures from <= n <= |cs|
    ensures forall i :: from <= i < n ==> Passes(w, cs, call, m, i)
    ensures n < |cs| ==> !Passes(w, cs, call, m, n)
    decreases |cs| - from
  {
    if from == |cs| || !Passes(w, cs, call, m, from) then from else FirstFailure(w, cs, call, m, from + 1)
  }

  /** The rule fires: no condition fails, and the last one evaluated answers success. */
  predicate Fires<S, D>(w: World<S, D>, s: Script<D>, call: Call, m: Monster<S>) {
    && (forall i :: 0 <= i < |s.conditions| ==> Passes(w, s.conditions, call, m, i))
    && Verdict(w, s.conditions, call, m, |s.conditions|) == AI_SUCCESS
  }

  /** The monster when the rule's conditions are done with: all of them, or up to the first failure. */
  function Judged<S, D>(w: World<S, D>, s: Script<D>, call: Call, m: Monster<S>): Monster<S> {
    var n := FirstFailure(w, s.conditions, call, m, 0);
    CondState(w, s.conditions, call, m, if n < |s.conditions| then n + 1 else n)
  }

  /** Condition functions answer success or failure and nothing else. */
  ghost predicate TwoValued<S(!new), D(!new)>(w: World<S, D>) {
    forall op: int, m: Monster<S>, d: D, ai: int ::
      w.cond(op, m, d, ai).1 == AI_SUCCESS || w.cond(op, m, d, ai).1 == AI_FAILURE
  }

  lemma {:induction false} VerdictOfPasses<S(!new), D(!new)>(w: World<S, D>, cs: seq<Datum<D>>, call: Call,
                                                             m: Monster<S>, n: nat)
    requires TwoValued(w) && n <= |cs| && forall i :: 0 <= i < n ==> Passes(w, cs, call, m, i)
    ensures Verdict(w, cs, call, m, n) == AI_SUCCESS
  {
    if n > 0 && !Evaluates(cs[n - 1]) {
      VerdictOfPasses(w, cs, call, m, n - 1);
    } else if n > 0 {
      assert Passes(w, cs, call, m, n - 1);
    }
  }

  /** With two-valued conditions a rule fires exactly when every condition that is evaluated succeeds. */
  lemma FiresIffAllSucceed<S(!new), D(!new)>(w: World<S, D>, s: Script<D>, call: Call, m: Monster<S>)
    requires TwoValued(w)
    ensures Fires(w, s, call, m) <==>
            forall i :: 0 <= i < |s.conditions| && Evaluates(s.conditions[i]) ==>
              Result(w, s.conditions[i], call, CondState(w, s.conditions, call, m, i)) == AI_SUCCESS
  {
    var cs := s.conditions;
    if forall i :: 0 <= i < |cs| ==> Passes(w, cs, call, m, i) {
      VerdictOfPasses(w, cs, call, m, |cs|);
      forall i | 0 <= i < |cs| && Evaluates(cs[i])
        ensures Result(w, cs[i], call, CondState(w, cs, call, m, i)) == AI_SUCCESS
      {
        assert Passes(w, cs, call, m, i);
      }
    } else {
      var i :| 0 <= i < |cs| && !Passes(w, cs, call, m, i);
      assert Evaluates(cs[i]) && Result(w, cs[i], call, CondState(w, cs, call, m, i)) != AI_SUCCESS;
    }
  }

  // ------------------------------------------------ actions

  predicate Executes<D>(a: Datum<D>) {
    0 <= a.opcode <= LAST_ACTION
  }

  predicate Hoists<D>(s: Script<D>) {
    s.offsetLtb != -1 && s.offsetQsd != -1
  }

  /** The hoisted action, if there is to be one, exists. */
  predicate Reads<D>(s: Script<D>) {
    Hoists(s) ==> 0 <= s.offsetLtb < |s.actions|
  }

  /** It exists and its opcode is in range: the rule can be fired. */
  predicate Runnable<D>(s: Script<D>) {
    Reads(s) && (Hoists(s) ==> Executes(s.actions[s.offsetLtb]))
  }

  /** The loader's rules can be fired exactly when they have an action at all. */
  lemma LoadedRunnableIff<D>(s: Script<D>)
    requires Loaded(s)
    ensures Runnable(s) <==> s.actions != []
  {
  }

  /** The in-range actions of indices below n, the hoisted one left out. */
  function InOrder<D>(s: Script<D>, n: nat): seq<nat>
    requires n <= |s.actions|
  {
    if n == 0 then []
    else if Executes(s.actions[n - 1]) && !(Hoists(s) && n - 1 == s.offsetLtb) then InOrder(s, n - 1) + [n - 1]
    else InOrder(s, n - 1)
  }

  /** The order in which a fired rule runs its actions. */
  function Order<D>(s: Script<D>): seq<nat>
    requires Reads(s)
  {
    (if Hoists(s) then [s.offsetLtb] else []) + InOrder(s, |s.actions|)
  }

  lemma {:induction false} InOrderBelow<D>(s: Script<D>, n: nat)
    requires n <= |s.actions|
    ensures forall j :: 0 <= j < |InOrder(s, n)| ==> InOrder(s, n)[j] < n
  {
    if n > 0 {
      InOrderBelow(s, n - 1);
    }
  }

  lemma {:induction false} InOrderOnce<D>(s: Script<D>, n: nat, i: nat)
    requires n <= |s.actions|
    ensures multiset(InOrder(s, n))[i]
         == if i < n && Executes(s.actions[i]) && !(Hoists(s) && i == s.offsetLtb) then 1 else 0
  {
    if n > 0 {
      InOrderOnce(s, n - 1, i);
    }
  }

  lemma {:induction false} InOrderAscends<D>(s: Script<D>, n: nat)
    requires n <= |s.actions|
    ensures forall j, k :: 0 <= j < k < |InOrder(s, n)| ==> InOrder(s, n)[j] < InOrder(s, n)[k]
  {
    if n > 0 {
      InOrderAscends(s, n - 1);
      InOrderBelow(s, n - 1);
    }
  }

  /** A rule that can be fired runs each in-range action exactly once and the others never. */
  lemma OrderRunsEachOnce<D>(s: Script<D>, i: nat)
    requires Runnable(s)
    ensures multiset(Order(s))[i] == if i < |s.actions| && Executes(s.actions[i]) then 1 else 0
  {
    InOrderOnce(s, |s.actions|, i);
  }

  /** The hoisted action runs first, the others in ascending order; in a loaded rule it is the last LTB. */
  lemma OrderHoistsLtb<D>(s: Script<D>)
    requires Runnable(s)
    ensures Hoists(s) ==> Order(s)[0] == s.offsetLtb
    ensures Hoists(s) && Loaded(s) ==> Order(s)[0] == LastWith(s.actions, LTB_ACTION)
    ensures forall j, k :: (if Hoists(s) then 1 else 0) <= j < k < |Order(s)| ==> Order(s)[j] < Order(s)[k]
  {
    InOrderAscends(s, |s.actions|);
  }

  ghost predicate Indices<D>(s: Script<D>, acts: seq<nat>) {
    forall j :: 0 <= j < |acts| ==> acts[j] < |s.actions|
  }

  /** The monster and the last result after running these actions one after the other. */
  function ActAll<S, D>(w: World<S, D>, s: Script<D>, call: Call, acts: seq<nat>, m: Monster<S>): (Monster<S>, int)
    requires Indices(s, acts)
    decreases |acts|
  {
    if acts == [] then (m, AI_SUCCESS)
    else
      var a := s.actions[acts[|acts| - 1]];
      w.act(a.opcode, ActAll(w, s, call, acts[..|acts| - 1], m).0, a.data, call.ai)
  }

  lemma ActOneMore<S, D>(w: World<S, D>, s: Script<D>, call: Call, acts: seq<nat>, m: Monster<S>, i: nat)
    requires Indices(s, acts) && i < |s.actions|
    ensures Indices(s, acts + [i])
    ensures ActAll(w, s, call, acts + [i], m)
         == w.act(s.actions[i].opcode, ActAll(w, s, call, acts, m).0, s.actions[i].data, call.ai)
  {
    assert (acts + [i])[..|acts|] == acts;
  }

  lemma OrderInRange<D>(s: Script<D>)
    requires Reads(s)
    ensures Indices(s, Order(s))
  {
    InOrderBelow(s, |s.actions|);
  }

  /** What a fired rule does, and the result of its last action. */
  function Acted<S, D>(w: World<S, D>, s: Script<D>, call: Call, m: Monster<S>): (Monster<S>, int)
    requires Reads(s)
  {
    OrderInRange(s);
    ActAll(w, s, call, Order(s), m)
  }

  // ------------------------------------------------ one turn of the rule loop

  /** How a turn ends: on to the next key, out of the walk, the same key again, or a read through a missing action. */
  datatype Turn = Advances | Stops | Repeats | Faults

  /** These AIs go on after a success. */
  predicate GoesOn(call: Call) {
    call.ai == 1205 || call.ai == 2048 || call.ai == 2049
  }

  /** One turn: what it does to the monster, and how it ends. */
  function TurnOf<S, D>(w: World<S, D>, s: Script<D>, call: Call, m: Monster<S>): (Monster<S>, Turn) {
    var judged := Judged(w, s, call, m);
    if !Fires(w, s, call, m) then (judged, Advances)
    else if !Reads(s) then (judged, Faults)
    else if Hoists(s) && !Executes(s.actions[s.offsetLtb]) then (judged, Repeats)
    else
      var (after, answer) := Acted(w, s, call, judged);
      (after, if answer == AI_SUCCESS && !GoesOn(call) then Stops else Advances)
  }

  /** A turn is over, one way or the other, exactly unless the rule fires and cannot be. */
  lemma TurnEndsIff<S, D>(w: World<S, D>, s: Script<D>, call: Call, m: Monster<S>)
    ensures TurnOf(w, s, call, m).1 in {Advances, Stops} <==> (Fires(w, s, call, m) ==> Runnable(s))
  {
  }

  /** It neither stops nor moves on exactly when the rule fires with a hoisted action whose opcode is out of range. */
  lemma RepeatsIff<S, D>(w: World<S, D>, s: Script<D>, call: Call, m: Monster<S>)
    ensures TurnOf(w, s, call, m).1 == Repeats <==>
              Fires(w, s, call, m) && Hoists(s) && 0 <= s.offsetLtb < |s.actions| && !Executes(s.actions[s.offsetLtb])
  {
  }

  /** The monster after n turns at one key that all repeat. */
  function Stuck<S, D>(w: World<S, D>, s: Script<D>, call: Call, m: Monster<S>, n: nat): Monster<S> {
    if n == 0 then m else TurnOf(w, s, call, Stuck(w, s, call, m, n - 1)).0
  }

  /** If its conditions leave the monster alone such a rule repeats for ever: the loop never ends. */
  lemma {:induction false} RepeatsForEver<S, D>(w: World<S, D>, s: Script<D>, call: Call, m: Monster<S>, n: nat)
    requires TurnOf(w, s, call, m).1 == Repeats && Judged(w, s, call, m) == m
    ensures Stuck(w, s, call, m, n) == m && TurnOf(w, s, call, Stuck(w, s, call, m, n)).1 == Repeats
  {
    if n > 0 {
      RepeatsForEver(w, s, call, m, n - 1);
    }
  }

  /** A rule without conditions that hoists an action with opcode 39. */
  lemma OutOfRangeRuleRepeats<S, D>(w: World<S, D>, call: Call, m: Monster<S>, d: D, n: nat)
    ensures var s := Script([], [Datum(39, d), Datum(QSD_ACTION, d)], 0, 1);
            TurnOf(w, s, call, m) == (m, Repeats) && Stuck(w, s, call, m, n) == m
  {
    var s := Script([], [Datum(39, d), Datum(QSD_ACTION, d)], 0, 1);
    assert TurnOf(w, s, call, m).1 == Repeats;
    RepeatsForEver(w, s, call, m, n);
  }

  /** A loaded rule with no actions, once it fires, is taken to hoist action 0 of a table that is not there. */
  lemma EmptyRuleFaults<S, D>(w: World<S, D>, s: Script<D>, call: Call, m: Monster<S>)
    requires Loaded(s)
    ensures TurnOf(w, s, call, m).1 == Faults <==> Fires(w, s, call, m) && s.actions == []
    ensures TurnOf(w, s, call, m).1 != Repeats
  {
  }

  // ------------------------------------------------ one rule until it is done with

  /** The first n turns at this rule all repeat. */
  ghost predicate Repeated<S, D>(w: World<S, D>, s: Script<D>, call: Call, m: Monster<S>, n: nat) {
    forall i: nat :: i < n ==> TurnOf(w, s, call, Stuck(w, s, call, m, i)).1 == Repeats
  }

  /** After n repeated turns the next one does not repeat. */
  ghost predicate SettlesAfter<S, D>(w: World<S, D>, s: Script<D>, call: Call, m: Monster<S>, n: nat) {
    Repeated(w, s, call, m, n) && TurnOf(w, s, call, Stuck(w, s, call, m, n)).1 != Repeats
  }

  lemma SettlesOnce<S, D>(w: World<S, D>, s: Script<D>, call: Call, m: Monster<S>, a: nat, b: nat)
    requires SettlesAfter(w, s, call, m, a) && SettlesAfter(w, s, call, m, b)
    ensures a == b
  {
  }

  /** All turns at one rule: what they do and how the last ends; a rule that never settles repeats. */
  ghost function Visit<S, D>(w: World<S, D>, s: Script<D>, call: Call, m: Monster<S>): (Monster<S>, Turn) {
    if exists n: nat :: SettlesAfter(w, s, call, m, n) then
      var n: nat :| SettlesAfter(w, s, call, m, n);
      TurnOf(w, s, call, Stuck(w, s, call, m, n))
    else (m, Repeats)
  }

  lemma VisitIs<S, D>(w: World<S, D>, s: Script<D>, call: Call, m: Monster<S>, n: nat)
    requires SettlesAfter(w, s, call, m, n)
    ensures Visit(w, s, call, m) == TurnOf(w, s, call, Stuck(w, s, call, m, n))
  {
    var k: nat :| SettlesAfter(w, s, call, m, k)
                  && Visit(w, s, call, m) == TurnOf(w, s, call, Stuck(w, s, call, m, k));
    SettlesOnce(w, s, call, m, n, k);
  }

  /** A rule that can be fired, or came from the loader, settles at once. */
  lemma SettlesAtOnce<S, D>(w: World<S, D>, s: Script<D>, call: Call, m: Monster<S>)
    requires Runnable(s) || Loaded(s)
    ensures Visit(w, s, call, m) == TurnOf(w, s, call, m)
  {
    assert SettlesAfter(w, s, call, m, 0);
    VisitIs(w, s, call, m, 0);
  }

  // ------------------------------------------------ rules

  ghost predicate Present<D>(rules: map<int, Script<D>>, from: int, upTo: int) {
    forall k :: from <= k < upTo ==> k in rules
  }

  /** The monster after the visits to the rules with keys from..upTo-1. */
  ghost function After<S, D>(w: World<S, D>, rules: map<int, Script<D>>, call: Call, from: int, m: Monster<S>,
                             upTo: int): Monster<S>
    decreases upTo - from
  {
    if upTo <= from || upTo - 1 !in rules then m
    else Visit(w, rules[upTo - 1], call, After(w, rules, call, from, m, upTo - 1)).0
  }

  /** How the visit to rule k ends when its turn comes. */
  ghost function TurnAt<S, D>(w: World<S, D>, rules: map<int, Script<D>>, call: Call, from: int, m: Monster<S>,
                              k: int): Turn
    requires k in rules
  {
    Visit(w, rules[k], call, After(w, rules, call, from, m, k)).1
  }

  /** The walk has visited the rules from..upTo-1 and moved on from each. */
  ghost predicate Reaches<S, D>(w: World<S, D>, rules: map<int, Script<D>>, call: Call, from: int, m: Monster<S>,
                                upTo: int)
  {
    && from <= upTo && Present(rules, from, upTo)
    && forall k :: from <= k < upTo ==> TurnAt(w, rules, call, from, m, k) == Advances
  }

  /** The walk visits exactly the rules from..upTo-1: up to the first that stops it, or all there are. */
  ghost predicate EndsBefore<S, D>(w: World<S, D>, rules: map<int, Script<D>>, call: Call, from: int, m: Monster<S>,
                                   upTo: int)
  {
    || (Reaches(w, rules, call, from, m, upTo) && upTo !in rules)
    || (from < upTo && Reaches(w, rules, call, from, m, upTo - 1) && upTo - 1 in rules
        && TurnAt(w, rules, call, from, m, upTo - 1) == Stops)
  }

  /** There is one such end. */
  lemma EndIsUnique<S, D>(w: World<S, D>, rules: map<int, Script<D>>, call: Call, from: int, m: Monster<S>,
                          a: int, b: int)
    requires EndsBefore(w, rules, call, from, m, a) && EndsBefore(w, rules, call, from, m, b)
    ensures a == b
  {
    EndNotEarlier(w, rules, call, from, m, a, b);
    EndNotEarlier(w, rules, call, from, m, b, a);
  }

  lemma EndNotEarlier<S, D>(w: World<S, D>, rules: map<int, Script<D>>, call: Call, from: int, m: Monster<S>,
                            a: int, b: int)
    requires EndsBefore(w, rules, call, from, m, a) && EndsBefore(w, rules, call, from, m, b)
    ensures a >= b
  {
  }

  /** Every rule the walk comes to settles, and not on a missing action. */
  ghost predicate Sane<S, D>(w: World<S, D>, rules: map<int, Script<D>>, call: Call, from: int, m: Monster<S>) {
    forall k :: Reaches(w, rules, call, from, m, k) && k in rules ==>
      Settles(w, rules[k], call, After(w, rules, call, from, m, k))
  }

  ghost predicate Settles<S, D>(w: World<S, D>, s: Script<D>, call: Call, m: Monster<S>) {
    exists n: nat :: SettlesWell(w, s, call, m, n)
  }

  ghost predicate SettlesWell<S, D>(w: World<S, D>, s: Script<D>, call: Call, m: Monster<S>, n: nat) {
    SettlesAfter(w, s, call, m, n) && TurnOf(w, s, call, Stuck(w, s, call, m, n)).1 != Faults
  }

  lemma SettlesIff<S, D>(w: World<S, D>, s: Script<D>, call: Call, m: Monster<S>)
    ensures Settles(w, s, call, m) <==> Visit(w, s, call, m).1 in {Advances, Stops}
  {
    if n: nat :| SettlesWell(w, s, call, m, n) {
      VisitIs(w, s, call, m, n);
    }
    if Visit(w, s, call, m).1 in {Advances, Stops} {
      var n: nat :| SettlesAfter(w, s, call, m, n);
      VisitIs(w, s, call, m, n);
      assert SettlesWell(w, s, call, m, n);
    }
  }

  /** So it is, whatever conditions and actions do, when every hoisted opcode is in range. */
  lemma RunnableIsSane<S, D>(w: World<S, D>, rules: map<int, Script<D>>, call: Call, from: int, m: Monster<S>)
    requires forall k :: k in rules ==> Runnable(rules[k])
    ensures Sane(w, rules, call, from, m)
  {
    forall k | Reaches(w, rules, call, from, m, k) && k in rules
      ensures Settles(w, rules[k], call, After(w, rules, call, from, m, k))
    {
      assert SettlesWell(w, rules[k], call, After(w, rules, call, from, m, k), 0);
    }
  }

  /** A loader's rule file is sane exactly when no rule without actions fires in its turn. */
  lemma LoadedSaneIff<S, D>(w: World<S, D>, rules: map<int, Script<D>>, call: Call, from: int, m: Monster<S>)
    requires forall k :: k in rules ==> Loaded(rules[k])
    ensures Sane(w, rules, call, from, m) <==>
              forall k :: Reaches(w, rules, call, from, m, k) && k in rules && rules[k].actions == [] ==>
                !Fires(w, rules[k], call, After(w, rules, call, from, m, k))
  {
    forall k | k in rules
      ensures Settles(w, rules[k], call, After(w, rules, call, from, m, k)) <==>
                (rules[k].actions == [] ==> !Fires(w, rules[k], call, After(w, rules, call, from, m, k)))
    {
      LoadedSettlesIff(w, rules[k], call, After(w, rules, call, from, m, k));
    }
  }

  lemma LoadedSettlesIff<S, D>(w: World<S, D>, s: Script<D>, call: Call, m: Monster<S>)
    requires Loaded(s)
    ensures Settles(w, s, call, m) <==> (s.actions == [] ==> !Fires(w, s, call, m))
  {
    SettlesIff(w, s, call, m);
    SettlesAtOnce(w, s, call, m);
    TurnEndsIff(w, s, call, m);
    LoadedRunnableIff(s);
  }

  /** One more turn at rule k, where the walk has repeated j turns. */
  lemma OneMoreTurn<S, D>(w: World<S, D>, rules: map<int, Script<D>>, call: Call, from: int, m: Monster<S>, k: int,
                          n: nat, j: nat, next: Monster<S>, turn: Turn)
    requires Reaches(w, rules, call, from, m, k) && k in rules
    requires SettlesWell(w, rules[k], call, After(w, rules, call, from, m, k), n)
    requires Repeated(w, rules[k], call, After(w, rules, call, from, m, k), j)
    requires (next, turn) == TurnOf(w, rules[k], call, Stuck(w, rules[k], call, After(w, rules, call, from, m, k), j))
    ensures j <= n && (turn == Repeats <==> j < n)
    ensures match turn
            case Advances => Reaches(w, rules, call, from, m, k + 1) && next == After(w, rules, call, from, m, k + 1)
            case Stops => EndsBefore(w, rules, call, from, m, k + 1) && next == After(w, rules, call, from, m, k + 1)
            case Repeats =>
              && Repeated(w, rules[k], call, After(w, rules, call, from, m, k), j + 1)
              && next == Stuck(w, rules[k], call, After(w, rules, call, from, m, k), j + 1)
            case Faults => false
  {
    var here := After(w, rules, call, from, m, k);
    VisitIs(w, rules[k], call, here, n);
    if j == n {
      assert Present(rules, from, k + 1);
      assert TurnAt(w, rules, call, from, m, k) == turn;
    }
  }

  /** The keys the walk may still visit. */
  ghost function KeysFrom<D>(rules: map<int, Script<D>>, key: int): set<int> {
    set k | k in rules && k >= key
  }

  lemma FewerKeys<D>(rules: map<int, Script<D>>, key: int)
    requires key in rules
    ensures KeysFrom(rules, key + 1) < KeysFrom(rules, key)
  {
    assert key in KeysFrom(rules, key) && key !in KeysFrom(rules, key + 1);
  }

  /** The loop at a key: j turns at its rule have repeated and n will, or there is no such rule. */
  ghost predicate Ready<S, D>(w: World<S, D>, rules: map<int, Script<D>>, call: Call, from: int, m: Monster<S>, k: int,
                              h: Monster<S>, n: nat, j: nat)
  {
    && Reaches(w, rules, call, from, m, k) && j <= n
    && if k in rules then
         && SettlesWell(w, rules[k], call, After(w, rules, call, from, m, k), n)
         && Waiting(w, rules, call, from, m, k, h, j)
       else h == After(w, rules, call, from, m, k)
  }

  lemma Arrive<S, D>(w: World<S, D>, rules: map<int, Script<D>>, call: Call, from: int, m: Monster<S>, k: int)
    returns (n: nat)
    requires Reaches(w, rules, call, from, m, k) && Sane(w, rules, call, from, m)
    ensures Ready(w, rules, call, from, m, k, After(w, rules, call, from, m, k), n, 0)
  {
    n := 0;
    if k in rules {
      n :| SettlesWell(w, rules[k], call, After(w, rules, call, from, m, k), n);
    }
  }

  // ------------------------------------------------ the loop, turn by turn

  /** Where the loop stands: about to look at a key, through, or reading a missing action. */
  datatype Place<S> = At(key: int, m: Monster<S>) | Ended(key: int, m: Monster<S>) | Broken

  function Step<S, D>(w: World<S, D>, rules: map<int, Script<D>>, call: Call, p: Place<S>): Place<S> {
    if !p.At? then p
    else if p.key !in rules then Ended(p.key, p.m)
    else
      var (m, turn) := TurnOf(w, rules[p.key], call, p.m);
      match turn
      case Advances => At(p.key + 1, m)
      case Stops => Ended(p.key + 1, m)
      case Repeats => At(p.key, m)
      case Faults => Broken
  }

  function Steps<S, D>(w: World<S, D>, rules: map<int, Script<D>>, call: Call, p: Place<S>, n: nat): Place<S> {
    if n == 0 then p else Step(w, rules, call, Steps(w, rules, call, p, n - 1))
  }

  /** Some number of turns leads from the first key to this place. */
  ghost predicate GetsTo<S, D>(w: World<S, D>, rules: map<int, Script<D>>, call: Call, from: int, m: Monster<S>,
                               p: Place<S>)
  {
    exists n: nat :: Steps(w, rules, call, At(from, m), n) == p
  }

  lemma GetsOn<S, D>(w: World<S, D>, rules: map<int, Script<D>>, call: Call, from: int, m: Monster<S>, p: Place<S>)
    requires GetsTo(w, rules, call, from, m, p)
    ensures GetsTo(w, rules, call, from, m, Step(w, rules, call, p))
  {
    var n: nat :| Steps(w, rules, call, At(from, m), n) == p;
    assert Steps(w, rules, call, At(from, m), n + 1) == Step(w, rules, call, p);
  }

  lemma {:induction false} GetsStuck<S, D>(w: World<S, D>, rules: map<int, Script<D>>, call: Call, from: int,
                                           m: Monster<S>, k: int, h: Monster<S>, n: nat)
    requires GetsTo(w, rules, call, from, m, At(k, h)) && k in rules && Repeated(w, rules[k], call, h, n)
    ensures GetsTo(w, rules, call, from, m, At(k, Stuck(w, rules[k], call, h, n)))
  {
    if n > 0 {
      GetsStuck(w, rules, call, from, m, k, h, n - 1);
      GetsOn(w, rules, call, from, m, At(k, Stuck(w, rules[k], call, h, n - 1)));
    }
  }

  /** From any key it gets to, a sane walk ends, in the monster its visits lead to. */
  lemma {:induction false} EndsFrom<S, D>(w: World<S, D>, rules: map<int, Script<D>>, call: Call, from: int,
                                          m: Monster<S>, k: int) returns (end: int)
    requires Reaches(w, rules, call, from, m, k) && Sane(w, rules, call, from, m)
    requires GetsTo(w, rules, call, from, m, At(k, After(w, rules, call, from, m, k)))
    ensures GetsTo(w, rules, call, from, m, Ended(end, After(w, rules, call, from, m, end)))
    decreases KeysFrom(rules, k)
  {
    var here := After(w, rules, call, from, m, k);
    if k !in rules {
      GetsOn(w, rules, call, from, m, At(k, here));
      return k;
    }
    FewerKeys(rules, k);
    var n: nat :| SettlesWell(w, rules[k], call, here, n);
    var last := Stuck(w, rules[k], call, here, n);
    GetsStuck(w, rules, call, from, m, k, here, n);
    GetsOn(w, rules, call, from, m, At(k, last));
    var (next, turn) := TurnOf(w, rules[k], call, last);
    OneMoreTurn(w, rules, call, from, m, k, n, n, next, turn);
    end := k + 1;
    if turn == Advances {
      end := EndsFrom(w, rules, call, from, m, k + 1);
    }
  }

  /** What the loop's place says about the visits. */
  ghost predicate InStep<S, D>(w: World<S, D>, rules: map<int, Script<D>>, call: Call, from: int, m: Monster<S>,
                               p: Place<S>)
  {
    match p
    case Ended(end, h) => EndsBefore(w, rules, call, from, m, end) && h == After(w, rules, call, from, m, end)
    case Broken => true
    case At(k, h) =>
      && Reaches(w, rules, call, from, m, k)
      && if k in rules then exists j: nat :: Waiting(w, rules, call, from, m, k, h, j)
         else h == After(w, rules, call, from, m, k)
  }

  ghost predicate Waiting<S, D>(w: World<S, D>, rules: map<int, Script<D>>, call: Call, from: int, m: Monster<S>,
                                k: int, h: Monster<S>, j: nat)
    requires k in rules
  {
    var here := After(w, rules, call, from, m, k);
    Repeated(w, rules[k], call, here, j) && h == Stuck(w, rules[k], call, here, j)
  }

  lemma ArrivalIsInStep<S, D>(w: World<S, D>, rules: map<int, Script<D>>, call: Call, from: int, m: Monster<S>, k: int)
    requires Reaches(w, rules, call, from, m, k)
    ensures InStep(w, rules, call, from, m, At(k, After(w, rules, call, from, m, k)))
  {
    if k in rules {
      assert Waiting(w, rules, call, from, m, k, After(w, rules, call, from, m, k), 0);
    }
  }

  lemma LeavingIsInStep<S, D>(w: World<S, D>, rules: map<int, Script<D>>, call: Call, from: int, m: Monster<S>,
                              k: int, j: nat, next: Monster<S>, turn: Turn)
    requires Reaches(w, rules, call, from, m, k) && k in rules && (turn == Advances || turn == Stops)
    requires Repeated(w, rules[k], call, After(w, rules, call, from, m, k), j)
    requires (next, turn) == TurnOf(w, rules[k], call, Stuck(w, rules[k], call, After(w, rules, call, from, m, k), j))
    ensures turn == Advances ==> InStep(w, rules, call, from, m, At(k + 1, next))
    ensures turn == Stops ==> InStep(w, rules, call, from, m, Ended(k + 1, next))
  {
    assert SettlesWell(w, rules[k], call, After(w, rules, call, from, m, k), j);
    OneMoreTurn(w, rules, call, from, m, k, j, j, next, turn);
    if turn == Advances {
      ArrivalIsInStep(w, rules, call, from, m, k + 1);
    }
  }

  lemma RepeatingIsInStep<S, D>(w: World<S, D>, rules: map<int, Script<D>>, call: Call, from: int, m: Monster<S>,
                                k: int, h: Monster<S>, j: nat)
    requires Reaches(w, rules, call, from, m, k) && k in rules && Waiting(w, rules, call, from, m, k, h, j)
    requires TurnOf(w, rules[k], call, h).1 == Repeats
    ensures InStep(w, rules, call, from, m, At(k, TurnOf(w, rules[k], call, h).0))
  {
    assert Waiting(w, rules, call, from, m, k, TurnOf(w, rules[k], call, h).0, j + 1);
  }

  lemma TurnStaysInStep<S, D>(w: World<S, D>, rules: map<int, Script<D>>, call: Call, from: int, m: Monster<S>,
                              k: int, h: Monster<S>, j: nat)
    requires Reaches(w, rules, call, from, m, k) && k in rules && Waiting(w, rules, call, from, m, k, h, j)
    ensures InStep(w, rules, call, from, m, Step(w, rules, call, At(k, h)))
  {
    var (next, turn) := TurnOf(w, rules[k], call, h);
    if turn == Repeats {
      RepeatingIsInStep(w, rules, call, from, m, k, h, j);
    } else if turn != Faults {
      LeavingIsInStep(w, rules, call, from, m, k, j, next, turn);
    }
  }

  lemma StepStaysInStep<S, D>(w: World<S, D>, rules: map<int, Script<D>>, call: Call, from: int, m: Monster<S>,
                              p: Place<S>)
    requires InStep(w, rules, call, from, m, p)
    ensures InStep(w, rules, call, from, m, Step(w, rules, call, p))
  {
    if p.At? && p.key in rules {
      var j: nat :| Waiting(w, rules, call, from, m, p.key, p.m, j);
      TurnStaysInStep(w, rules, call, from, m, p.key, p.m, j);
    }
  }

  lemma {:induction false} StepsStayInStep<S, D>(w: World<S, D>, rules: map<int, Script<D>>, call: Call, from: int,
                                                 m: Monster<S>, n: nat)
    ensures InStep(w, rules, call, from, m, Steps(w, rules, call, At(from, m), n))
  {
    if n == 0 {
      ArrivalIsInStep(w, rules, call, from, m, from);
    } else {
      StepsStayInStep(w, rules, call, from, m, n - 1);
      StepStaysInStep(w, rules, call, from, m, Steps(w, rules, call, At(from, m), n - 1));
    }
  }

  /** Whatever rule a walk that ends comes to has settled. */
  lemma ReachedSettles<S, D>(w: World<S, D>, rules: map<int, Script<D>>, call: Call, from: int, m: Monster<S>,
                             end: int, k: int)
    requires EndsBefore(w, rules, call, from, m, end) && Reaches(w, rules, call, from, m, k) && k in rules
    ensures Settles(w, rules[k], call, After(w, rules, call, from, m, k))
  {
    assert Present(rules, from, k + 1);
    if k < end {
      assert TurnAt(w, rules, call, from, m, k) in {Advances, Stops};
    }
    SettlesIff(w, rules[k], call, After(w, rules, call, from, m, k));
  }

  lemma EndedIsSane<S, D>(w: World<S, D>, rules: map<int, Script<D>>, call: Call, from: int, m: Monster<S>, end: int)
    requires EndsBefore(w, rules, call, from, m, end)
    ensures Sane(w, rules, call, from, m)
  {
    forall k | Reaches(w, rules, call, from, m, k) && k in rules
      ensures Settles(w, rules[k], call, After(w, rules, call, from, m, k))
    {
      ReachedSettles(w, rules, call, from, m, end, k);
    }
  }

  /**
   * The loop, turn by turn, comes to an end exactly when at every key it reaches some turn neither repeats nor reads a
   * missing action; and then it has done what the visits do.
   */
  lemma LoopEndsIffSane<S(!new), D(!new)>(w: World<S, D>, rules: map<int, Script<D>>, call: Call, from: int,
                                          m: Monster<S>)
    ensures (exists n: nat :: Steps(w, rules, call, At(from, m), n).Ended?) <==> Sane(w, rules, call, from, m)
    ensures forall n: nat ::
              var p := Steps(w, rules, call, At(from, m), n);
              p.Ended? ==> EndsBefore(w, rules, call, from, m, p.key) && p.m == After(w, rules, call, from, m, p.key)
  {
    forall n: nat
      ensures InStep(w, rules, call, from, m, Steps(w, rules, call, At(from, m), n))
    {
      StepsStayInStep(w, rules, call, from, m, n);
    }
    forall n: nat | Steps(w, rules, call, At(from, m), n).Ended?
      ensures Sane(w, rules, call, from, m)
    {
      EndedIsSane(w, rules, call, from, m, Steps(w, rules, call, At(from, m), n).key);
    }
    if Sane(w, rules, call, from, m) {
      assert Steps(w, rules, call, At(from, m), 0) == At(from, m);
      var end := EndsFrom(w, rules, call, from, m, from);
      var n: nat :| Steps(w, rules, call, At(from, m), n) == Ended(end, After(w, rules, call, from, m, end));
      assert Steps(w, rules, call, At(from, m), n).Ended?;
    }
  }

  // ------------------------------------------------ a rule that repeats once

  /** Conditions that succeed only while the monster is fresh, and spoil it. */
  function Fickle(): World<bool, int> {
    World(
      (op: int, m: Monster<bool>, d: int, ai: int) => (m.(rest := false), if m.rest then AI_SUCCESS else AI_FAILURE),
      (op: int, m: Monster<bool>, d: int, ai: int) => (m, AI_SUCCESS))
  }

  const FICKLE_RULE: Script<int> := Script([Datum(0, 0)], [Datum(39, 0), Datum(QSD_ACTION, 0)], 0, 1)

  /** The rule's first turn repeats, its second moves on, and the loop ends. */
  lemma FickleRuleSettles(call: Call, key: int, m: Monster<bool>)
    requires m.rest
    ensures TurnOf(Fickle(), FICKLE_RULE, call, m).1 == Repeats
    ensures Sane(Fickle(), map[key := FICKLE_RULE], call, key, m)
    ensures EndsBefore(Fickle(), map[key := FICKLE_RULE], call, key, m, key + 1)
  {
    var w, s := Fickle(), FICKLE_RULE;
    FickleTurns(call, m);
    var spoilt := m.(rest := false);
    FickleTurns(call, spoilt);
    assert Stuck(w, s, call, m, 0) == m && Stuck(w, s, call, m, 1) == spoilt;
    assert SettlesAfter(w, s, call, m, 1);
    VisitIs(w, s, call, m, 1);
    var rules := map[key := s];
    assert TurnAt(w, rules, call, key, m, key) == Advances;
    EndedIsSane(w, rules, call, key, m, key + 1);
  }

  lemma FickleTurns(call: Call, m: Monster<bool>)
    ensures TurnOf(Fickle(), FICKLE_RULE, call, m) == (m.(rest := false), if m.rest then Repeats else Advances)
  {
    var w, s := Fickle(), FICKLE_RULE;
    assert CondState(w, s.conditions, call, m, 0) == m;
    assert Passes(w, s.conditions, call, m, 0) <==> m.rest;
    assert CondState(w, s.conditions, call, m, 1) == m.(rest := false);
  }

  // ------------------------------------------------ the smallest rules

  /** A rule with one condition, which answers r: 7 is yes and 8 is no, and an idle monster is let off condition 20. */
  lemma OneConditionFires<S, D>(w: World<S, D>, s: Script<D>, call: Call, m: Monster<S>, r: int)
    requires |s.conditions| == 1
    requires r == w.cond(s.conditions[0].opcode, m, s.conditions[0].data, call.ai).1
    ensures
      var op := s.conditions[0].opcode;
      Fires(w, s, call, m) <==> op < 0 || op > 32 || r == 7 || (r == 8 && op == 20 && call.kind == 1)
  {
    var c := s.conditions[0];
    assert CondState(w, s.conditions, call, m, 0) == m;
    assert Passes(w, s.conditions, call, m, 0) <==> !Evaluates(c) || Result(w, c, call, m) != AI_FAILURE;
    assert Verdict(w, s.conditions, call, m, 0) == AI_SUCCESS;
    assert Verdict(w, s.conditions, call, m, 1) == if Evaluates(c) then Result(w, c, call, m) else AI_SUCCESS;
    assert Fires(w, s, call, m) <==>
             Passes(w, s.conditions, call, m, 0) && Verdict(w, s.conditions, call, m, 1) == AI_SUCCESS;
  }

  /**
   * A loaded rule without conditions and with one action: it runs if its opcode is one of 0..38, and stops the walk if
   * it answers 7, or is passed over, except in AIs 1205, 2048 and 2049.
   */
  lemma OneActionTurn<S, D>(w: World<S, D>, s: Script<D>, call: Call, m: Monster<S>)
    requires Loaded(s) && s.conditions == [] && |s.actions| == 1
    ensures
      var a := s.actions[0];
      var ran := w.act(a.opcode, m, a.data, call.ai);
      var goesOn := call.ai == 1205 || call.ai == 2048 || call.ai == 2049;
      TurnOf(w, s, call, m)
      == if 0 <= a.opcode <= 38 then (ran.0, if ran.1 == 7 && !goesOn then Stops else Advances)
         else (m, if goesOn then Advances else Stops)
  {
    OneActionOrder(s);
    assert Judged(w, s, call, m) == m && Fires(w, s, call, m);
    assert [0][..0] == [];
    assert Acted(w, s, call, m) == ActAll(w, s, call, Order(s), m);
    assert ActAll(w, s, call, [], m) == (m, AI_SUCCESS);
  }

  lemma OneActionOrder<D>(s: Script<D>)
    requires Loaded(s) && |s.actions| == 1
    ensures !Hoists(s) && Order(s) == if Executes(s.actions[0]) then [0] else []
  {
    assert LastWith(s.actions, LTB_ACTION) == -1 || LastWith(s.actions, QSD_ACTION) == -1;
    assert InOrder(s, 0) == [];
    assert InOrder(s, 1) == if Executes(s.actions[0]) then [0] else [];
  }

  /** With a trigger, action 30, in the rule the last LTB, action 28, goes first; without one all keep their places. */
  lemma LtbGoesFirst<D>(s: Script<D>, before: nat)
    requires Loaded(s) && before < |s.actions| && s.actions[before].opcode == 28
    requires forall i :: before < i < |s.actions| ==> s.actions[i].opcode != 28
    ensures
      if exists i :: 0 <= i < |s.actions| && s.actions[i].opcode == 30 then
        Reads(s) && Order(s)[..1] == [before]
      else Reads(s) && forall a, b :: 0 <= a < b < |Order(s)| ==> Order(s)[a] < Order(s)[b]
  {
    LastWithIs(s.actions, LTB_ACTION, before);
    if !exists i :: 0 <= i < |s.actions| && s.actions[i].opcode == 30 {
      LastWithIs(s.actions, QSD_ACTION, -1);
      InOrderAscends(s, |s.actions|);
    }
  }

  // ------------------------------------------------ where a walk starts

  /** Rules of one AI and event have consecutive keys from here. */
  function FirstKey(call: Call): int {
    call.ai * 0x10000 + call.kind * 0x100
  }

  /** The timers and search results DoAi resets before it looks at any rule. */
  function Woken<S>(m: Monster<S>, kind: int, now: int): Monster<S> {
    var m' := m.(nearChar := 0, findChar := 0);
    if kind == 0 || kind == 1 || kind == 4 || kind == 5 then m'.(nextAiAttacked := now) else m'
  }
}
