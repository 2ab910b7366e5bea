/** The monster object: the rule loop of CMonster::DoAi with the state it overwrites. */
module Monsters {
  import opened AipFiles
  import opened MonsterAi

  class CMonster<S, D> {
    var state: Monster<S>
    var spAip: int

    constructor (state: Monster<S>, spAip: int)
      ensures this.state == state && this.spAip == spAip
    {
      this.state, this.spAip := state, spAip;
    }

    /** The condition loop. */
    method CheckConditions(w: World<S, D>, s: Script<D>, call: Call) returns (success: int)
      modifies this`state
      ensures state == Judged(w, s, call, old(state))
      ensures success == AI_SUCCESS <==> Fires(w, s, call, old(state))
    {
      success := AI_SUCCESS;
      ghost var m, cs := state, s.conditions;
      var i := 0;
      while i < |s.conditions|
        invariant i <= |cs| && success == Verdict(w, cs, call, m, i)
        invariant state == CondState(w, cs, call, m, i)
        invariant forall k :: 0 <= k < i ==> Passes(w, cs, call, m, k)
        invariant FirstFailure(w, cs, call, m, 0) == FirstFailure(w, cs, call, m, i)
      {
        var command := s.conditions[i].opcode;
        if command > LAST_CONDITION || command < 0 {
          i := i + 1;
          continue;
        }
        var (after, answer) := w.cond(command, state, s.conditions[i].data, call.ai);
        state, success := after, answer;
        if command == CHECK_TARGET_LEVEL && call.kind == IDLE && success == AI_FAILURE {
          success := AI_SUCCESS;
        }
        if success == AI_FAILURE {
          return;
        }
        i := i + 1;
      }
    }

    method Act(w: World<S, D>, a: Datum<D>, call: Call) returns (success: int)
      modifies this`state
      ensures (state, success) == w.act(a.opcode, old(state), a.data, call.ai)
    {
      var (after, answer) := w.act(a.opcode, state, a.data, call.ai);
      state, success := after, answer;
    }

    /** The hoisted action and the action loop. */
    method RunActions(w: World<S, D>, s: Script<D>, call: Call) returns (success: int)
      requires Reads(s)
      modifies this`state
      ensures (state, success) == Acted(w, s, call, old(state))
    {
      success := AI_SUCCESS;
      ghost var m, acts := state, [];
      if Hoists(s) {
        success := Act(w, s.actions[s.offsetLtb], call);
        ActOneMore(w, s, call, acts, m, s.offsetLtb);
        acts := [s.offsetLtb];
      }
      ghost var head := acts;
      for i := 0 to |s.actions|
        invariant acts == head + InOrder(s, i) && Indices(s, acts)
        invariant (state, success) == ActAll(w, s, call, acts, m)
      {
        if Hoists(s) && i == s.offsetLtb {
          continue;
        }
        var command := s.actions[i].opcode;
        if command > LAST_ACTION || command < 0 {
          continue;
        }
        success := Act(w, s.actions[i], call);
        ActOneMore(w, s, call, acts, m, i);
        acts := acts + [i];
      }
    }

    /** One turn of the rule loop. */
    method RunRule(w: World<S, D>, s: Script<D>, call: Call) returns (turn: Turn)
      modifies this`state
      ensures (state, turn) == TurnOf(w, s, call, old(state))
    {
      var success := CheckConditions(w, s, call);
      if success == AI_SUCCESS {
        if Hoists(s) {
          if !(0 <= s.offsetLtb < |s.actions|) {
            return Faults;
          }
          var command := s.actions[s.offsetLtb].opcode;
          if command > LAST_ACTION || command < 0 {
            return Repeats;
          }
        }
        success := RunActions(w, s, call);
        if success == AI_SUCCESS {
          if call.ai != 1205 && call.ai != 2048 && call.ai != 2049 {
            return Stops;
          }
        }
      }
      return Advances;
    }

    /** One turn of the rule with the current key, and the next key; n and j count its turns to come and those gone. */
    method RunNext(w: World<S, D>, rules: map<int, Script<D>>, call: Call, ghost from: int, ghost m: Monster<S>,
                   aiIndex: int, ghost n: nat, ghost j: nat)
      returns (turn: Turn, next: int, ghost n': nat, ghost j': nat)
      requires aiIndex in rules && Sane(w, rules, call, from, m) && Ready(w, rules, call, from, m, aiIndex, state, n, j)
      modifies this`state
      ensures next == aiIndex + 1 || (next == aiIndex && turn != Stops && n' == n && j' == j + 1)
      ensures turn != Stops ==> Ready(w, rules, call, from, m, next, state, n', j')
      ensures turn == Stops ==>
                EndsBefore(w, rules, call, from, m, next) && state == After(w, rules, call, from, m, next)
    {
      turn := RunRule(w, rules[aiIndex], call);
      OneMoreTurn(w, rules, call, from, m, aiIndex, n, j, state, turn);
      next, n', j' := aiIndex + 1, 0, 0;
      if turn == Repeats {
        next, n', j' := aiIndex, n, j + 1;
      } else if turn == Advances {
        n' := Arrive(w, rules, call, from, m, aiIndex + 1);
      }
    }

    /** The rule loop: from a key up, until a rule fires and its last action succeeds. */
    method Walk(w: World<S, D>, rules: map<int, Script<D>>, call: Call, from: int) returns (ghost end: int)
      requires Sane(w, rules, call, from, state)
      modifies this`state
      ensures EndsBefore(w, rules, call, from, old(state), end)
      ensures state == After(w, rules, call, from, old(state), end)
    {
      ghost var m, j := state, 0;
      ghost var n := Arrive(w, rules, call, from, m, from);
      var aiIndex := from;
      while aiIndex in rules
        invariant Ready(w, rules, call, from, m, aiIndex, state, n, j)
        decreases KeysFrom(rules, aiIndex), n - j
      {
        FewerKeys(rules, aiIndex);
        var turn;
        turn, aiIndex, n, j := RunNext(w, rules, call, from, m, aiIndex, n, j);
        if turn == Stops {
          return aiIndex;
        }
      }
      return aiIndex;
    }

    /**
     * DoAi: the event's timers are reset, the rules of the monster's AI and event walked, the search results dropped.
     * It asks of the rules only what any end of the loop takes. Of rules filed by the loader it visits exactly rules
     * 0, 1, ... of the event kind of the monster's special AI, or of its own if it has none, up to the first that stops
     * it; files says which rules were filed.
     */
    method DoAi(w: World<S, D>, rules: map<int, Script<D>>, aiOrg: int, kind: int, now: int, ghost files: Files<D>)
      returns (ghost end: int, ghost visited: nat)
      requires
        var call := Call(if spAip != 0 then spAip else aiOrg, kind);
        Sane(w, rules, call, FirstKey(call), Woken(state, kind, now))
      modifies this`state
      ensures
        var call := Call(if spAip != 0 then spAip else aiOrg, kind);
        var m := Woken(old(state), kind, now);
        && EndsBefore(w, rules, call, FirstKey(call), m, end)
        && state == After(w, rules, call, FirstKey(call), m, end).(refNpc := 0, nearChar := 0, findChar := 0)
      ensures
        var ai := if spAip != 0 then spAip else aiOrg;
        var list := if ai in files && 0 <= kind < |files[ai]| then files[ai][kind] else [];
        var timed := kind == 0 || kind == 1 || kind == 4 || kind == 5;
        var m := old(state).(nearChar := 0, findChar := 0,
                             nextAiAttacked := if timed then now else old(state).nextAiAttacked);
        Filed(rules, files) && Fit(files) && 0 <= kind < 0x100 && |list| < 0x100 ==>
          EndsAfter(w, list, Call(ai, kind), m, visited)
          && state
             == AfterRules(w, list, Call(ai, kind), m, visited).(refNpc := 0, nearChar := 0, findChar := 0)
    {
      var call := Call(if spAip != 0 then spAip else aiOrg, kind);
      state := Woken(state, kind, now);
      ghost var m := state;
      end := Walk(w, rules, call, FirstKey(call));
      visited := VisitedOf(w, rules, files, call, m, end);
      state := state.(refNpc := 0, nearChar := 0, findChar := 0);
    }
  }

  /** A walk from the first key, over rules filed by the loader: those of one event of one AI, in order. */
  lemma VisitedOf<S, D>(w: World<S, D>, rules: map<int, Script<D>>, files: Files<D>, call: Call, m: Monster<S>,
                        end: int) returns (n: nat)
    requires EndsBefore(w, rules, call, FirstKey(call), m, end)
    ensures Ordered(rules, files, call.ai, call.kind) ==> EndsAfter(w, RulesOf(files, call.ai, call.kind), call, m, n)
    ensures
      Ordered(rules, files, call.ai, call.kind) ==>
        After(w, rules, call, FirstKey(call), m, end) == AfterRules(w, RulesOf(files, call.ai, call.kind), call, m, n)
  {
    n := 0;
    if Ordered(rules, files, call.ai, call.kind) {
      n := WalkOfEvent(w, rules, files, call, FirstKey(call), m, end);
    }
  }
}
