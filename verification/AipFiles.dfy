/** The rules as the AIP loader files them, and what a walk over them comes to. */
module AipFiles {
  import opened MonsterAi

  /** The rules of every AI number, event by event. */
  type Files<D> = map<int, seq<seq<Script<D>>>>

  ghost predicate InBlocks<D>(blocks: seq<seq<Script<D>>>, i: int, j: int) {
    0 <= i < |blocks| && 0 <= j < |blocks[i]|
  }

  ghost predicate InFiles<D>(files: Files<D>, n: int, i: int, j: int) {
    n in files && InBlocks(files[n], i, j)
  }

  /** No file has more than 256 events, no event more than 256 rules. */
  ghost predicate Fit<D>(files: Files<D>) {
    forall n, i, j :: InFiles(files, n, i, j) ==> i < 0x100 && j < 0x100
  }

  ghost predicate IsId<D>(files: Files<D>, k: int) {
    exists n, i, j :: InFiles(files, n, i, j) && k == AipId(n, i, j)
  }

  /** The id of rule j of event i of AI n. */
  function AipId(n: int, i: int, j: int): int {
    n * 0x10000 + i * 0x100 + j
  }

  /** Every rule is filed under its id, and nothing else is. */
  ghost predicate Filed<D>(rules: map<int, Script<D>>, files: Files<D>) {
    && (forall n, i, j :: InFiles(files, n, i, j) ==>
          AipId(n, i, j) in rules && rules[AipId(n, i, j)] == files[n][i][j])
    && forall k :: k in rules ==> IsId(files, k)
  }

  lemma KeysTell(n: int, i: int, j: int, n': int, i': int, j': int)
    requires 0 <= i < 0x100 && 0 <= j < 0x100 && 0 <= i' < 0x100 && 0 <= j' < 0x100
    requires AipId(n, i, j) == AipId(n', i', j')
    ensures n == n' && i == i' && j == j'
  {
  }

  // ------------------------------------------------ loading

  /** A key of this file under which some rule of it goes. */
  ghost predicate KeyOf<D>(index: int, blocks: seq<seq<Script<D>>>, k: int, s: Script<D>) {
    exists i, j :: InBlocks(blocks, i, j) && k == AipId(index, i, j) && s == blocks[i][j]
  }

  class CWorldServer<D> {
    var aipListMap: map<int, Script<D>>

    constructor ()
      ensures aipListMap == map[]
    {
      aipListMap := map[];
    }

    /** One rule: an id that is taken keeps the rule it has. */
    method File(aipId: int, script: Script<D>)
      modifies this
      ensures aipListMap == if aipId in old(aipListMap) then old(aipListMap) else old(aipListMap)[aipId := script]
    {
      if aipId !in aipListMap {
        aipListMap := aipListMap[aipId := script];
      }
    }

    /** The loops over the events and rules of one file; files says which rules have been filed so far. */
    method LoadAip(index: int, blocks: seq<seq<Script<D>>>, ghost files: Files<D>)
      modifies this
      ensures forall k :: k in old(aipListMap) ==> k in aipListMap && aipListMap[k] == old(aipListMap)[k]
      ensures forall k :: k in aipListMap && k !in old(aipListMap) ==> KeyOf(index, blocks, k, aipListMap[k])
      ensures forall i, j :: InBlocks(blocks, i, j) ==> AipId(index, i, j) in aipListMap
      ensures old(Filed(aipListMap, files)) && index !in files && Fit(files[index := blocks]) ==>
                Filed(aipListMap, files[index := blocks])
    {
      ghost var was := aipListMap;
      for i := 0 to |blocks|
        invariant forall k :: k in old(aipListMap) ==> k in aipListMap && aipListMap[k] == old(aipListMap)[k]
        invariant forall k :: k in aipListMap && k !in old(aipListMap) ==> KeyOf(index, blocks, k, aipListMap[k])
        invariant forall i', j' :: InBlocks(blocks, i', j') && i' < i ==> AipId(index, i', j') in aipListMap
      {
        for j := 0 to |blocks[i]|
          invariant forall k :: k in old(aipListMap) ==> k in aipListMap && aipListMap[k] == old(aipListMap)[k]
          invariant forall k :: k in aipListMap && k !in old(aipListMap) ==> KeyOf(index, blocks, k, aipListMap[k])
          invariant forall i', j' :: InBlocks(blocks, i', j') && (i' < i || (i' == i && j' < j)) ==>
            AipId(index, i', j') in aipListMap
        {
          assert InBlocks(blocks, i, j);
          File(AipId(index, i, j), blocks[i][j]);
        }
      }
      if Filed(was, files) && index !in files && Fit(files[index := blocks]) {
        LoadingFiles(was, aipListMap, files, index, blocks);
      }
    }
  }

  /** Loading the file of a new AI number files its rules, and leaves the others filed. */
  lemma LoadingFiles<D>(rules: map<int, Script<D>>, rules': map<int, Script<D>>, files: Files<D>, index: int,
                        blocks: seq<seq<Script<D>>>)
    requires Filed(rules, files) && index !in files && Fit(files[index := blocks])
    requires forall k :: k in rules ==> k in rules' && rules'[k] == rules[k]
    requires forall k :: k in rules' && k !in rules ==> KeyOf(index, blocks, k, rules'[k])
    requires forall i, j :: InBlocks(blocks, i, j) ==> AipId(index, i, j) in rules'
    ensures Filed(rules', files[index := blocks])
  {
    var all := files[index := blocks];
    forall n, i, j | InFiles(all, n, i, j)
      ensures AipId(n, i, j) in rules' && rules'[AipId(n, i, j)] == all[n][i][j]
    {
      if n == index {
        NewKey(rules, rules', files, index, blocks, i, j);
      } else {
        assert InFiles(files, n, i, j);
      }
    }
    forall k | k in rules'
      ensures IsId(all, k)
    {
      if k in rules {
        OldId(files, index, blocks, k);
      } else {
        NewId(files, index, blocks, k, rules'[k]);
      }
    }
  }

  lemma OldId<D>(files: Files<D>, index: int, blocks: seq<seq<Script<D>>>, k: int)
    requires index !in files && IsId(files, k)
    ensures IsId(files[index := blocks], k)
  {
    var n, i, j :| InFiles(files, n, i, j) && k == AipId(n, i, j);
    StillInFiles(files, index, blocks, n, i, j);
  }

  lemma StillInFiles<D>(files: Files<D>, index: int, blocks: seq<seq<Script<D>>>, n: int, i: int, j: int)
    requires index !in files && InFiles(files, n, i, j)
    ensures InFiles(files[index := blocks], n, i, j)
  {
  }

  lemma NewId<D>(files: Files<D>, index: int, blocks: seq<seq<Script<D>>>, k: int, s: Script<D>)
    requires KeyOf(index, blocks, k, s)
    ensures IsId(files[index := blocks], k)
  {
    var i, j :| InBlocks(blocks, i, j) && k == AipId(index, i, j) && s == blocks[i][j];
    assert InFiles(files[index := blocks], index, i, j);
  }

  /** No rule of another AI has the id of one of this. */
  lemma NotAnOldId<D>(files: Files<D>, index: int, blocks: seq<seq<Script<D>>>, i: int, j: int)
    requires index !in files && Fit(files[index := blocks]) && InBlocks(blocks, i, j)
    ensures !IsId(files, AipId(index, i, j))
  {
    var all := files[index := blocks];
    assert InFiles(all, index, i, j);
    forall n, i', j' | InFiles(files, n, i', j')
      ensures AipId(n, i', j') != AipId(index, i, j)
    {
      assert InFiles(all, n, i', j');
      if AipId(n, i', j') == AipId(index, i, j) {
        KeysTell(n, i', j', index, i, j);
      }
    }
  }

  lemma NewKey<D>(rules: map<int, Script<D>>, rules': map<int, Script<D>>, files: Files<D>, index: int,
                  blocks: seq<seq<Script<D>>>, i: int, j: int)
    requires Filed(rules, files) && index !in files && Fit(files[index := blocks]) && InBlocks(blocks, i, j)
    requires AipId(index, i, j) in rules'
    requires forall k :: k in rules' && k !in rules ==> KeyOf(index, blocks, k, rules'[k])
    ensures rules'[AipId(index, i, j)] == blocks[i][j]
  {
    NotAnOldId(files, index, blocks, i, j);
    SameKey(files, index, blocks, i, j, rules'[AipId(index, i, j)]);
  }

  lemma SameKey<D>(files: Files<D>, index: int, blocks: seq<seq<Script<D>>>, i: int, j: int, s: Script<D>)
    requires Fit(files[index := blocks]) && InBlocks(blocks, i, j) && KeyOf(index, blocks, AipId(index, i, j), s)
    ensures s == blocks[i][j]
  {
    var all := files[index := blocks];
    assert InFiles(all, index, i, j);
    var i', j' :| InBlocks(blocks, i', j') && AipId(index, i, j) == AipId(index, i', j') && s == blocks[i'][j'];
    assert InFiles(all, index, i', j');
    KeysTell(index, i, j, index, i', j');
  }

  // ------------------------------------------------ walking a list of rules

  /** The monster after the visits to the first n rules of a list. */
  ghost function AfterRules<S, D>(w: World<S, D>, list: seq<Script<D>>, call: Call, m: Monster<S>, n: nat): Monster<S>
    requires n <= |list|
  {
    if n == 0 then m else Visit(w, list[n - 1], call, AfterRules(w, list, call, m, n - 1)).0
  }

  /** The first n rules of the list are visited in turn, and each is moved on from. */
  ghost predicate Passed<S, D>(w: World<S, D>, list: seq<Script<D>>, call: Call, m: Monster<S>, n: nat)
    requires n <= |list|
  {
    forall k :: 0 <= k < n ==> Visit(w, list[k], call, AfterRules(w, list, call, m, k)).1 == Advances
  }

  /** Rules 0..n-1 of the list are visited, up to the first that stops or to the end of the list. */
  ghost predicate EndsAfter<S, D>(w: World<S, D>, list: seq<Script<D>>, call: Call, m: Monster<S>, n: nat) {
    || (n == |list| && Passed(w, list, call, m, n))
    || (0 < n <= |list| && Passed(w, list, call, m, n - 1)
        && Visit(w, list[n - 1], call, AfterRules(w, list, call, m, n - 1)).1 == Stops)
  }

  predicate Has<D(==)>(rules: map<int, Script<D>>, k: int, s: Script<D>) {
    k in rules && rules[k] == s
  }

  lemma StoppedEnds<S, D>(w: World<S, D>, list: seq<Script<D>>, call: Call, m: Monster<S>, k: nat, n: nat)
    requires k < |list| && n == k + 1 && Passed(w, list, call, m, k)
    requires Visit(w, list[k], call, AfterRules(w, list, call, m, k)).1 == Stops
    ensures EndsAfter(w, list, call, m, n)
  {
    assert n - 1 == k;
  }

  /** The list of rules stands under consecutive keys. */
  ghost predicate Stands<D>(rules: map<int, Script<D>>, from: int, list: seq<Script<D>>) {
    && (forall t {:trigger list[t]} :: 0 <= t < |list| ==> Has(rules, from + t, list[t]))
    && from + |list| !in rules
  }

  lemma {:induction false} SameAfter<S, D>(w: World<S, D>, rules: map<int, Script<D>>, call: Call, from: int,
                                           m: Monster<S>, list: seq<Script<D>>, end: int, n: nat)
    requires Stands(rules, from, list) && end == from + n && n <= |list|
    ensures After(w, rules, call, from, m, end) == AfterRules(w, list, call, m, n)
    decreases n
  {
    if n > 0 {
      SameAfter(w, rules, call, from, m, list, end - 1, n - 1);
      assert Has(rules, from + (n - 1), list[n - 1]);
    }
  }

  lemma SameTurn<S, D>(w: World<S, D>, rules: map<int, Script<D>>, call: Call, from: int, m: Monster<S>,
                       list: seq<Script<D>>, k: int, n: nat)
    requires Stands(rules, from, list) && k == from + n && n < |list|
    ensures k in rules
    ensures TurnAt(w, rules, call, from, m, k) == Visit(w, list[n], call, AfterRules(w, list, call, m, n)).1
  {
    SameAfter(w, rules, call, from, m, list, k, n);
    assert Has(rules, from + n, list[n]);
  }

  lemma NotBeyond<S, D>(w: World<S, D>, rules: map<int, Script<D>>, call: Call, from: int, m: Monster<S>,
                        list: seq<Script<D>>, end: int)
    requires Stands(rules, from, list) && Reaches(w, rules, call, from, m, end)
    ensures from <= end <= from + |list|
  {
    assert end > from + |list| ==> from <= from + |list| < end;
  }

  lemma ReachedTurn<S, D>(w: World<S, D>, rules: map<int, Script<D>>, call: Call, from: int, m: Monster<S>,
                          end: int, k: int)
    requires Reaches(w, rules, call, from, m, end) && from <= k < end && k in rules
    ensures TurnAt(w, rules, call, from, m, k) == Advances
  {
  }

  lemma ReachedPassed<S, D>(w: World<S, D>, rules: map<int, Script<D>>, call: Call, from: int, m: Monster<S>,
                            list: seq<Script<D>>, end: int, n: nat)
    requires Stands(rules, from, list) && Reaches(w, rules, call, from, m, end) && end == from + n && n <= |list|
    ensures Passed(w, list, call, m, n)
  {
    forall k | 0 <= k < n
      ensures Visit(w, list[k], call, AfterRules(w, list, call, m, k)).1 == Advances
    {
      SameTurn(w, rules, call, from, m, list, from + k, k);
      ReachedTurn(w, rules, call, from, m, end, from + k);
    }
  }

  /** A walk that comes to the end of the rules. */
  lemma WalkThrough<S, D>(w: World<S, D>, rules: map<int, Script<D>>, call: Call, from: int, m: Monster<S>,
                          list: seq<Script<D>>, end: int)
    requires Stands(rules, from, list) && Reaches(w, rules, call, from, m, end) && end !in rules
    ensures end == from + |list| && Passed(w, list, call, m, |list|)
  {
    NotBeyond(w, rules, call, from, m, list, end);
    assert end - from < |list| ==> Has(rules, from + (end - from), list[end - from]);
    ReachedPassed(w, rules, call, from, m, list, end, |list|);
  }

  /** A walk that a rule stops. */
  lemma WalkStopped<S, D>(w: World<S, D>, rules: map<int, Script<D>>, call: Call, from: int, m: Monster<S>,
                          list: seq<Script<D>>, k: int) returns (n: nat)
    requires Stands(rules, from, list) && Reaches(w, rules, call, from, m, k) && k in rules
    requires TurnAt(w, rules, call, from, m, k) == Stops
    ensures k == from + n && n < |list| && Passed(w, list, call, m, n)
    ensures Visit(w, list[n], call, AfterRules(w, list, call, m, n)).1 == Stops
  {
    NotBeyond(w, rules, call, from, m, list, k);
    n := k - from;
    ReachedPassed(w, rules, call, from, m, list, k, n);
    SameTurn(w, rules, call, from, m, list, k, n);
  }

  lemma EndingsAre<S, D>(w: World<S, D>, rules: map<int, Script<D>>, call: Call, from: int, m: Monster<S>, end: int)
    requires EndsBefore(w, rules, call, from, m, end)
    ensures
      || (Reaches(w, rules, call, from, m, end) && end !in rules)
      || (Reaches(w, rules, call, from, m, end - 1) && end - 1 in rules
          && TurnAt(w, rules, call, from, m, end - 1) == Stops)
  {
  }

  /** A walk by keys over rules that stand in a row is the walk over their list. */
  lemma WalkOfList<S, D>(w: World<S, D>, rules: map<int, Script<D>>, call: Call, from: int, m: Monster<S>,
                         list: seq<Script<D>>, end: int) returns (n: nat)
    requires Stands(rules, from, list) && EndsBefore(w, rules, call, from, m, end)
    ensures end == from + n && n <= |list| && EndsAfter(w, list, call, m, n)
  {
    EndingsAre(w, rules, call, from, m, end);
    if end !in rules && Reaches(w, rules, call, from, m, end) {
      WalkThrough(w, rules, call, from, m, list, end);
      n := |list|;
    } else {
      var k := WalkStopped(w, rules, call, from, m, list, end - 1);
      n := k + 1;
      StoppedEnds(w, list, call, m, k, n);
    }
  }

  lemma WalkAndState<S, D>(w: World<S, D>, rules: map<int, Script<D>>, call: Call, from: int, m: Monster<S>,
                           list: seq<Script<D>>, end: int) returns (n: nat)
    requires Stands(rules, from, list) && EndsBefore(w, rules, call, from, m, end)
    ensures EndsAfter(w, list, call, m, n) && After(w, rules, call, from, m, end) == AfterRules(w, list, call, m, n)
  {
    n := WalkOfList(w, rules, call, from, m, list, end);
    SameAfter(w, rules, call, from, m, list, end, n);
  }

  /** The rules of one event of one AI, if there are any. */
  function RulesOf<D>(files: Files<D>, ai: int, kind: int): seq<Script<D>> {
    if ai in files && 0 <= kind < |files[ai]| then files[ai][kind] else []
  }

  /** Fewer than 256 of them stand in a row, with nothing behind. */
  lemma EventStands<D>(rules: map<int, Script<D>>, files: Files<D>, ai: int, kind: int)
    requires Filed(rules, files) && Fit(files) && 0 <= kind < 0x100 && |RulesOf(files, ai, kind)| < 0x100
    ensures Stands(rules, AipId(ai, kind, 0), RulesOf(files, ai, kind))
  {
    var from, list := AipId(ai, kind, 0), RulesOf(files, ai, kind);
    forall t | 0 <= t < |list|
      ensures Has(rules, from + t, list[t])
    {
      FiledAt(rules, files, ai, kind, t);
    }
    NothingBehind(files, ai, kind);
    assert from + |list| == AipId(ai, kind, |list|);
  }

  lemma FiledAt<D>(rules: map<int, Script<D>>, files: Files<D>, ai: int, kind: int, t: int)
    requires Filed(rules, files) && 0 <= t < |RulesOf(files, ai, kind)|
    ensures Has(rules, AipId(ai, kind, 0) + t, RulesOf(files, ai, kind)[t])
  {
    assert InFiles(files, ai, kind, t);
    assert AipId(ai, kind, t) == AipId(ai, kind, 0) + t;
  }

  lemma NothingBehind<D>(files: Files<D>, ai: int, kind: int)
    requires Fit(files) && 0 <= kind < 0x100 && |RulesOf(files, ai, kind)| < 0x100
    ensures !IsId(files, AipId(ai, kind, |RulesOf(files, ai, kind)|))
  {
    var t := |RulesOf(files, ai, kind)|;
    forall n, i, j | InFiles(files, n, i, j)
      ensures AipId(n, i, j) != AipId(ai, kind, t)
    {
      if AipId(n, i, j) == AipId(ai, kind, t) {
        KeysTell(n, i, j, ai, kind, t);
      }
    }
  }

  /** Rules as the loader files them, with fewer than 256 for this event. */
  ghost predicate Ordered<D>(rules: map<int, Script<D>>, files: Files<D>, ai: int, kind: int) {
    Filed(rules, files) && Fit(files) && 0 <= kind < 0x100 && |RulesOf(files, ai, kind)| < 0x100
  }

  lemma WalkOfEvent<S, D>(w: World<S, D>, rules: map<int, Script<D>>, files: Files<D>, call: Call, from: int,
                          m: Monster<S>, end: int) returns (n: nat)
    requires Ordered(rules, files, call.ai, call.kind) && from == AipId(call.ai, call.kind, 0)
    requires EndsBefore(w, rules, call, from, m, end)
    ensures EndsAfter(w, RulesOf(files, call.ai, call.kind), call, m, n)
    ensures After(w, rules, call, from, m, end) == AfterRules(w, RulesOf(files, call.ai, call.kind), call, m, n)
  {
    EventStands(rules, files, call.ai, call.kind);
    n := WalkAndState(w, rules, call, from, m, RulesOf(files, call.ai, call.kind), end);
  }

  /** With all 256 the walk that has moved on from the last goes on with the first rule of the next event. */
  lemma FullEventRunsOn<D>(rules: map<int, Script<D>>, files: Files<D>, ai: int, kind: int)
    requires Filed(rules, files) && ai in files && 0 <= kind && kind + 1 < |files[ai]|
    requires |files[ai][kind]| == 0x100 && files[ai][kind + 1] != []
    ensures
      var next := AipId(ai, kind, 0) + |files[ai][kind]|;
      next in rules && rules[next] == files[ai][kind + 1][0]
  {
    assert InFiles(files, ai, kind + 1, 0);
    assert AipId(ai, kind, 0) + 0x100 == AipId(ai, kind + 1, 0);
  }
}
