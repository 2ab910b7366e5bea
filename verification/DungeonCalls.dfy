/** Whole calls of CDungeonManager, made one at a time: what a creation and a destruction do to the tables. */
module DungeonCalls {
  import opened Wrappers
  import opened Erasing
  import opened DungeonSlots

  // ------------------------------------------------ zones

  /** The four registered caves. */
  predicate IsCave(zone: int) {
    24 <= zone <= 28 || 31 <= zone <= 33 || 41 <= zone <= 44 || 56 <= zone <= 57
  }

  /** The zone a map id stands for: an instance's base zone, or the id itself. */
  function BaseZone(s: State, mapId: nat): int
    requires SlotsSound(s)
  {
    if mapId < |s.index| && s.index[mapId].Owner? then s.heap[s.index[mapId].h].key.base else mapId
  }

  /** The exit map of a cave, and whether it has one of its own; Zant otherwise. */
  function ExitOf(zone: int): (int, bool) {
    if 31 <= zone <= 33 then (22, true)
    else if 24 <= zone <= 28 then (1, true)
    else if 41 <= zone <= 44 then (24, true)
    else if 56 <= zone <= 57 then (54, true)
    else (2, false)
  }

  /** No exit is a dynamic slot, and exactly the caves have an exit of their own. */
  lemma ExitsAreNotInstances(zone: int)
    ensures 0 < ExitOf(zone).0 < FIRST_SLOT
    ensures ExitOf(zone).1 <==> IsCave(zone)
  {
  }

  // ------------------------------------------------ party keys

  const TAG: int := 0x8000_0000

  /** 0x80000000 | charid, as a 32-bit number. */
  function Solo(charId: nat): nat {
    if charId < TAG then TAG + charId else charId
  }

  function PartyKey(party: Option<nat>, charId: nat): nat {
    if party.Some? && party.value > 0 then party.value else Solo(charId)
  }

  /**
   * Whose instance somebody is given: on an instance the one of its base zone, elsewhere of the map he is on; of his
   * party if he has one with a number, of himself, known by the low 31 bits of his id, if not; and only in the caves.
   */
  lemma OwnKeyIs(s: State, mapId: nat, party: Option<nat>, charId: nat)
    requires SlotsSound(s) && charId < 0x1_0000_0000
    ensures
      var base, who := BaseZone(s, mapId), PartyKey(party, charId);
      && (forall h :: mapId < |s.index| && s.index[mapId] == Owner(h) ==> h in s.heap && base == s.heap[h].key.base)
      && (mapId >= |s.index| || !s.index[mapId].Owner? ==> base == mapId)
      && (party.Some? && party.value > 0 ==> who == party.value)
      && (party.None? || party.value == 0 ==> who >= 0x8000_0000 && (who - charId) % 0x8000_0000 == 0)
      && (IsCave(base) <==> base in {24, 25, 26, 27, 28, 31, 32, 33, 41, 42, 43, 44, 56, 57})
  {
  }

  /** Party members share their party's number; two solo players share one only with equal low 31 bits. */
  lemma SharedKeyIff(p: Option<nat>, c: nat, q: Option<nat>, d: nat)
    requires c < 2 * TAG && d < 2 * TAG
    ensures PartyKey(p, c) == PartyKey(q, d) <==>
            var inP, inQ := p.Some? && p.value > 0, q.Some? && q.value > 0;
            if inP && inQ then p == q
            else if inP then p.value >= TAG && p.value - TAG == d % TAG
            else if inQ then q.value >= TAG && q.value - TAG == c % TAG
            else c % TAG == d % TAG
  {
    LowBits(c);
    LowBits(d);
  }

  lemma LowBits(c: nat)
    requires c < 2 * TAG
    ensures Solo(c) == TAG + c % TAG
  {
  }

  // ------------------------------------------------ creation and destruction

  /** Nobody is inside a call. */
  ghost predicate Quiet(s: State) {
    Inv(s) && s.section == Free && s.stage == Between && s.queue == [] && s.missed == map[]
  }

  predicate FreeSlot(s: State, id: int) {
    FIRST_SLOT <= id < |s.index| && s.index[id] == NullZone && id !in s.active
  }

  /** The first free slot from at on, or MAX_ZONE_INSTANCES. */
  function FirstFree(s: State, at: int): (id: int)
    requires |s.index| == MAX_ZONE_INSTANCES && FIRST_SLOT <= at <= MAX_ZONE_INSTANCES
    ensures at <= id <= MAX_ZONE_INSTANCES
    ensures id < MAX_ZONE_INSTANCES ==> FreeSlot(s, id)
    ensures forall k :: at <= k < id ==> !FreeSlot(s, k)
    decreases MAX_ZONE_INSTANCES - at
  {
    if at == |s.index| || FreeSlot(s, at) then at else FirstFree(s, at + 1)
  }

  /** A creation from pick to publication. */
  function Created(s: State, key: Key, id: int, h: int): State
    requires FreeSlot(s, id)
  {
    Published(Registering(s.(heap := s.heap[h := Record(id, key)], section := Picked(h))))
  }

  /** CreateInstance: a new instance in the first free slot, if there is one. */
  function Opened(s: State, key: Key, h: int): State
    requires |s.index| == MAX_ZONE_INSTANCES
  {
    var id := FirstFree(s, FIRST_SLOT);
    if id == MAX_ZONE_INSTANCES then s else Created(s, key, id, h)
  }

  lemma CreatedKeeps(s: State, key: Key, id: int, h: int)
    requires Quiet(s) && FreeSlot(s, id) && h !in s.heap
    ensures Quiet(Created(s, key, id, h)) && Recorded(Created(s, key, id, h), h)
  {
    var s1 := s.(section := Scanning(key, id));
    ScanningKeeps(s, key, id);
    PickKeeps(s1, h, key, id);
    var s2 := s.(heap := s.heap[h := Record(id, key)], section := Picked(h));
    RegisterKeeps(s2);
    PublishKeeps(Registering(s2));
  }

  lemma ScanningKeeps(s: State, key: Key, at: int)
    requires Quiet(s) && FIRST_SLOT <= at
    ensures Inv(s.(section := Scanning(key, at)))
  {
    var t := s.(section := Scanning(key, at));
    assert forall x :: Owns(t, x) <==> Owns(s, x);
    assert forall x :: Recorded(t, x) <==> Recorded(s, x);
  }

  /** What a creation changes: one entry in each table. */
  lemma CreatedIs(s: State, key: Key, id: int, h: int)
    requires Quiet(s) && FreeSlot(s, id) && h !in s.heap
    ensures Created(s, key, id, h)
         == s.(index := s.index[id := Owner(h)], list := s.list + [h], heap := s.heap[h := Record(id, key)],
               active := s.active[id := h], parties := s.parties[key := id])
  {
  }

  /** A destruction from first section to delete. */
  function Destroyed(s: State, h: int): State
    requires h in s.heap
  {
    Deleted(Unregistered(KeysErased(s.(queue := [h]))))
  }

  lemma DestroyedKeeps(s: State, h: int)
    requires Quiet(s) && h in s.heap
    ensures Recorded(s, h) && Quiet(Destroyed(s, h)) && h !in Destroyed(s, h).heap
  {
    QueuedKeeps(s, h);
    var s1 := s.(queue := [h]);
    EraseKeeps(s1);
    UnregisterKeeps(KeysErased(s1));
    DeleteKeeps(Unregistered(KeysErased(s1)));
  }

  lemma QueuedKeeps(s: State, h: int)
    requires Quiet(s) && h in s.heap
    ensures Recorded(s, h) && Inv(s.(queue := [h]))
  {
    var t := s.(queue := [h]);
    assert forall x :: Owns(t, x) <==> Owns(s, x);
    assert forall x :: Recorded(t, x) <==> Recorded(s, x);
  }

  /** What a destruction changes: the same entries go. */
  lemma DestroyedIs(s: State, h: int)
    requires Quiet(s) && h in s.heap
    ensures Destroyed(s, h)
         == s.(index := s.index[s.heap[h].id := NullZone], list := Without(s.list, h), heap := s.heap - {h},
               active := s.active - {s.heap[h].id}, parties := s.parties - {s.heap[h].key})
  {
    QueuedKeeps(s, h);
    var s1 := s.(queue := [h]);
    EraseKeeps(s1);
    SlotCheckNeverFails(KeysErased(s1));
  }

  /** Destroying a new instance undoes its creation in every table, if its party had no entry before. */
  lemma DestroyUndoesCreate(s: State, key: Key, id: int, h: int)
    requires Quiet(s) && FreeSlot(s, id) && h !in s.heap && key !in s.parties
    ensures Quiet(Created(s, key, id, h)) && h in Created(s, key, id, h).heap
    ensures Destroyed(Created(s, key, id, h), h) == s
  {
    CreatedKeeps(s, key, id, h);
    CreatedIs(s, key, id, h);
    DestroyedIs(Created(s, key, id, h), h);
    assert !Owns(s, h);
    WithoutAppended(s.list, h);
    assert s.index[id := Owner(h)][id := NullZone] == s.index;
    assert s.heap[h := Record(id, key)] - {h} == s.heap;
    assert s.active[id := h] - {id} == s.active;
    assert s.parties[key := id] - {key} == s.parties;
  }

  // ------------------------------------------------ runs of whole calls

  /** A visit to a loaded cave that creates when it must, with the pointer it would get, or a destruction. */
  datatype Op = Visit(key: Key, pointer: int) | Drop(h: int)

  ghost predicate CanDo(s: State, op: Op) {
    match op
    case Visit(_, pointer) => pointer !in s.heap
    case Drop(h) => h in s.heap
  }

  function Apply(s: State, op: Op): State
    requires |s.index| == MAX_ZONE_INSTANCES && (op.Drop? ==> op.h in s.heap)
  {
    match op
    case Visit(key, pointer) => if Hits(s, key) then s else Opened(s, key, pointer)
    case Drop(h) => Destroyed(s, h)
  }

  lemma ApplyKeeps(s: State, op: Op)
    requires Quiet(s) && OneToOne(s) && CanDo(s, op)
    ensures Quiet(Apply(s, op)) && OneToOne(Apply(s, op))
  {
    match op
    case Visit(key, pointer) => VisitKeeps(s, key, pointer);
    case Drop(h) =>
      DestroyedKeeps(s, h);
      DestroyedIs(s, h);
      DropOneToOne(s, h);
  }

  lemma VisitKeeps(s: State, key: Key, pointer: int)
    requires Quiet(s) && OneToOne(s) && pointer !in s.heap
    ensures Quiet(Apply(s, Visit(key, pointer))) && OneToOne(Apply(s, Visit(key, pointer)))
  {
    LookupIsLive(s, key);
    var id := FirstFree(s, FIRST_SLOT);
    if !Hits(s, key) && id < MAX_ZONE_INSTANCES {
      CreatedKeeps(s, key, id, pointer);
      CreatedOneToOneIff(s, key, id, pointer);
    }
  }

  /** A creation keeps one instance a party exactly when the party had no entry. */
  lemma CreatedOneToOneIff(s: State, key: Key, id: int, h: int)
    requires Quiet(s) && OneToOne(s) && FreeSlot(s, id) && h !in s.heap
    ensures OneToOne(Created(s, key, id, h)) <==> key !in s.parties
  {
    CreatedIs(s, key, id, h);
    var t := Created(s, key, id, h);
    if key in s.parties {
      var first := s.parties[key];
      assert first in t.active && t.active[first] == s.active[first] && t.heap[t.active[first]].key == key;
    }
  }

  /** What a creation means for the party it is for, if it has no entry. */
  lemma OpenedServes(s: State, key: Key, h: int)
    requires Quiet(s) && OneToOne(s) && h !in s.heap && key !in s.parties
    ensures Apply(s, Visit(key, h)) == Opened(s, key, h) && OneToOne(Opened(s, key, h))
    ensures if FirstFree(s, FIRST_SLOT) == MAX_ZONE_INSTANCES then Opened(s, key, h) == s && !Hits(s, key)
            else Hits(Opened(s, key, h), key) && Found(Opened(s, key, h), key) == h
                 && Opened(s, key, h).heap == s.heap[h := Record(FirstFree(s, FIRST_SLOT), key)]
  {
    var id := FirstFree(s, FIRST_SLOT);
    LookupIsLive(s, key);
    if id < MAX_ZONE_INSTANCES {
      CreatedIs(s, key, id, h);
      CreatedOneToOneIff(s, key, id, h);
    }
  }

  lemma DropOneToOne(s: State, h: int)
    requires Quiet(s) && OneToOne(s) && h in s.heap
    ensures OneToOne(Destroyed(s, h))
  {
    DestroyedIs(s, h);
    QueuedKeeps(s, h);
    forall id | id in s.active && id != s.heap[h].id
      ensures s.active[id] != h && s.heap[s.active[id]].key != s.heap[h].key
    {
      assert s.index[id].Owner?;
    }
  }

  /** Nobody visits with anything but a fresh pointer, and only live instances are dropped, this one not among them. */
  ghost predicate Spares(s: State, ops: seq<Op>, h: int)
    requires Quiet(s) && OneToOne(s)
    decreases |ops|
  {
    ops == []
    || (CanDo(s, ops[0]) && ops[0] != Drop(h) && (ApplyKeeps(s, ops[0]); Spares(Apply(s, ops[0]), ops[1..], h)))
  }

  ghost function AfterCalls(s: State, ops: seq<Op>, h: int): State
    requires Quiet(s) && OneToOne(s) && Spares(s, ops, h)
    decreases |ops|
  {
    if ops == [] then s else ApplyKeeps(s, ops[0]); AfterCalls(Apply(s, ops[0]), ops[1..], h)
  }

  /** The party's entry and the instance it names survive any one call that does not destroy that instance. */
  lemma EntrySurvives(s: State, op: Op, key: Key)
    requires Quiet(s) && OneToOne(s) && CanDo(s, op) && Hits(s, key) && op != Drop(Found(s, key))
    ensures Hits(Apply(s, op), key) && Found(Apply(s, op), key) == Found(s, key)
  {
    LookupIsLive(s, key);
    match op
    case Visit(other, pointer) =>
      LookupIsLive(s, other);
      var id := FirstFree(s, FIRST_SLOT);
      if !Hits(s, other) && id < MAX_ZONE_INSTANCES {
        CreatedIs(s, other, id, pointer);
      }
    case Drop(h) =>
      DestroyedIs(s, h);
      QueuedKeeps(s, h);
      assert Recorded(s, Found(s, key)) && s.heap[h].id in s.active;
  }

  /**
   * Over any run of calls a party gets the same instance until that instance is destroyed, it is an instance of the
   * party's own key, and no other key ever gets it.
   */
  lemma {:induction false} SamePartySameInstance(s: State, ops: seq<Op>, key: Key, other: Key)
    requires Quiet(s) && OneToOne(s) && Hits(s, key) && Spares(s, ops, Found(s, key))
    ensures
      var t := AfterCalls(s, ops, Found(s, key));
      && Quiet(t) && Hits(t, key) && Found(t, key) == Found(s, key)
      && Recorded(t, Found(t, key)) && t.heap[Found(t, key)].key == key
      && (other != key && Hits(t, other) ==> Found(t, other) != Found(s, key))
    decreases |ops|
  {
    if ops == [] {
      LookupIsLive(s, key);
      LookupIsLive(s, other);
    } else {
      ApplyKeeps(s, ops[0]);
      EntrySurvives(s, ops[0], key);
      SamePartySameInstance(Apply(s, ops[0]), ops[1..], key, other);
    }
  }

  /** A visit leaves the party with an instance unless the slots have run out. */
  lemma VisitServes(s: State, key: Key, pointer: int)
    requires Quiet(s) && OneToOne(s) && pointer !in s.heap
    ensures Hits(Apply(s, Visit(key, pointer)), key) <==> Hits(s, key) || exists id :: FreeSlot(s, id)
  {
    LookupIsLive(s, key);
    var id := FirstFree(s, FIRST_SLOT);
    if !Hits(s, key) && id < MAX_ZONE_INSTANCES {
      CreatedIs(s, key, id, pointer);
      assert FreeSlot(s, id);
    }
  }
}
