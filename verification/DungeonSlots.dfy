/**
 * The dungeon instance tables as a step machine: any number of callers look a party up and then create in a second
 * critical section, while one destroyer erases keys and slots in two. A step is one critical section or a part of one,
 * so every interleaving of the sections is a sequence of steps.
 */
module DungeonSlots {
  import opened Erasing

  const FIRST_SLOT: int := 200
  const MAX_ZONE_INSTANCES: int := 1000

  /** A MapList.Index entry: the null zone, a map loaded at start, or a dynamic instance, known by its pointer. */
  datatype Slot = NullZone | Static | Owner(h: int)

  /** Base zone and party id, as m_partyInstances is keyed. */
  datatype Key = Key(base: int, party: int)

  datatype Record = Record(id: int, key: Key)

  /** How far the holder of the dungeon mutex has got in CreateInstance. */
  datatype Section = Free | Scanning(key: Key, at: int) | Picked(h: int) | Registered(h: int)

  /** How far the destroyer has got in DestroyInstance. */
  datatype Stage = Between | Erased(h: int) | Unlisted(h: int)

  datatype State = State(
    index: seq<Slot>, list: seq<int>, heap: map<int, Record>,
    active: map<int, int>, parties: map<Key, int>,
    missed: map<int, Key>, section: Section,
    stage: Stage, queue: seq<int>)

  datatype Step =
    | Lookup(t: int, key: Key)
    | GiveUp(t: int)
    | Enter(t: int)
    | Scan(h: int)
    | Register
    | Publish
    | Snapshot(q: seq<int>)
    | EraseKeys
    | Unregister
    | Delete

  // ------------------------------------------------ the lookup

  /** GetOrCreatePartyInstance finds a live entry for the key. */
  predicate Hits(s: State, key: Key) {
    && key in s.parties && 0 <= s.parties[key] < |s.index|
    && s.index[s.parties[key]].Owner?
  }

  function Found(s: State, key: Key): int
    requires Hits(s, key)
  {
    s.index[s.parties[key]].h
  }

  // ------------------------------------------------ what holds between steps

  /** This pointer's slot points back at it. */
  predicate Owns(s: State, h: int) {
    h in s.heap && 0 <= s.heap[h].id < |s.index| && s.index[s.heap[h].id] == Owner(h)
  }

  /** This pointer is the recorded instance of its id. */
  predicate Recorded(s: State, h: int) {
    h in s.heap && s.heap[h].id in s.active && s.active[s.heap[h].id] == h
  }

  ghost predicate SlotsSound(s: State) {
    && |s.index| == MAX_ZONE_INSTANCES
    && (forall id :: 0 <= id < |s.index| && s.index[id].Owner? ==>
          FIRST_SLOT <= id && s.index[id].h in s.heap && s.heap[s.index[id].h].id == id)
  }

  ghost predicate ActiveSound(s: State) {
    forall id :: id in s.active ==> FIRST_SLOT <= id < |s.index| && s.index[id] == Owner(s.active[id])
  }

  ghost predicate PartiesSound(s: State) {
    forall k :: k in s.parties ==>
      s.parties[k] in s.active && s.active[s.parties[k]] in s.heap && s.heap[s.active[s.parties[k]]].key == k
  }

  /**
   * Every live instance has its slot to itself, except before it is registered and after it is unregistered, and is
   * recorded by the manager, except while it is being created or destroyed.
   */
  ghost predicate HeapSound(s: State) {
    forall h :: h in s.heap ==>
      FIRST_SLOT <= s.heap[h].id < MAX_ZONE_INSTANCES
      && (s.section == Picked(h) || s.stage == Unlisted(h)
          || (Owns(s, h) && (s.section == Registered(h) || s.stage == Erased(h) || Recorded(s, h))))
  }

  ghost predicate SectionSound(s: State) {
    match s.section
    case Free => true
    case Scanning(_, at) => FIRST_SLOT <= at
    case Picked(h) =>
      && h in s.heap && FIRST_SLOT <= s.heap[h].id < |s.index|
      && s.index[s.heap[h].id] == NullZone && s.heap[h].id !in s.active
    case Registered(h) => Owns(s, h) && s.heap[h].id !in s.active
  }

  ghost predicate StageSound(s: State) {
    match s.stage
    case Between => true
    case Erased(h) => Owns(s, h) && s.heap[h].id !in s.active && s.section != Registered(h)
    case Unlisted(h) => h in s.heap && !Owns(s, h) && s.section != Picked(h)
  }

  ghost predicate QueueSound(s: State) {
    Distinct(s.queue) && forall i :: 0 <= i < |s.queue| ==> Recorded(s, s.queue[i])
  }

  ghost predicate ListSound(s: State) {
    Distinct(s.list) && forall h :: h in s.list <==> Owns(s, h)
  }

  ghost predicate Inv(s: State) {
    && SlotsSound(s) && ActiveSound(s) && PartiesSound(s) && HeapSound(s)
    && SectionSound(s) && StageSound(s) && QueueSound(s) && ListSound(s)
  }

  // ------------------------------------------------ the steps

  ghost predicate Enabled(s: State, step: Step) {
    match step
    case Lookup(t, _) => s.section.Free? && t !in s.missed
    case GiveUp(t) => t in s.missed
    case Enter(t) => s.section.Free? && t in s.missed
    case Scan(h) => s.section.Scanning? && h !in s.heap
    case Register => s.section.Picked?
    case Publish => s.section.Registered?
    case Snapshot(q) =>
      && s.section.Free? && s.stage.Between? && s.queue == []
      && Distinct(q) && forall i :: 0 <= i < |q| ==> Recorded(s, q[i])
    case EraseKeys => s.section.Free? && s.stage.Between? && s.queue != []
    case Unregister => s.stage.Erased?
    case Delete => s.stage.Unlisted?
  }

  /** One slot of CreateInstance's scan; past the last slot the call gives up and unlocks. */
  function Scanned(s: State, h: int): State
    requires s.section.Scanning? && |s.index| == MAX_ZONE_INSTANCES && FIRST_SLOT <= s.section.at
  {
    var Scanning(key, at) := s.section;
    if at >= MAX_ZONE_INSTANCES then s.(section := Free)
    else if s.index[at] == NullZone && at !in s.active then
      s.(heap := s.heap[h := Record(at, key)], section := Picked(h))
    else s.(section := Scanning(key, at + 1))
  }

  /** The new map goes into the server's tables, under MapMutex. */
  function Registering(s: State): State
    requires s.section.Picked? && s.section.h in s.heap && 0 <= s.heap[s.section.h].id < |s.index|
  {
    var h := s.section.h;
    s.(index := s.index[s.heap[h].id := Owner(h)], list := s.list + [h], section := Registered(h))
  }

  /** The new map goes into the manager's own tables and the dungeon mutex is released. */
  function Published(s: State): State
    requires s.section.Registered? && s.section.h in s.heap
  {
    var h := s.section.h;
    var r := s.heap[h];
    s.(active := s.active[r.id := h], parties := s.parties[r.key := r.id], section := Free)
  }

  /** DestroyInstance's first critical section. */
  function KeysErased(s: State): State
    requires s.queue != [] && s.queue[0] in s.heap
  {
    var h := s.queue[0];
    var r := s.heap[h];
    s.(active := s.active - {r.id}, parties := s.parties - {r.key}, stage := Erased(h), queue := s.queue[1..])
  }

  /** DestroyInstance's second critical section, under MapMutex. */
  function Unregistered(s: State): State
    requires s.stage.Erased? && s.stage.h in s.heap
  {
    var h := s.stage.h;
    var id := s.heap[h].id;
    var index := if 0 <= id < |s.index| && s.index[id] == Owner(h) then s.index[id := NullZone] else s.index;
    s.(index := index, list := Without(s.list, h), stage := Unlisted(h))
  }

  function Deleted(s: State): State
    requires s.stage.Unlisted?
  {
    s.(heap := s.heap - {s.stage.h}, stage := Between)
  }

  ghost function Do(s: State, step: Step): State
    requires Inv(s) && Enabled(s, step)
  {
    match step
    case Lookup(t, key) => if Hits(s, key) then s else s.(missed := s.missed[t := key])
    case GiveUp(t) => s.(missed := s.missed - {t})
    case Enter(t) => s.(missed := s.missed - {t}, section := Scanning(s.missed[t], FIRST_SLOT))
    case Scan(h) => Scanned(s, h)
    case Register => Registering(s)
    case Publish => Published(s)
    case Snapshot(q) => s.(queue := q)
    case EraseKeys => assert Recorded(s, s.queue[0]); KeysErased(s)
    case Unregister => Unregistered(s)
    case Delete => Deleted(s)
  }

  // ------------------------------------------------ every step keeps the tables sound

  /** Ownership only depends on the pointer's record and its slot. */
  lemma PickKeeps(s: State, h: int, key: Key, at: int)
    requires Inv(s) && s.section == Scanning(key, at) && h !in s.heap
    requires FIRST_SLOT <= at < MAX_ZONE_INSTANCES && s.index[at] == NullZone && at !in s.active
    ensures Inv(s.(heap := s.heap[h := Record(at, key)], section := Picked(h)))
  {
    var s' := s.(heap := s.heap[h := Record(at, key)], section := Picked(h));
    assert forall x :: Owns(s', x) <==> Owns(s, x);
    assert forall x :: Recorded(s, x) ==> Recorded(s', x);
  }

  lemma ScanKeeps(s: State, h: int)
    requires Inv(s) && s.section.Scanning? && h !in s.heap
    ensures Inv(Scanned(s, h))
  {
    var Scanning(key, at) := s.section;
    if at < MAX_ZONE_INSTANCES && s.index[at] == NullZone && at !in s.active {
      PickKeeps(s, h, key, at);
    } else {
      assert forall x :: Owns(Scanned(s, h), x) <==> Owns(s, x);
    }
  }

  lemma RegisterKeeps(s: State)
    requires Inv(s) && s.section.Picked?
    ensures Inv(Registering(s))
  {
    var h := s.section.h;
    assert forall i :: 0 <= i < |s.list| ==> s.list[i] in s.list;
    assert forall x :: Owns(Registering(s), x) <==> Owns(s, x) || x == h;
    assert forall x :: Recorded(Registering(s), x) <==> Recorded(s, x);
  }

  lemma PublishKeeps(s: State)
    requires Inv(s) && s.section.Registered?
    ensures Inv(Published(s))
  {
    assert forall x :: Owns(Published(s), x) <==> Owns(s, x);
    assert forall x :: Recorded(s, x) ==> Recorded(Published(s), x);
  }

  lemma EraseKeeps(s: State)
    requires Inv(s) && s.section.Free? && s.stage.Between? && s.queue != []
    ensures s.queue[0] in s.heap && Inv(KeysErased(s))
  {
    assert Recorded(s, s.queue[0]) && Owns(s, s.queue[0]);
    assert forall x :: Owns(KeysErased(s), x) <==> Owns(s, x);
    assert forall x :: Recorded(s, x) && x != s.queue[0] ==> Recorded(KeysErased(s), x);
  }

  lemma UnregisterKeeps(s: State)
    requires Inv(s) && s.stage.Erased?
    ensures Inv(Unregistered(s))
  {
    WithoutDropsOne(s.list, s.stage.h);
    assert forall x :: Owns(Unregistered(s), x) <==> Owns(s, x) && x != s.stage.h;
    assert forall x :: Recorded(Unregistered(s), x) <==> Recorded(s, x);
  }

  lemma DeleteKeeps(s: State)
    requires Inv(s) && s.stage.Unlisted?
    ensures Inv(Deleted(s))
  {
    assert forall x :: Owns(Deleted(s), x) <==> Owns(s, x);
    assert forall x :: Recorded(s, x) ==> Owns(s, x);
    forall k | k in s.parties
      ensures Recorded(s, s.active[s.parties[k]])
    {
      assert s.index[s.parties[k]].Owner?;
    }
  }

  lemma StepKeeps(s: State, step: Step)
    requires Inv(s) && Enabled(s, step)
    ensures Inv(Do(s, step))
  {
    match step
    case Scan(h) => ScanKeeps(s, h);
    case Register => RegisterKeeps(s);
    case Publish => PublishKeeps(s);
    case EraseKeys => EraseKeeps(s);
    case Unregister => UnregisterKeeps(s);
    case Delete => DeleteKeeps(s);
    case _ =>
  }

  // ------------------------------------------------ every interleaving

  /** Server start: nothing dynamic yet. */
  ghost predicate Start(s: State) {
    && |s.index| == MAX_ZONE_INSTANCES && (forall id :: 0 <= id < |s.index| ==> !s.index[id].Owner?)
    && s.list == [] && s.heap == map[] && s.active == map[] && s.parties == map[] && s.missed == map[]
    && s.section == Free && s.stage == Between && s.queue == []
  }

  /** The steps can be taken in this order. */
  ghost predicate Possible(s: State, steps: seq<Step>)
    requires Inv(s)
    decreases |steps|
  {
    steps == [] || (Enabled(s, steps[0]) && (StepKeeps(s, steps[0]); Possible(Do(s, steps[0]), steps[1..])))
  }

  ghost function After(s: State, steps: seq<Step>): State
    requires Inv(s) && Possible(s, steps)
    decreases |steps|
  {
    if steps == [] then s else StepKeeps(s, steps[0]); After(Do(s, steps[0]), steps[1..])
  }

  lemma {:induction false} RunsKeep(s: State, steps: seq<Step>)
    requires Inv(s) && Possible(s, steps)
    ensures Inv(After(s, steps))
    decreases |steps|
  {
    if steps != [] {
      StepKeeps(s, steps[0]);
      RunsKeep(Do(s, steps[0]), steps[1..]);
    }
  }

  lemma StartIsSound(s: State)
    requires Start(s)
    ensures Inv(s)
  {
  }

  /** The steps can be taken in this order from server start. */
  ghost predicate Interleaving(s: State, steps: seq<Step>) {
    Start(s) && (StartIsSound(s); Possible(s, steps))
  }

  /** The tables after them. */
  ghost function Reached(s: State, steps: seq<Step>): (t: State)
    requires Interleaving(s, steps)
    ensures Inv(t)
  {
    StartIsSound(s);
    RunsKeep(s, steps);
    After(s, steps)
  }

  /**
   * Under every interleaving: two live instances never own one slot, each id the manager holds resolves in the server's
   * table to exactly the live map recorded for it, which is also in the server's list once, and no live instance is
   * forgotten once nobody is creating or destroying.
   */
  lemma SlotSafety(s: State, steps: seq<Step>)
    requires Interleaving(s, steps)
    ensures
      var t := Reached(s, steps);
      && (forall g, h ::
            (&& g in t.heap && h in t.heap && t.stage != Unlisted(g) && t.stage != Unlisted(h)
             && t.heap[g].id == t.heap[h].id)
            ==> g == h)
      && (forall h :: h in t.heap ==> FIRST_SLOT <= t.heap[h].id < MAX_ZONE_INSTANCES)
      && (t.section == Free && t.stage == Between ==> forall h :: h in t.heap ==> Recorded(t, h))
      && (forall id :: id in t.active ==>
            0 <= id < |t.index| && t.index[id] == Owner(t.active[id]) && Recorded(t, t.active[id]))
      && Distinct(t.list) && (forall id :: id in t.active ==> t.active[id] in t.list)
  {
    var t := Reached(s, steps);
    forall g, h | g in t.heap && h in t.heap && t.stage != Unlisted(g) && t.stage != Unlisted(h)
                  && t.heap[g].id == t.heap[h].id
      ensures g == h
    {
      assert Owns(t, g) || t.section == Picked(g);
      assert Owns(t, h) || t.section == Picked(h);
    }
    forall id | id in t.active
      ensures Recorded(t, t.active[id]) && Owns(t, t.active[id])
    {
      assert t.index[id].Owner?;
    }
  }

  /** A lookup that hits hands out a live recorded instance of that very key, and hits whenever there is an entry. */
  lemma LookupIsLive(s: State, key: Key)
    requires Inv(s)
    ensures Hits(s, key) <==> key in s.parties
    ensures Hits(s, key) ==> Recorded(s, Found(s, key)) && Owns(s, Found(s, key)) && s.heap[Found(s, key)].key == key
  {
    if key in s.parties {
      assert s.index[s.parties[key]].Owner?;
    }
  }

  /** The destroyer never finds its slot taken over by another map. */
  lemma SlotCheckNeverFails(s: State)
    requires Inv(s) && s.stage.Erased?
    ensures Owns(s, s.stage.h)
    ensures var id := s.heap[s.stage.h].id; Unregistered(s).index == s.index[id := NullZone]
  {
  }

  // ------------------------------------------------ one instance a party

  /** Every recorded instance is the one its party would be given. */
  ghost predicate OneToOne(s: State) {
    forall id :: id in s.active ==>
      s.active[id] in s.heap && s.heap[s.active[id]].key in s.parties && s.parties[s.heap[s.active[id]].key] == id
  }

  /** Publishing keeps the correspondence exactly when the party has no entry at that moment. */
  lemma PublishOneToOneIff(s: State)
    requires Inv(s) && s.section.Registered? && OneToOne(s)
    ensures OneToOne(Published(s)) <==> s.heap[s.section.h].key !in s.parties
  {
    var h := s.section.h;
    var key := s.heap[h].key;
    var t := Published(s);
    if key in s.parties {
      var id := s.parties[key];
      assert id in t.active && t.heap[t.active[id]].key == key && t.parties[key] != id;
    }
  }

  /** Destroying keeps it always. */
  lemma EraseKeepsOneToOne(s: State)
    requires Inv(s) && s.section.Free? && s.stage.Between? && s.queue != [] && OneToOne(s)
    ensures s.queue[0] in s.heap && OneToOne(KeysErased(s))
  {
    assert Recorded(s, s.queue[0]);
  }

  predicate InSection(s: State, k: Key) {
    match s.section
    case Free => false
    case Scanning(key, _) => key == k
    case Picked(h) => h in s.heap && s.heap[h].key == k
    case Registered(h) => h in s.heap && s.heap[h].key == k
  }

  /** Some caller is between its lookup of this key and its publication. */
  ghost predicate Pending(s: State, k: Key) {
    InSection(s, k) || exists t :: t in s.missed && s.missed[t] == k
  }

  /** What callers keep to when no two of them create for one party at a time. */
  ghost predicate OneAtATime(s: State) {
    && (forall k :: InSection(s, k) ==> k !in s.parties)
    && (forall t :: t in s.missed ==> s.missed[t] !in s.parties && !InSection(s, s.missed[t]))
    && (forall t, u :: t in s.missed && u in s.missed && t != u ==> s.missed[t] != s.missed[u])
  }

  /** The callers' side of the bargain: look a key up only while nobody else is creating for it. */
  ghost predicate Considerate(s: State, step: Step) {
    step.Lookup? ==> !Pending(s, step.key)
  }

  lemma ScanOneAtATime(s: State, h: int)
    requires Inv(s) && s.section.Scanning? && h !in s.heap && OneAtATime(s) && OneToOne(s)
    ensures OneAtATime(Scanned(s, h)) && OneToOne(Scanned(s, h))
  {
    assert forall k :: InSection(Scanned(s, h), k) ==> InSection(s, k);
    forall id | id in s.active
      ensures s.active[id] in s.heap
    {
      assert s.index[id].Owner?;
    }
  }

  lemma PublishOneAtATime(s: State)
    requires Inv(s) && s.section.Registered? && OneAtATime(s) && OneToOne(s)
    ensures OneAtATime(Published(s)) && OneToOne(Published(s))
  {
    assert InSection(s, s.heap[s.section.h].key);
    PublishOneToOneIff(s);
  }

  lemma DeleteOneAtATime(s: State)
    requires Inv(s) && s.stage.Unlisted? && OneAtATime(s) && OneToOne(s)
    ensures OneAtATime(Deleted(s)) && OneToOne(Deleted(s))
  {
    forall id | id in s.active
      ensures Owns(s, s.active[id])
    {
      assert s.index[id].Owner?;
    }
    assert forall k :: InSection(Deleted(s), k) ==> InSection(s, k);
  }

  lemma StepOneAtATime(s: State, step: Step)
    requires Inv(s) && Enabled(s, step) && Considerate(s, step) && OneAtATime(s) && OneToOne(s)
    ensures OneAtATime(Do(s, step)) && OneToOne(Do(s, step))
  {
    match step
    case Lookup(t, key) => LookupIsLive(s, key);
    case Scan(h) => ScanOneAtATime(s, h);
    case Publish => PublishOneAtATime(s);
    case EraseKeys => EraseKeepsOneToOne(s);
    case Delete => DeleteOneAtATime(s);
    case _ =>
  }

  ghost predicate AllConsiderate(s: State, steps: seq<Step>)
    requires Inv(s) && Possible(s, steps)
    decreases |steps|
  {
    steps == [] || (Considerate(s, steps[0]) && (StepKeeps(s, steps[0]); AllConsiderate(Do(s, steps[0]), steps[1..])))
  }

  /**
   * Instances and parties stay in one-to-one correspondence under every interleaving in which no key is looked up while
   * another caller is creating for it; serialised calls are the simplest such runs.
   */
  lemma {:induction false} OneInstanceAParty(s: State, steps: seq<Step>)
    requires Inv(s) && Possible(s, steps) && AllConsiderate(s, steps) && OneAtATime(s) && OneToOne(s)
    ensures OneToOne(After(s, steps)) && OneAtATime(After(s, steps))
    decreases |steps|
  {
    if steps != [] {
      StepKeeps(s, steps[0]);
      StepOneAtATime(s, steps[0]);
      OneInstanceAParty(Do(s, steps[0]), steps[1..]);
    }
  }

  /** Two callers of one party who both look up before either creates. */
  function Race(key: Key): seq<Step> {
    [Lookup(1, key), Lookup(2, key)] + ([Enter(1), Scan(1), Register, Publish]
    + [Enter(2), Scan(2), Scan(2), Register, Publish])
  }

  /** Both have missed. */
  function BothMissed(s: State, key: Key): State {
    s.(missed := map[1 := key, 2 := key])
  }

  /** The first has created. */
  function FirstCreated(s: State, key: Key): State
    requires |s.index| == MAX_ZONE_INSTANCES
  {
    s.(index := s.index[200 := Owner(1)], list := [1], heap := map[1 := Record(200, key)],
       active := map[200 := 1], parties := map[key := 200], missed := map[2 := key])
  }

  /** The second has created too, and the party's entry names only its instance. */
  function BothCreated(s: State, key: Key): State
    requires |s.index| == MAX_ZONE_INSTANCES
  {
    s.(index := s.index[200 := Owner(1)][201 := Owner(2)], list := [1, 2],
       heap := map[1 := Record(200, key), 2 := Record(201, key)],
       active := map[200 := 1, 201 := 2], parties := map[key := 201])
  }

  lemma OneStep(s: State, step: Step, t: State, rest: seq<Step>)
    requires Inv(s) && Enabled(s, step) && Do(s, step) == t
    ensures Inv(t)
    ensures Possible(t, rest) ==> Possible(s, [step] + rest) && After(s, [step] + rest) == After(t, rest)
  {
    StepKeeps(s, step);
    assert ([step] + rest)[1..] == rest;
  }

  lemma RaceLookups(s: State, key: Key, rest: seq<Step>)
    requires Start(s) && Inv(s)
    ensures
      var t := BothMissed(s, key);
      && Inv(t)
      && (Possible(t, rest) ==>
            Possible(s, [Lookup(1, key), Lookup(2, key)] + rest)
            && After(s, [Lookup(1, key), Lookup(2, key)] + rest) == After(t, rest))
  {
    var s1 := s.(missed := map[1 := key]);
    OneStep(s, Lookup(1, key), s1, [Lookup(2, key)] + rest);
    OneStep(s1, Lookup(2, key), BothMissed(s, key), rest);
    assert [Lookup(1, key)] + ([Lookup(2, key)] + rest) == [Lookup(1, key), Lookup(2, key)] + rest;
  }

  /** The first caller has its slot but is not yet published. */
  function FirstRegistered(s: State, key: Key): State
    requires |s.index| == MAX_ZONE_INSTANCES
  {
    FirstCreated(s, key).(active := map[], parties := map[], section := Registered(1))
  }

  lemma RaceFirstScan(s: State, key: Key, rest: seq<Step>)
    requires Start(s) && Inv(BothMissed(s, key)) && s.index[200] == NullZone
    ensures
      var t := FirstRegistered(s, key);
      && Inv(t)
      && (Possible(t, rest) ==>
            Possible(BothMissed(s, key), [Enter(1), Scan(1), Register] + rest)
            && After(BothMissed(s, key), [Enter(1), Scan(1), Register] + rest) == After(t, rest))
  {
    var s3 := s.(missed := map[2 := key], section := Scanning(key, 200));
    OneStep(BothMissed(s, key), Enter(1), s3, [Scan(1)] + ([Register] + rest));
    var s4 := s3.(heap := map[1 := Record(200, key)], section := Picked(1));
    OneStep(s3, Scan(1), s4, [Register] + rest);
    OneStep(s4, Register, FirstRegistered(s, key), rest);
    assert [Enter(1)] + ([Scan(1)] + ([Register] + rest)) == [Enter(1), Scan(1), Register] + rest;
  }

  lemma RaceFirst(s: State, key: Key, rest: seq<Step>)
    requires Start(s) && Inv(BothMissed(s, key)) && s.index[200] == NullZone
    ensures
      var t := FirstCreated(s, key);
      && Inv(t)
      && (Possible(t, rest) ==>
            Possible(BothMissed(s, key), [Enter(1), Scan(1), Register, Publish] + rest)
            && After(BothMissed(s, key), [Enter(1), Scan(1), Register, Publish] + rest) == After(t, rest))
  {
    RaceFirstScan(s, key, [Publish] + rest);
    OneStep(FirstRegistered(s, key), Publish, FirstCreated(s, key), rest);
    assert [Enter(1), Scan(1), Register] + ([Publish] + rest) == [Enter(1), Scan(1), Register, Publish] + rest;
  }

  /** The second caller has picked its slot. */
  function SecondPicked(s: State, key: Key): State
    requires |s.index| == MAX_ZONE_INSTANCES
  {
    BothCreated(s, key).(index := s.index[200 := Owner(1)], list := [1], active := map[200 := 1],
                         parties := map[key := 200], section := Picked(2))
  }

  lemma RaceSecondScan(s: State, key: Key, rest: seq<Step>)
    requires Start(s) && Inv(FirstCreated(s, key)) && s.index[201] == NullZone
    ensures
      var t := SecondPicked(s, key);
      && Inv(t)
      && (Possible(t, rest) ==>
            Possible(FirstCreated(s, key), [Enter(2), Scan(2), Scan(2)] + rest)
            && After(FirstCreated(s, key), [Enter(2), Scan(2), Scan(2)] + rest) == After(t, rest))
  {
    var s7 := FirstCreated(s, key).(missed := map[], section := Scanning(key, 200));
    OneStep(FirstCreated(s, key), Enter(2), s7, [Scan(2)] + ([Scan(2)] + rest));
    var s8 := s7.(section := Scanning(key, 201));
    OneStep(s7, Scan(2), s8, [Scan(2)] + rest);
    var s9 := s8.(heap := map[1 := Record(200, key), 2 := Record(201, key)], section := Picked(2));
    OneStep(s8, Scan(2), s9, rest);
    assert [Enter(2)] + ([Scan(2)] + ([Scan(2)] + rest)) == [Enter(2), Scan(2), Scan(2)] + rest;
  }

  lemma RaceSecondEnd(s: State, key: Key)
    requires Start(s) && Inv(SecondPicked(s, key)) && s.index[201] == NullZone
    ensures
      var steps := [Register] + ([Publish] + []);
      Possible(SecondPicked(s, key), steps) && After(SecondPicked(s, key), steps) == BothCreated(s, key)
  {
    var s9 := SecondPicked(s, key);
    var s10 := s9.(index := s9.index[201 := Owner(2)], list := [1, 2], section := Registered(2));
    OneStep(s9, Register, s10, [Publish] + []);
    OneStep(s10, Publish, BothCreated(s, key), []);
  }

  lemma RaceSecond(s: State, key: Key)
    requires Start(s) && Inv(FirstCreated(s, key)) && s.index[201] == NullZone
    ensures
      var steps := [Enter(2), Scan(2), Scan(2), Register, Publish];
      Possible(FirstCreated(s, key), steps) && After(FirstCreated(s, key), steps) == BothCreated(s, key)
  {
    var end := [Register] + ([Publish] + []);
    RaceSecondScan(s, key, end);
    RaceSecondEnd(s, key);
    assert [Enter(2), Scan(2), Scan(2)] + end == [Enter(2), Scan(2), Scan(2), Register, Publish];
  }

  /** Inconsiderate callers can leave one party with two live instances, of which its key names only the second. */
  lemma RaceBreaksOneToOne(s: State, key: Key)
    requires Start(s) && s.index[200] == NullZone && s.index[201] == NullZone
    ensures Interleaving(s, Race(key)) && Reached(s, Race(key)) == BothCreated(s, key)
    ensures !OneToOne(BothCreated(s, key))
  {
    StartIsSound(s);
    var second := [Enter(2), Scan(2), Scan(2), Register, Publish];
    RaceLookups(s, key, [Enter(1), Scan(1), Register, Publish] + second);
    RaceFirst(s, key, second);
    RaceSecond(s, key);
    assert 200 in BothCreated(s, key).active;
  }
}
