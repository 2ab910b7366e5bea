/** When a debuff leaves the thirty declared slots: the condition on the slots, on whole runs, and runs that do. */
module BuffOverrun {
  import opened Wrappers
  import opened BuffLedger
  import opened BuffRuns

  // ------------------------------------------------ room among the declared debuff slots

  /** How many of the first n debuff slots hold some other status. */
  function Others(slots: seq<Slot>, status: uint, n: nat): (c: nat)
    requires |slots| == SLOTS && FIRST_DEBUFF + n <= DECLARED_SLOTS
    ensures c <= n
  {
    if n == 0 then 0
    else
      var z := slots[FIRST_DEBUFF + n - 1].status;
      Others(slots, status, n - 1) + if z != 0 && z != status then 1 else 0
  }

  /** The number of declared debuff slots. */
  function DebuffSlots(slots: seq<Slot>): (n: nat)
    requires |slots| == SLOTS
    ensures FIRST_DEBUFF + n == DECLARED_SLOTS
  {
    |slots| - 17
  }

  lemma {:induction false} FullOrRoom(slots: seq<Slot>, status: uint, n: nat)
    requires |slots| == SLOTS && FIRST_DEBUFF + n <= DECLARED_SLOTS
    ensures Others(slots, status, n) == n <==>
              forall z :: FIRST_DEBUFF <= z < FIRST_DEBUFF + n ==> slots[z].status != 0 && slots[z].status != status
  {
    if n > 0 {
      FullOrRoom(slots, status, n - 1);
    }
  }

  /** With memory behind the table that does not read as the status, a debuff stays inside if under 15 others live. */
  lemma RoomKeepsInside(slots: seq<Slot>, status: uint)
    requires |slots| == SLOTS && status != 0 && slots[30].status != status && slots[31].status != status
    requires Others(slots, status, DebuffSlots(slots)) < DebuffSlots(slots)
    ensures Inside(slots, status, true)
  {
    FullOrRoom(slots, status, DebuffSlots(slots));
    SearchEndsPastDeclared(slots, status);
  }

  /** Exactly then, when the memory behind reads as free. */
  lemma InsideIffRoom(slots: seq<Slot>, status: uint)
    requires |slots| == SLOTS && status != 0 && slots[30].status == 0 && slots[31].status != status
    ensures Inside(slots, status, true) <==> Others(slots, status, DebuffSlots(slots)) < DebuffSlots(slots)
  {
    if Others(slots, status, DebuffSlots(slots)) < DebuffSlots(slots) {
      RoomKeepsInside(slots, status);
    }
    FullOrRoom(slots, status, DebuffSlots(slots));
    SearchEndsPastDeclared(slots, status);
  }

  // ------------------------------------------------ runs with few debuffs

  lemma {:induction false} DistinctFit(q: seq<uint>, s: set<uint>)
    requires forall i, j :: 0 <= i < j < |q| ==> q[i] != q[j]
    requires forall i :: 0 <= i < |q| ==> q[i] in s
    ensures |q| <= |s|
  {
    if q != [] {
      DistinctFit(q[1..], s - {q[0]});
    }
  }

  /** At most fifteen debuffs are ever cast, and the memory behind the table never reads as the status being cast. */
  ghost predicate FewDebuffs(casts: seq<Cast>, debuffs: set<uint>) {
    && |debuffs| <= 15
    && (forall i :: 0 <= i < |casts| && IsDebuff(casts[i].effect.status) ==> casts[i].effect.status in debuffs)
    && (forall i :: 0 <= i < |casts| ==>
          casts[i].behind.0.status != casts[i].effect.status && casts[i].behind.1.status != casts[i].effect.status)
  }

  ghost predicate BandWithin(slots: seq<Slot>, debuffs: set<uint>)
    requires |slots| == SLOTS
  {
    forall z :: FIRST_DEBUFF <= z < DECLARED_SLOTS && slots[z].status != 0 ==> slots[z].status in debuffs
  }

  /** Fifteen slots for at most fifteen statuses: there is always room for the one being cast. */
  lemma FewLeaveRoom(slots: seq<Slot>, status: uint, debuffs: set<uint>)
    requires Orderly(slots) && status != 0 && slots[30].status != status && slots[31].status != status
    requires BandWithin(slots, debuffs) && status in debuffs && |debuffs| <= 15
    ensures Inside(slots, status, true)
  {
    var n := DebuffSlots(slots);
    if Others(slots, status, n) < n {
      RoomKeepsInside(slots, status);
    } else {
      FullOrRoom(slots, status, n);
      var q := seq(n, i requires 0 <= i < n => slots[FIRST_DEBUFF + i].status);
      DistinctFit(q, debuffs - {status});
    }
  }

  lemma PutWithin(slots: seq<Slot>, e: Effect, slot: Slot, debuffs: set<uint>)
    requires |slots| == SLOTS && BandWithin(slots, debuffs)
    requires IsDebuff(e.status) ==> e.status in debuffs
    requires PositionFor(slots, e.status, IsDebuff(e.status)) != NO_SLOT
    requires slot.status == e.status || slot.status == slots[PositionFor(slots, e.status, IsDebuff(e.status))].status
    ensures BandWithin(slots[PositionFor(slots, e.status, IsDebuff(e.status)) := slot], debuffs)
  {
  }

  lemma ApplyWithin(b: Book, e: Effect, lucky: bool, foreign: Option<uint>, now: int, debuffs: set<uint>)
    requires Shaped(b) && Castable(b.slots, e) && BandWithin(b.slots, debuffs)
    requires IsDebuff(e.status) ==> e.status in debuffs
    ensures BandWithin(Apply(b, e, lucky, foreign, now).slots, debuffs)
  {
    var debuff := IsDebuff(e.status);
    var p := PositionFor(b.slots, e.status, debuff);
    match ArmOf(e.status)
    case StatArm(s) =>
      var n := StatEntry(b.slots, s, e, debuff, lucky, b.stats[s], now);
      if n.recorded {
        PutWithin(b.slots, e, n.slots[p], debuffs);
      }
    case AilmentArm =>
      if p != NO_SLOT {
        PutWithin(b.slots, e, SlotFor(e, e.status, 0, now), debuffs);
      }
    case OtherArm =>
      if p != NO_SLOT && foreign.Some? {
        PutWithin(b.slots, e, SlotFor(e, OtherBuff(e), foreign.value, now), debuffs);
      }
    case PurifyArm =>
      if p != NO_SLOT {
        PutWithin(b.slots, e, Faded(b.slots[p]), debuffs);
      }
    case DispelArm =>
    case UnknownArm =>
  }

  /** One cast of such a run. */
  lemma FewStep(b: Book, c: Cast, debuffs: set<uint>, s: Stat)
    requires Shaped(b) && Orderly(b.slots) && BandWithin(b.slots, debuffs) && |debuffs| <= 15
    requires Castable(Found(b, c).slots, c.effect) && (IsDebuff(c.effect.status) ==> c.effect.status in debuffs)
    requires c.behind.0.status != c.effect.status && c.behind.1.status != c.effect.status
    ensures Inside(Found(b, c).slots, c.effect.status, IsDebuff(c.effect.status))
    ensures Orderly(After(b, c).slots) && BandWithin(After(b, c).slots, debuffs)
  {
    var f := Found(b, c);
    FoundKeeps(b, c, s, 0);
    MeanwhileIs(b.slots, c.behind);
    if IsDebuff(c.effect.status) {
      FewLeaveRoom(f.slots, c.effect.status, debuffs);
    }
    ApplyKeepsOrder(f, c.effect, c.lucky, c.foreign, c.now);
    ApplyWithin(f, c.effect, c.lucky, c.foreign, c.now, debuffs);
  }

  /** No cast of the run carries the move speed past 32 bits. */
  ghost predicate NoneWraps(b: Book, casts: seq<Cast>)
    requires Shaped(b) && Legal(b, casts)
    decreases |casts|
  {
    casts == [] ||
    (var e := casts[0].effect;
     && (StatOf(e.status) == Some(MoveSpeed) ==>
           !SumWraps(Found(b, casts[0]).slots, e, IsDebuff(e.status), b.stats[MoveSpeed]))
     && NoneWraps(After(b, casts[0]), casts[1..]))
  }

  lemma {:induction false} FewAreContained(b: Book, casts: seq<Cast>, debuffs: set<uint>, s: Stat)
    requires Shaped(b) && Orderly(b.slots) && Legal(b, casts)
    requires FewDebuffs(casts, debuffs) && BandWithin(b.slots, debuffs)
    requires s == MoveSpeed ==> NoneWraps(b, casts)
    ensures AllContained(b, casts, s)
    decreases |casts|
  {
    if casts != [] {
      FewStep(b, casts[0], debuffs, s);
      FewAreContained(After(b, casts[0]), casts[1..], debuffs, s);
    }
  }

  lemma MeanwhileIs(slots: seq<Slot>, behind: (Slot, Slot))
    requires |slots| == SLOTS
    ensures forall i :: 0 <= i < SLOTS ==>
              Meanwhile(slots, behind)[i]
              == if i < DECLARED_SLOTS then slots[i] else if i == 30 then behind.0 else behind.1
  {
  }

  /**
   * The ledger over every run in which at most fifteen different debuffs are cast and the memory behind the table never
   * reads as the status being cast, whatever else it holds; for move speed if none of its casts wraps.
   */
  lemma LedgerWithFewDebuffs(b: Book, casts: seq<Cast>, debuffs: set<uint>, s: Stat)
    requires IsUnbuffed(b) && Legal(b, casts) && FewDebuffs(casts, debuffs)
    requires s == MoveSpeed ==> NoneWraps(b, casts)
    ensures Run(b, casts).stats[s] == Wrap(b.stats[s] + Total(Run(b, casts).slots, s))
  {
    StartIsBalanced(b, s);
    FewAreContained(b, casts, debuffs, s);
    LedgerOverRuns(b, casts, s);
  }

  // ------------------------------------------------ a word that happens to read as a status

  /** Defense down by ten. */
  function Weaken(behind: (Slot, Slot)): Cast {
    Cast(Effect(21, 21, 10, 0, 60, 0), true, None, 0, behind)
  }

  /** The state the status leaves when it takes slot 30. */
  lemma WeakenTakesSlot30(b: Book, c: Cast)
    requires Shaped(b) && c == Weaken(c.behind) && PositionFor(Found(b, c).slots, 21, true) == 30
    requires b.stats[Defense] == 100 && c.behind.0.status in {0, 21} && c.behind.0.value == 0
    ensures Castable(Found(b, c).slots, c.effect) && After(b, c).stats[Defense] == 90
    ensures Total(After(b, c).slots, Defense) == Total(b.slots, Defense)
  {
    var f := Found(b, c);
    MeanwhileIs(b.slots, c.behind);
    TallyIgnoresTimes(b.slots, f.slots, Defense, Declared(b.slots));
    WeakenEntry(f.slots, c.effect);
    TallyOfUpdate(f.slots, Defense, 30, Slot(21, 21, 10, 60, 0), Declared(f.slots));
    assert ArmOf(21) == StatArm(Defense) && IsDebuff(21);
  }

  lemma WeakenEntry(slots: seq<Slot>, e: Effect)
    requires |slots| == SLOTS && e == Effect(21, 21, 10, 0, 60, 0) && PositionFor(slots, 21, true) == 30
    requires slots[30].status in {0, 21} && slots[30].value == 0
    ensures StatEntry(slots, Defense, e, true, true, 100, 0)
         == Entry(slots[30 := Slot(21, 21, 10, 60, 0)], 90, 30, true)
  {
  }

  /**
   * One cast is enough if the first word behind the table, which status 35 itself sets, reads as the status: the
   * defense falls and no declared slot knows of it.
   */
  lemma WordBehindTakesTheCast(b: Book, c: Cast)
    requires IsUnbuffed(b) && b.stats[Defense] == 100
    requires c == Weaken(c.behind) && c.behind.0.status == 21 && c.behind.0.value == 0
    ensures Castable(Found(b, c).slots, c.effect)
    ensures After(b, c).stats[Defense] == 90 && Total(After(b, c).slots, Defense) == 0
  {
    var slots := Found(b, c).slots;
    MeanwhileIs(b.slots, c.behind);
    FirstWithIs(slots, 21, FIRST_DEBUFF, SLOTS, 30);
    UnusedTally(b.slots, Defense, Declared(b.slots));
    WeakenTakesSlot30(b, c);
  }

  // ------------------------------------------------ sixteen debuffs

  /** Fifteen ailments. */
  function Ailment(k: nat): uint
    requires k < 15
  {
    if k < 5 then 7 + k else if k < 10 then 25 + k else if k < 14 then 67 + k else 86
  }

  function Afflict(k: nat): Cast
    requires k < 15
  {
    Cast(Effect(Ailment(k), 0, 0, 0, 60, 0), true, None, 0, (EMPTY_SLOT, EMPTY_SLOT))
  }

  /** Only the first k ailments are in the declared slots, one after the other. */
  ghost predicate Afflicted(slots: seq<Slot>, k: nat)
    requires k <= 15
  {
    && |slots| == SLOTS
    && (forall z :: 0 <= z < FIRST_DEBUFF ==> slots[z].status == 0)
    && (forall z :: FIRST_DEBUFF <= z < DECLARED_SLOTS ==>
          slots[z].status == if z < FIRST_DEBUFF + k then Ailment(z - FIRST_DEBUFF) else 0)
  }

  lemma AilmentIs(k: nat)
    requires k < 15
    ensures ArmOf(Ailment(k)) == AilmentArm && IsDebuff(Ailment(k)) && StatOf(Ailment(k)) == None
    ensures Ailment(k) != 0 && Ailment(k) != 21
  {
  }

  lemma FreePosition(slots: seq<Slot>, status: uint, p: nat)
    requires |slots| == SLOTS && status != 0 && FIRST_DEBUFF <= p < SLOTS && slots[p].status == 0
    requires forall z :: FIRST_DEBUFF <= z < SLOTS ==> slots[z].status != status
    requires forall z :: FIRST_DEBUFF <= z < p ==> slots[z].status != 0
    ensures PositionFor(slots, status, true) == p
  {
    assert FirstWith(slots, status, FIRST_DEBUFF, SLOTS) == SLOTS;
    FirstWithIs(slots, 0, FIRST_DEBUFF, SLOTS, p);
  }

  lemma AfflictPosition(b: Book, k: nat)
    requires Shaped(b) && k < 15 && Afflicted(b.slots, k)
    ensures PositionFor(Found(b, Afflict(k)).slots, Ailment(k), true) == FIRST_DEBUFF + k
  {
    MeanwhileIs(b.slots, (EMPTY_SLOT, EMPTY_SLOT));
    AilmentIs(k);
    FreePosition(Found(b, Afflict(k)).slots, Ailment(k), FIRST_DEBUFF + k);
  }

  lemma OneMoreAilment(slots: seq<Slot>, behind: (Slot, Slot), k: nat, slot: Slot)
    requires k < 15 && Afflicted(slots, k) && slot.status == Ailment(k)
    ensures Afflicted(Meanwhile(slots, behind)[FIRST_DEBUFF + k := slot], k + 1)
  {
    MeanwhileIs(slots, behind);
  }

  lemma AfflictTakesNext(b: Book, k: nat)
    requires Shaped(b) && k < 15 && Afflicted(b.slots, k)
    ensures Castable(Found(b, Afflict(k)).slots, Afflict(k).effect)
    ensures var r := After(b, Afflict(k)); Afflicted(r.slots, k + 1) && r.stats == b.stats
  {
    var c := Afflict(k);
    AilmentIs(k);
    AfflictPosition(b, k);
    OneMoreAilment(b.slots, c.behind, k, SlotFor(c.effect, Ailment(k), 0, 0));
  }

  /** The ailments from k on, then defense down. */
  function Casts(k: nat): seq<Cast>
    requires k <= 15
    decreases 15 - k
  {
    if k == 15 then [Weaken((EMPTY_SLOT, EMPTY_SLOT))] else [Afflict(k)] + Casts(k + 1)
  }

  lemma {:induction false} AfflictionsRun(b: Book, k: nat)
    requires Shaped(b) && k <= 15 && Afflicted(b.slots, k) && b.stats[Defense] == 100
    ensures |Casts(k)| == 16 - k && Legal(b, Casts(k))
    ensures var r := Run(b, Casts(k)); r.stats[Defense] == 90 && Total(r.slots, Defense) == 0
    decreases 15 - k
  {
    if k == 15 {
      LastOfSixteen(b);
    } else {
      AfflictTakesNext(b, k);
      var b1 := After(b, Afflict(k));
      AfflictionsRun(b1, k + 1);
      assert Casts(k)[1..] == Casts(k + 1);
      RunOfMore(b, b1, Casts(k));
    }
  }

  lemma AilmentsAreNoStat(slots: seq<Slot>, n: nat)
    requires Afflicted(slots, 15) && n <= DECLARED_SLOTS
    ensures Tally(slots, Defense, n) == 0
  {
    if n > 0 {
      AilmentsAreNoStat(slots, n - 1);
      if n > FIRST_DEBUFF {
        AilmentIs(n - 1 - FIRST_DEBUFF);
      }
    }
  }

  lemma LastOfSixteen(b: Book)
    requires Shaped(b) && Afflicted(b.slots, 15) && b.stats[Defense] == 100
    ensures |Casts(15)| == 1 && Legal(b, Casts(15))
    ensures var r := Run(b, Casts(15)); r.stats[Defense] == 90 && Total(r.slots, Defense) == 0
  {
    var c := Weaken((EMPTY_SLOT, EMPTY_SLOT));
    var slots := Found(b, c).slots;
    MeanwhileIs(b.slots, c.behind);
    forall z | FIRST_DEBUFF <= z < DECLARED_SLOTS
      ensures slots[z].status != 0 && slots[z].status != 21
    {
      AilmentIs(z - FIRST_DEBUFF);
    }
    FreePosition(slots, 21, 30);
    AilmentsAreNoStat(b.slots, Declared(b.slots));
    WeakenTakesSlot30(b, c);
    assert Casts(15)[0] == c && Casts(15)[1..] == [];
    RunOfMore(b, After(b, c), Casts(15));
  }

  /**
   * Sixteen debuffs are too many even with nothing but zeros behind the table: the last goes to slot 30, the defense
   * falls by ten and no declared slot accounts for it.
   */
  lemma SixteenDebuffsOverrun(b: Book)
    requires IsUnbuffed(b) && b.stats[Defense] == 100
    ensures |Casts(0)| == 16 && Legal(b, Casts(0))
    ensures var r := Run(b, Casts(0)); r.stats[Defense] == 90 && Total(r.slots, Defense) == 0
  {
    AfflictionsRun(b, 0);
  }
}
