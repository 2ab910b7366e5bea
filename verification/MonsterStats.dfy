/** The from-scratch stat computations of World_Server/MonsterStats.cpp, set against the incremental ones. */
module MonsterStats {
  import opened Wrappers
  import opened BuffLedger
  import opened BuffRuns

  /** The statuses of one stat: two upward ones and a downward one. */
  datatype Trio = Trio(first: uint, second: uint, down: uint) {
    predicate Up(status: uint) {
      status == first || status == second
    }

    predicate Has(status: uint) {
      Up(status) || status == down
    }

    ghost predicate Distinct() {
      first != 0 && second != 0 && first != second && down != 0 && !Up(down)
    }
  }

  function TrioOf(s: Stat): Trio {
    match s
    case Attack => Trio(18, 48, 19)
    case Defense => Trio(20, 49, 21)
    case Accuracy => Trio(24, 51, 25)
    case MagicDefense => Trio(22, 50, 23)
    case Dodge => Trio(28, 53, 29)
    case MoveSpeed => Trio(14, 46, 15)
  }

  lemma TrioIsStat(status: uint, s: Stat)
    ensures StatOf(status) == Some(s) <==> TrioOf(s).Has(status)
    ensures TrioOf(s).Has(status) ==> (IsDebuff(status) <==> status == TrioOf(s).down)
    ensures TrioOf(s).Distinct()
  {
  }

  // ------------------------------------------------ the recomputation

  /** The NPC table row and equipment a monster's own stats come from; it is not a summon. */
  datatype Npc = Npc(
    atkPower: uint, defense: uint, hitRate: uint, magicDefense: uint, dodge: uint, runSpeed: uint, walkSpeed: uint,
    running: bool, weaponAttack: Option<uint>, subWeaponDefense: Option<uint>)

  function BaseStat(npc: Npc, s: Stat): uint {
    match s
    case Attack => if npc.weaponAttack.Some? then Wrap(npc.atkPower + npc.weaponAttack.value) else npc.atkPower
    case Defense => if npc.subWeaponDefense.Some? then Wrap(npc.defense + npc.subWeaponDefense.value) else npc.defense
    case Accuracy => npc.hitRate
    case MagicDefense => npc.magicDefense
    case Dodge => if npc.dodge == 0 then npc.defense else npc.dodge
    case MoveSpeed => if npc.running then npc.runSpeed else npc.walkSpeed
  }

  predicate IsPointer(p: nat) {
    p == NO_SLOT || p < SLOTS
  }

  function ValueAt(slots: seq<Slot>, p: nat): uint
    requires |slots| == SLOTS && IsPointer(p)
  {
    if p == NO_SLOT then 0 else slots[p].value
  }

  /** `base += MagicStatus[up].Value; base -= MagicStatus[down].Value;` where the pointers are set. */
  function WithSlots(base: uint, slots: seq<Slot>, up: nat, down: nat): uint
    requires |slots| == SLOTS && IsPointer(up) && IsPointer(down)
  {
    Wrap(Wrap(base + ValueAt(slots, up)) - ValueAt(slots, down))
  }

  ghost predicate HasPointers(b: Book, s: Stat)
    requires Shaped(b)
  {
    IsPointer(b.up[s]) && IsPointer(b.down[s])
  }

  /** GetAttackPower, GetDefense, GetAccuracy, GetMagicDefense, GetDodge, GetMoveSpeed. */
  function Recompute(npc: Npc, b: Book, s: Stat): uint
    requires Shaped(b) && HasPointers(b, s)
  {
    WithSlots(BaseStat(npc, s), b.slots, b.up[s], b.down[s])
  }

  // ------------------------------------------------ pointers and slots

  /** What a status's slot stores, nothing if it has none. */
  function Worth(slots: seq<Slot>, status: uint, n: nat): uint
    requires n <= |slots|
  {
    var z := FirstWith(slots, status, 0, n);
    if z < n then slots[z].value else 0
  }

  lemma WorthOfMore(slots: seq<Slot>, status: uint, n: nat)
    requires 0 < n <= DECLARED_SLOTS && Orderly(slots) && status != 0
    ensures Worth(slots, status, n)
         == Worth(slots, status, n - 1) + if slots[n - 1].status == status then slots[n - 1].value else 0
  {
    FirstWithInParts(slots, status, 0, n - 1, n);
  }

  /** The tally of a stat is its two upward statuses' slots less its downward status's slot. */
  lemma {:induction false} TallyByStatus(slots: seq<Slot>, s: Stat, k: Trio, n: nat)
    requires Orderly(slots) && n <= DECLARED_SLOTS && k == TrioOf(s)
    ensures Tally(slots, s, n) == Worth(slots, k.first, n) + Worth(slots, k.second, n) - Worth(slots, k.down, n)
  {
    if n > 0 {
      TallyByStatus(slots, s, k, n - 1);
      TrioIsStat(slots[n - 1].status, s);
      WorthOfMore(slots, k.first, n);
      WorthOfMore(slots, k.second, n);
      WorthOfMore(slots, k.down, n);
    }
  }

  /** No declared slot holds the status. */
  ghost predicate Unused(slots: seq<Slot>, status: uint)
    requires |slots| == SLOTS
  {
    forall i :: 0 <= i < DECLARED_SLOTS ==> slots[i].status != status
  }

  /** The buff pointer names a slot of the stat, and is empty only when no such slot is in use. */
  ghost predicate UpRight(slots: seq<Slot>, up: nat, k: Trio)
    requires |slots| == SLOTS
  {
    if up == NO_SLOT then Unused(slots, k.first) && Unused(slots, k.second)
    else up < DECLARED_SLOTS && k.Up(slots[up].status)
  }

  ghost predicate DownRight(slots: seq<Slot>, down: nat, k: Trio)
    requires |slots| == SLOTS
  {
    if down == NO_SLOT then Unused(slots, k.down) else down < DECLARED_SLOTS && slots[down].status == k.down
  }

  ghost predicate PointersRight(b: Book, s: Stat)
    requires Shaped(b)
  {
    UpRight(b.slots, b.up[s], TrioOf(s)) && DownRight(b.slots, b.down[s], TrioOf(s))
  }

  lemma WorthAt(slots: seq<Slot>, p: nat)
    requires Orderly(slots) && p < DECLARED_SLOTS && slots[p].status != 0
    ensures Worth(slots, slots[p].status, Declared(slots)) == slots[p].value
  {
    FirstWithIs(slots, slots[p].status, 0, Declared(slots), p);
  }

  lemma WorthOfUnused(slots: seq<Slot>, status: uint)
    requires |slots| == SLOTS && Unused(slots, status)
    ensures Worth(slots, status, Declared(slots)) == 0
  {
  }

  /** What the upward status the pointer does not name stores. */
  function Overlooked(slots: seq<Slot>, up: nat, k: Trio): uint
    requires |slots| == SLOTS && IsPointer(up)
  {
    if up == NO_SLOT then 0
    else if slots[up].status == k.first then Worth(slots, k.second, Declared(slots))
    else Worth(slots, k.first, Declared(slots))
  }

  lemma UpSum(slots: seq<Slot>, up: nat, k: Trio)
    requires Orderly(slots) && UpRight(slots, up, k) && k.Distinct()
    ensures Worth(slots, k.first, Declared(slots)) + Worth(slots, k.second, Declared(slots))
         == ValueAt(slots, up) + Overlooked(slots, up, k)
  {
    if up == NO_SLOT {
      WorthOfUnused(slots, k.first);
      WorthOfUnused(slots, k.second);
    } else {
      WorthAt(slots, up);
    }
  }

  lemma DownSum(slots: seq<Slot>, down: nat, k: Trio)
    requires Orderly(slots) && DownRight(slots, down, k) && k.Distinct()
    ensures Worth(slots, k.down, Declared(slots)) == ValueAt(slots, down)
  {
    if down == NO_SLOT {
      WorthOfUnused(slots, k.down);
    } else {
      WorthAt(slots, down);
    }
  }

  lemma WrapSteps(stat: uint, start: uint, total: int, up: uint, over: uint, down: uint)
    requires stat == Wrap(start + total) && total == up + over - down
    ensures stat == Wrap(Wrap(start + up) - down) <==> over == 0
  {
    SameWrapped(start + up);
    SameShifted(Wrap(start + up), start + up, 0 - down);
    assert Wrap(Wrap(start + up) - down) == Wrap(start + up - down);
  }

  lemma SumsAgreeIff(slots: seq<Slot>, value: uint, base: uint, up: nat, down: nat, k: Trio, total: int)
    requires Orderly(slots) && k.Distinct() && UpRight(slots, up, k) && DownRight(slots, down, k)
    requires total == Worth(slots, k.first, Declared(slots)) + Worth(slots, k.second, Declared(slots))
                      - Worth(slots, k.down, Declared(slots))
    requires value == Wrap(base + total)
    ensures value == WithSlots(base, slots, up, down) <==> Overlooked(slots, up, k) == 0
  {
    UpSum(slots, up, k);
    DownSum(slots, down, k);
    WrapSteps(value, base, total, ValueAt(slots, up), Overlooked(slots, up, k), ValueAt(slots, down));
  }

  /** The cached stat agrees with the recomputation exactly when the other upward status is worth nothing. */
  lemma SlotsAgreeIff(slots: seq<Slot>, value: uint, base: uint, up: nat, down: nat, s: Stat)
    requires Orderly(slots) && UpRight(slots, up, TrioOf(s)) && DownRight(slots, down, TrioOf(s))
    requires value == Wrap(base + Total(slots, s))
    ensures value == WithSlots(base, slots, up, down) <==> Overlooked(slots, up, TrioOf(s)) == 0
  {
    var k := TrioOf(s);
    assert k.Distinct() by {
      TrioIsStat(0, s);
    }
    TallyByStatus(slots, s, k, Declared(slots));
    SumsAgreeIff(slots, value, base, up, down, k, Total(slots, s));
  }

  // ------------------------------------------------ one application

  lemma ForeignKeepsPointers(slots: seq<Slot>, up: nat, down: nat, k: Trio, p: nat, slot: Slot)
    requires |slots| == SLOTS && p < SLOTS && UpRight(slots, up, k) && DownRight(slots, down, k)
    requires p >= DECLARED_SLOTS || (!k.Has(slot.status) && !k.Has(slots[p].status))
    ensures UpRight(slots[p := slot], up, k) && DownRight(slots[p := slot], down, k)
  {
  }

  lemma UpEntryKeepsPointers(slots: seq<Slot>, down: nat, k: Trio, p: nat, slot: Slot)
    requires |slots| == SLOTS && p < DECLARED_SLOTS && DownRight(slots, down, k) && k.Distinct()
    requires k.Up(slot.status) && (slots[p].status == slot.status || slots[p].status == 0)
    ensures UpRight(slots[p := slot], p, k) && DownRight(slots[p := slot], down, k)
  {
  }

  lemma DownEntryKeepsPointers(slots: seq<Slot>, up: nat, k: Trio, p: nat, slot: Slot)
    requires |slots| == SLOTS && p < DECLARED_SLOTS && UpRight(slots, up, k) && k.Distinct()
    requires slot.status == k.down && (slots[p].status == slot.status || slots[p].status == 0)
    ensures UpRight(slots[p := slot], up, k) && DownRight(slots[p := slot], p, k)
  {
  }

  lemma SameStatusesSamePointers(slots: seq<Slot>, slots': seq<Slot>, up: nat, down: nat, k: Trio)
    requires |slots| == |slots'| == SLOTS && UpRight(slots, up, k) && DownRight(slots, down, k)
    requires forall i :: 0 <= i < DECLARED_SLOTS ==> slots'[i].status == slots[i].status
    ensures UpRight(slots', up, k) && DownRight(slots', down, k)
  {
  }

  lemma OtherKeepsPointers(b: Book, e: Effect, debuff: bool, stored: Option<Slot>, s: Stat)
    requires Shaped(b) && PointersRight(b, s) && StatOf(e.status) == None
    requires stored.Some? ==> stored.value.status == e.status
    ensures PointersRight(ApplyOther(b, e, debuff, stored), s)
  {
    var p := PositionFor(b.slots, e.status, debuff);
    TrioIsStat(e.status, s);
    TrioIsStat(0, s);
    if stored.Some? && p != NO_SLOT {
      ForeignKeepsPointers(b.slots, b.up[s], b.down[s], TrioOf(s), p, stored.value);
    }
  }

  lemma OwnKeepsPointers(b: Book, e: Effect, debuff: bool, lucky: bool, now: int, s: Stat)
    requires Shaped(b) && PointersRight(b, s)
    requires StatOf(e.status) == Some(s) && debuff == IsDebuff(e.status) && Inside(b.slots, e.status, debuff)
    requires s == MoveSpeed ==> PositionFor(b.slots, e.status, debuff) != NO_SLOT
    ensures PointersRight(ApplyStat(b, s, e, debuff, lucky, now), s)
  {
    var n := StatEntry(b.slots, s, e, debuff, lucky, b.stats[s], now);
    TrioIsStat(e.status, s);
    if n.recorded {
      var slot := n.slots[n.position];
      if debuff {
        DownEntryKeepsPointers(b.slots, b.up[s], TrioOf(s), n.position, slot);
      } else {
        UpEntryKeepsPointers(b.slots, b.down[s], TrioOf(s), n.position, slot);
      }
    }
  }

  lemma RestKeepsPointers(b: Book, t: Stat, e: Effect, debuff: bool, lucky: bool, now: int, s: Stat)
    requires Shaped(b) && PointersRight(b, s) && s != t && StatOf(e.status) == Some(t)
    requires t == MoveSpeed ==> PositionFor(b.slots, e.status, debuff) != NO_SLOT
    ensures PointersRight(ApplyStat(b, t, e, debuff, lucky, now), s)
  {
    var n := StatEntry(b.slots, t, e, debuff, lucky, b.stats[t], now);
    TrioIsStat(e.status, s);
    TrioIsStat(0, s);
    if n.recorded {
      ForeignKeepsPointers(b.slots, b.up[s], b.down[s], TrioOf(s), n.position, n.slots[n.position]);
    }
  }

  lemma FadingKeepsPointers(b: Book, e: Effect, debuff: bool, s: Stat)
    requires Shaped(b) && PointersRight(b, s)
    ensures PointersRight(b.(slots := FadeTo(b.slots, DECLARED_SLOTS)), s)
    ensures
      var p := PositionFor(b.slots, e.status, debuff);
      p != NO_SLOT ==> PointersRight(ApplyOther(b, e, debuff, Some(Faded(b.slots[p]))), s)
  {
    SameStatusesSamePointers(b.slots, FadeTo(b.slots, DECLARED_SLOTS), b.up[s], b.down[s], TrioOf(s));
    var p := PositionFor(b.slots, e.status, debuff);
    if p != NO_SLOT {
      SameStatusesSamePointers(b.slots, b.slots[p := Faded(b.slots[p])], b.up[s], b.down[s], TrioOf(s));
    }
  }

  lemma ApplyKeepsPointers(b: Book, e: Effect, lucky: bool, foreign: Option<uint>, now: int, s: Stat)
    requires Shaped(b) && Castable(b.slots, e) && PointersRight(b, s)
    requires StatOf(e.status) == Some(s) ==> Inside(b.slots, e.status, IsDebuff(e.status))
    ensures PointersRight(Apply(b, e, lucky, foreign, now), s)
  {
    var debuff := IsDebuff(e.status);
    match ArmOf(e.status)
    case StatArm(t) =>
      if s == t {
        OwnKeepsPointers(b, e, debuff, lucky, now, s);
      } else {
        RestKeepsPointers(b, t, e, debuff, lucky, now, s);
      }
    case AilmentArm =>
      OtherKeepsPointers(b, e, debuff, if lucky then Some(SlotFor(e, e.status, 0, now)) else None, s);
    case OtherArm =>
      OtherKeepsPointers(b, e, debuff,
                         if foreign.Some? then Some(SlotFor(e, OtherBuff(e), foreign.value, now)) else None, s);
    case PurifyArm => FadingKeepsPointers(b, e, debuff, s);
    case DispelArm => FadingKeepsPointers(b, e, debuff, s);
    case UnknownArm =>
  }

  lemma ApplyKeepsUnused(b: Book, e: Effect, lucky: bool, foreign: Option<uint>, now: int, status: uint)
    requires Shaped(b) && Castable(b.slots, e) && Unused(b.slots, status) && e.status != status
    ensures Unused(Apply(b, e, lucky, foreign, now).slots, status)
  {
    var p := PositionFor(b.slots, e.status, IsDebuff(e.status));
    var r := Apply(b, e, lucky, foreign, now);
    match ArmOf(e.status)
    case StatArm(t) =>
    case AilmentArm =>
    case OtherArm =>
    case PurifyArm =>
    case DispelArm =>
    case UnknownArm =>
  }

  // ------------------------------------------------ runs

  lemma {:induction false} RunKeepsPointers(b: Book, casts: seq<Cast>, s: Stat)
    requires Shaped(b) && Legal(b, casts) && PointersRight(b, s) && AllContained(b, casts, s)
    ensures PointersRight(Run(b, casts), s)
    decreases |casts|
  {
    if casts != [] {
      var c := casts[0];
      MeanwhileIsElsewhere(b.slots, c.behind);
      SameStatusesSamePointers(b.slots, Found(b, c).slots, b.up[s], b.down[s], TrioOf(s));
      ApplyKeepsPointers(Found(b, c), c.effect, c.lucky, c.foreign, c.now, s);
      RunKeepsPointers(After(b, c), casts[1..], s);
    }
  }

  lemma MeanwhileIsElsewhere(slots: seq<Slot>, behind: (Slot, Slot))
    requires |slots| == SLOTS
    ensures forall i :: 0 <= i < DECLARED_SLOTS ==> Meanwhile(slots, behind)[i] == slots[i]
  {
  }

  lemma {:induction false} RunKeepsUnused(b: Book, casts: seq<Cast>, status: uint)
    requires Shaped(b) && Legal(b, casts) && Unused(b.slots, status)
    requires forall i :: 0 <= i < |casts| ==> casts[i].effect.status != status
    ensures Unused(Run(b, casts).slots, status)
    decreases |casts|
  {
    if casts != [] {
      var c := casts[0];
      MeanwhileIsElsewhere(b.slots, c.behind);
      ApplyKeepsUnused(Found(b, c), c.effect, c.lucky, c.foreign, c.now, status);
      RunKeepsUnused(After(b, c), casts[1..], status);
    }
  }

  lemma StartHasPointers(b: Book, s: Stat)
    requires IsUnbuffed(b)
    ensures PointersRight(b, s)
  {
    TrioIsStat(0, s);
  }

  /** Over every contained run the cache agrees with the recomputation exactly when nothing upward is overlooked. */
  lemma CacheOverRuns(npc: Npc, b: Book, casts: seq<Cast>, s: Stat)
    requires IsUnbuffed(b) && Legal(b, casts) && AllContained(b, casts, s)
    requires b.stats[s] == BaseStat(npc, s)
    ensures PointersRight(Run(b, casts), s) && HasPointers(Run(b, casts), s)
    ensures Run(b, casts).stats[s] == Recompute(npc, Run(b, casts), s)
            <==> Overlooked(Run(b, casts).slots, Run(b, casts).up[s], TrioOf(s)) == 0
  {
    StartHasPointers(b, s);
    RunKeepsPointers(b, casts, s);
    OrderOverRuns(b, casts);
    LedgerOverRuns(b, casts, s);
    var r := Run(b, casts);
    SlotsAgreeIff(r.slots, r.stats[s], BaseStat(npc, s), r.up[s], r.down[s], s);
  }

  lemma NothingOverlooked(slots: seq<Slot>, up: nat, k: Trio, never: uint)
    requires |slots| == SLOTS && UpRight(slots, up, k) && k.Up(never) && Unused(slots, never)
    ensures Overlooked(slots, up, k) == 0
  {
    WorthOfUnused(slots, never);
  }

  /** When only one of a stat's two upward statuses is ever cast, the cache always equals the recomputation. */
  lemma OneUpStatusAgrees(npc: Npc, b: Book, casts: seq<Cast>, s: Stat, never: uint)
    requires IsUnbuffed(b) && Legal(b, casts) && AllContained(b, casts, s)
    requires b.stats[s] == BaseStat(npc, s)
    requires TrioOf(s).Up(never) && forall i :: 0 <= i < |casts| ==> casts[i].effect.status != never
    ensures HasPointers(Run(b, casts), s)
    ensures Run(b, casts).stats[s] == Recompute(npc, Run(b, casts), s)
  {
    assert Unused(b.slots, never) by {
      TrioIsStat(0, s);
    }
    CacheOverRuns(npc, b, casts, s);
    RunKeepsUnused(b, casts, never);
    NothingOverlooked(Run(b, casts).slots, Run(b, casts).up[s], TrioOf(s), never);
  }

  // ------------------------------------------------ the two upward statuses together

  /** What a stat is worked out from: the row's number, with a weapon or shield, or what stands in for it. */
  lemma BaseIs(npc: Npc)
    requires npc.weaponAttack.Some? ==> npc.atkPower + npc.weaponAttack.value < U32
    requires npc.subWeaponDefense.Some? ==> npc.defense + npc.subWeaponDefense.value < U32
    ensures BaseStat(npc, Attack) - npc.atkPower == if npc.weaponAttack.Some? then npc.weaponAttack.value else 0
    ensures BaseStat(npc, Defense) - npc.defense == if npc.subWeaponDefense.Some? then npc.subWeaponDefense.value else 0
    ensures BaseStat(npc, Accuracy) == npc.hitRate && BaseStat(npc, MagicDefense) == npc.magicDefense
    ensures BaseStat(npc, Dodge) == if npc.dodge > 0 then npc.dodge else npc.defense
    ensures BaseStat(npc, MoveSpeed) == if npc.running then npc.runSpeed else npc.walkSpeed
  {
  }

  /** The slot kept for the upward direction is added to it, the one for the downward taken off. */
  lemma RecomputedIs(npc: Npc, b: Book, s: Stat, raised: int, lowered: int)
    requires Shaped(b) && HasPointers(b, s)
    requires if b.up[s] == 255 then raised == 0 else raised == b.slots[b.up[s]].value
    requires if b.down[s] == 255 then lowered == 0 else lowered == b.slots[b.down[s]].value
    requires lowered <= BaseStat(npc, s) + raised < U32
    ensures Recompute(npc, b, s) == BaseStat(npc, s) + raised - lowered
  {
    SlotsOnTop(BaseStat(npc, s), raised, lowered);
  }

  lemma SlotsOnTop(base: int, raised: int, lowered: int)
    requires 0 <= base && 0 <= raised && 0 <= lowered <= base + raised < U32
    ensures Wrap(Wrap(base + raised) - lowered) == base + raised - lowered
  {
  }

  const PLAIN_NPC := Npc(100, 0, 0, 0, 0, 0, 0, false, None, None)

  /** An attack charm of the given status and amount, with anything at all behind the table. */
  function Charm(status: uint, amount: uint, behind: (Slot, Slot)): Cast {
    Cast(Effect(status, 18, amount, 0, 60, 0), true, None, 0, behind)
  }

  /** The table after an attack charm into the given slot. */
  function Charmed(b: Book, c: Cast, p: nat): Book
    requires Shaped(b) && p < DECLARED_SLOTS && c.effect.value1 + b.stats[Attack] < U32
  {
    Found(b, c).(slots := Found(b, c).slots[p := Slot(c.effect.status, 18, c.effect.value1, 60, 0)],
                 stats := b.stats[Attack := b.stats[Attack] + c.effect.value1], up := b.up[Attack := p])
  }

  lemma FirstFreePosition(slots: seq<Slot>, status: uint, p: nat)
    requires |slots| == SLOTS && status != 0 && p < FIRST_DEBUFF && slots[p].status == 0
    requires forall i :: 0 <= i < FIRST_DEBUFF ==> slots[i].status != status
    requires forall i :: 0 <= i < p ==> slots[i].status != 0
    ensures PositionFor(slots, status, false) == p
  {
    assert FirstWith(slots, status, 0, FIRST_DEBUFF) == FIRST_DEBUFF;
    FirstWithIs(slots, 0, 0, FIRST_DEBUFF, p);
  }

  lemma FlatEntry(slots: seq<Slot>, e: Effect, p: nat, current: uint)
    requires |slots| == SLOTS && PositionFor(slots, e.status, false) == p < FIRST_DEBUFF
    requires slots[p].status == 0 != e.status
    requires e.value2 == 0 == e.bonus && 0 < e.value1 && e.value1 + current < U32
    ensures StatEntry(slots, Attack, e, false, true, current, 0)
         == Entry(slots[p := Slot(e.status, e.buff, e.value1, e.duration, 0)], current + e.value1, p, true)
  {
  }

  /** An attack charm of a status not held takes the first free slot and adds its amount. */
  lemma CharmTakesFirstFree(b: Book, c: Cast, p: nat)
    requires Shaped(b) && c == Charm(c.effect.status, c.effect.value1, c.behind)
    requires c.effect.status == 18 || c.effect.status == 48
    requires 0 < c.effect.value1 && c.effect.value1 + b.stats[Attack] < U32
    requires p < FIRST_DEBUFF && forall i :: 0 <= i < FIRST_DEBUFF ==> b.slots[i].status != c.effect.status
    requires b.slots[p].status == 0 && forall i :: 0 <= i < p ==> b.slots[i].status != 0
    ensures Castable(Found(b, c).slots, c.effect) && After(b, c) == Charmed(b, c, p)
  {
    MeanwhileIsElsewhere(b.slots, c.behind);
    FirstFreePosition(Found(b, c).slots, c.effect.status, p);
    FlatEntry(Found(b, c).slots, c.effect, p, b.stats[Attack]);
    assert ArmOf(c.effect.status) == StatArm(Attack) && !IsDebuff(c.effect.status);
  }

  lemma CharmedSlots(b: Book, c: Cast, p: nat)
    requires Shaped(b) && p < DECLARED_SLOTS && c.effect.value1 + b.stats[Attack] < U32
    ensures forall i :: 0 <= i < DECLARED_SLOTS ==>
              Charmed(b, c, p).slots[i]
              == if i == p then Slot(c.effect.status, 18, c.effect.value1, 60, 0) else b.slots[i]
  {
    MeanwhileIsElsewhere(b.slots, c.behind);
  }

  /** Two attack charms of different statuses on an attack of 100. */
  function BothCharms(b: Book, behind: (Slot, Slot), behind': (Slot, Slot)): Book
    requires Shaped(b) && b.stats[Attack] == 100
  {
    Charmed(Charmed(b, Charm(18, 10, behind), 0), Charm(48, 5, behind'), 1)
  }

  lemma BothCharmsRun(b: Book, casts: seq<Cast>)
    requires IsUnbuffed(b) && b.stats[Attack] == 100 && |casts| == 2
    requires casts[0] == Charm(18, 10, casts[0].behind) && casts[1] == Charm(48, 5, casts[1].behind)
    ensures Legal(b, casts) && Run(b, casts) == BothCharms(b, casts[0].behind, casts[1].behind)
  {
    var b1 := Charmed(b, casts[0], 0);
    CharmTakesFirstFree(b, casts[0], 0);
    CharmedSlots(b, casts[0], 0);
    CharmTakesFirstFree(b1, casts[1], 1);
    var rest := casts[1..];
    assert rest[0] == casts[1] && rest[1..] == [];
    RunOfMore(b1, Charmed(b1, casts[1], 1), rest);
    RunOfMore(b, b1, casts);
  }

  lemma BothCharmsRecomputed(b: Book, behind: (Slot, Slot), behind': (Slot, Slot))
    requires IsUnbuffed(b) && b.stats[Attack] == 100
    ensures var r := BothCharms(b, behind, behind');
            r.stats[Attack] == 115 && HasPointers(r, Attack) && Recompute(PLAIN_NPC, r, Attack) == 105
  {
    var r := BothCharms(b, behind, behind');
    CharmedSlots(Charmed(b, Charm(18, 10, behind), 0), Charm(48, 5, behind'), 1);
    assert r.up[Attack] == 1 && r.down[Attack] == NO_SLOT && r.slots[1].value == 5;
  }

  /** Statuses 18 and 48 in turn: the cache counts both, the recomputation only the later one. */
  lemma TwoUpStatusesDisagree(b: Book, casts: seq<Cast>)
    requires IsUnbuffed(b) && b.stats[Attack] == 100 && |casts| == 2
    requires casts[0] == Charm(18, 10, casts[0].behind) && casts[1] == Charm(48, 5, casts[1].behind)
    ensures Legal(b, casts)
    ensures var r := Run(b, casts);
            r.stats[Attack] == 115 && HasPointers(r, Attack) && Recompute(PLAIN_NPC, r, Attack) == 105
  {
    BothCharmsRun(b, casts);
    BothCharmsRecomputed(b, casts[0].behind, casts[1].behind);
  }
}
