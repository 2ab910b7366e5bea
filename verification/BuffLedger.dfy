/** Buff and debuff slots of a character: CheckABuffs and GetBuffValue of World_Server/Buff.cpp. */
module BuffLedger {
  import opened Wrappers

  const U32: int := 0x1_0000_0000

  /** `UINT` */
  type uint = n: int | 0 <= n < 0x1_0000_0000

  function Wrap(n: int): uint {
    n % U32
  }

  /** How far the search loops look. */
  const SLOTS: nat := 32
  /** Slots below this one hold buffs, the others debuffs. */
  const FIRST_DEBUFF: nat := 15
  /** The entries MagicStatus is declared with; what lies behind them belongs to other fields. */
  const DECLARED_SLOTS: nat := 30
  const NO_SLOT: nat := 0xff

  /** One entry of MagicStatus. */
  datatype Slot = Slot(status: uint, buff: uint, value: uint, duration: uint, buffTime: int)

  const EMPTY_SLOT := Slot(0, 0, 0, 0, 0)

  datatype Stat = Attack | Defense | Accuracy | MagicDefense | Dodge | MoveSpeed

  /** The stat a status moves: two upward statuses and a downward one each. */
  function StatOf(status: uint): Option<Stat> {
    if status == 18 || status == 19 || status == 48 then Some(Attack)
    else if status == 20 || status == 21 || status == 49 then Some(Defense)
    else if status == 24 || status == 25 || status == 51 then Some(Accuracy)
    else if status == 22 || status == 23 || status == 50 then Some(MagicDefense)
    else if status == 28 || status == 29 || status == 53 then Some(Dodge)
    else if status == 14 || status == 15 || status == 46 then Some(MoveSpeed)
    else None
  }

  /** GetBuffValue's switch: which statuses go to the debuff slots. */
  predicate IsDebuff(status: uint) {
    || 7 <= status <= 11
    || status == 15 || status == 17 || status == 19 || status == 21 || status == 23
    || status == 25 || status == 27 || status == 29
    || 30 <= status <= 34
    || 37 <= status <= 39
    || status == 43 || status == 55 || status == 56
    || 58 <= status <= 80
    || status == 86 || status == 88 || status == 89
  }

  /** The case labels of CheckABuffs. */
  datatype Arm = StatArm(stat: Stat) | AilmentArm | OtherArm | PurifyArm | DispelArm | UnknownArm

  function ArmOf(status: uint): Arm {
    if StatOf(status).Some? then StatArm(StatOf(status).value)
    else if 7 <= status <= 11 || 30 <= status <= 34 || status in {55, 56, 58, 61, 71, 77, 78, 79, 80, 86, 88, 89}
    then AilmentArm
    else if status in {12, 13, 16, 17, 26, 27, 35, 36, 44, 45, 47, 52, 54, 83} then OtherArm
    else if status == 38 then PurifyArm
    else if status == 37 || status == 39 then DispelArm
    else UnknownArm
  }

  /** One status of a skill as it is cast; bonus is the INT bonus this skill and caster give. */
  datatype Effect = Effect(status: uint, buff: uint, value1: uint, value2: uint, duration: uint, bonus: uint)

  datatype BuffValue = BuffValue(position: nat, newValue: uint, value: uint)

  // ------------------------------------------------ slot search and stat arithmetic

  /** The first slot of [lo, hi) with the given status, or hi. */
  function FirstWith(slots: seq<Slot>, status: uint, lo: nat, hi: nat): (z: nat)
    requires lo <= hi <= |slots|
    ensures lo <= z <= hi
    ensures z < hi ==> slots[z].status == status
    ensures forall k :: lo <= k < z ==> slots[k].status != status
    decreases hi - lo
  {
    if lo == hi || slots[lo].status == status then lo else FirstWith(slots, status, lo + 1, hi)
  }

  function BandStart(debuff: bool): nat {
    if debuff then FIRST_DEBUFF else 0
  }

  function BandEnd(debuff: bool): nat {
    if debuff then SLOTS else FIRST_DEBUFF
  }

  /** The slot the status already has, else the first free one of its band. */
  function PositionFor(slots: seq<Slot>, status: uint, debuff: bool): (p: nat)
    requires |slots| == SLOTS
    ensures p != NO_SLOT ==> BandStart(debuff) <= p < BandEnd(debuff) <= SLOTS
    ensures p != NO_SLOT ==> slots[p].status == status || slots[p].status == 0
  {
    var lo, hi := BandStart(debuff), BandEnd(debuff);
    var held := FirstWith(slots, status, lo, hi);
    if held < hi then held
    else
      var free := FirstWith(slots, 0, lo, hi);
      if free < hi then free else NO_SLOT
  }

  /** The stat without the status's own contribution. */
  function NormalValue(slot: Slot, status: uint, debuff: bool, current: uint): uint {
    if slot.status != status then current
    else if debuff then Wrap(current + slot.value)
    else Wrap(current - slot.value)
  }

  /** The amount the effect is worth on that stat: a percentage, a number with INT bonus, or both. */
  function AmountOf(e: Effect, normal: uint): uint {
    var percent: uint := if e.value2 > 0 then Wrap(normal * e.value2) / 100 else 0;
    if e.value1 > 0 then Wrap(percent + e.value1 + e.bonus) else percent
  }

  /** The stat after the effect; a buff that would wrap around answers zero. */
  function NewValueOf(debuff: bool, normal: uint, amount: uint, current: uint): uint {
    if debuff then Wrap(normal - amount)
    else if Wrap(amount + current) >= current then Wrap(normal + amount)
    else 0
  }

  function BuffValueOf(slots: seq<Slot>, e: Effect, debuff: bool, current: uint): (v: BuffValue)
    requires |slots| == SLOTS
    ensures v.position == PositionFor(slots, e.status, debuff)
  {
    var p := PositionFor(slots, e.status, debuff);
    if p == NO_SLOT then BuffValue(NO_SLOT, 0, 0)
    else
      var normal := NormalValue(slots[p], e.status, debuff, current);
      var amount := AmountOf(e, normal);
      BuffValue(p, NewValueOf(debuff, normal, amount, current), amount)
  }

  // ------------------------------------------------ one application

  /** What CheckABuffs reads and writes: slots, stats, and per stat the slot of its last buff and debuff. */
  datatype Book = Book(slots: seq<Slot>, stats: map<Stat, uint>, up: map<Stat, nat>, down: map<Stat, nat>)

  ghost predicate Shaped(b: Book) {
    && |b.slots| == SLOTS
    && forall s: Stat :: s in b.stats && s in b.up && s in b.down
  }

  function SlotFor(e: Effect, buff: uint, value: uint, now: int): Slot {
    Slot(e.status, buff, value, e.duration, now)
  }

  /** What the arms outside this model put into Buff: extra and shield damage their status, the others the buff. */
  function OtherBuff(e: Effect): uint {
    if e.status in {35, 36, 54, 83} then e.status else e.buff
  }

  function Put(b: Book, p: nat, s: Slot): Book
    requires p < |b.slots|
  {
    b.(slots := b.slots[p := s])
  }

  /** The move-speed arm has no guard, so its band must have a slot to give. */
  predicate Castable(slots: seq<Slot>, e: Effect)
    requires |slots| == SLOTS
  {
    e.status != 0 &&
    (StatOf(e.status) == Some(MoveSpeed) ==> PositionFor(slots, e.status, IsDebuff(e.status)) != NO_SLOT)
  }

  /** Whether a stat arm records: all but the attack arm roll for success, all but move speed refuse a zero. */
  predicate Records(s: Stat, lucky: bool, v: BuffValue) {
    (s == Attack || lucky) && (s == MoveSpeed || v.newValue != 0)
  }

  function Faded(s: Slot): Slot {
    s.(duration := 0, buffTime := 0)
  }

  function FadeTo(slots: seq<Slot>, n: nat): (r: seq<Slot>)
    requires n <= |slots|
    ensures |r| == |slots|
    ensures forall i :: 0 <= i < |r| ==> r[i] == if i < n then Faded(slots[i]) else slots[i]
  {
    seq(|slots|, i requires 0 <= i < |slots| => if i < n then Faded(slots[i]) else slots[i])
  }

  /** What a stat arm does to the slots and to its stat; without a record it does nothing. */
  datatype Entry = Entry(slots: seq<Slot>, value: uint, position: nat, recorded: bool)

  function StatEntry(slots: seq<Slot>, s: Stat, e: Effect, debuff: bool, lucky: bool, current: uint, now: int)
    : (r: Entry)
    requires |slots| == SLOTS
    requires s == MoveSpeed ==> PositionFor(slots, e.status, debuff) != NO_SLOT
    ensures |r.slots| == SLOTS
    ensures r.recorded ==> r.position == PositionFor(slots, e.status, debuff) != NO_SLOT
  {
    var v := BuffValueOf(slots, e, debuff, current);
    if Records(s, lucky, v) then
      Entry(slots[v.position := SlotFor(e, e.buff, v.value, now)], v.newValue, v.position, true)
    else Entry(slots, current, v.position, false)
  }

  /** A stat arm: the new stat, its slot and the pointer to the slot are recorded together. */
  function ApplyStat(b: Book, s: Stat, e: Effect, debuff: bool, lucky: bool, now: int): (r: Book)
    requires Shaped(b)
    requires s == MoveSpeed ==> PositionFor(b.slots, e.status, debuff) != NO_SLOT
    ensures Shaped(r)
  {
    var n := StatEntry(b.slots, s, e, debuff, lucky, b.stats[s], now);
    if !n.recorded then b
    else if n.position < FIRST_DEBUFF
    then b.(slots := n.slots, stats := b.stats[s := n.value], up := b.up[s := n.position])
    else b.(slots := n.slots, stats := b.stats[s := n.value], down := b.down[s := n.position])
  }

  /** The arms that move no stat of this model; stored is what they put into the slot, if they do. */
  function ApplyOther(b: Book, e: Effect, debuff: bool, stored: Option<Slot>): (r: Book)
    requires Shaped(b)
    ensures Shaped(r)
  {
    var p := PositionFor(b.slots, e.status, debuff);
    if stored.Some? && p != NO_SLOT then Put(b, p, stored.value) else b
  }

  /**
   * CheckABuffs. lucky is the success roll; foreign is what an arm for a stat outside this model stores,
   * if its own guard lets it.
   */
  function Apply(b: Book, e: Effect, lucky: bool, foreign: Option<uint>, now: int): (r: Book)
    requires Shaped(b) && Castable(b.slots, e)
    ensures Shaped(r)
  {
    var debuff := IsDebuff(e.status);
    match ArmOf(e.status)
    case StatArm(s) => ApplyStat(b, s, e, debuff, lucky, now)
    case AilmentArm =>
      ApplyOther(b, e, debuff, if lucky then Some(SlotFor(e, e.status, 0, now)) else None)
    case OtherArm =>
      ApplyOther(b, e, debuff, if foreign.Some? then Some(SlotFor(e, OtherBuff(e), foreign.value, now)) else None)
    case PurifyArm =>
      var p := PositionFor(b.slots, e.status, debuff);
      ApplyOther(b, e, debuff, if lucky && p != NO_SLOT then Some(Faded(b.slots[p])) else None)
    case DispelArm =>
      if lucky then b.(slots := FadeTo(b.slots, DECLARED_SLOTS)) else b
    case UnknownArm => b
  }

  // ------------------------------------------------ the slot table

  /** How many of the slots the searches look at are declared. */
  function Declared(slots: seq<Slot>): (n: nat)
    requires |slots| == SLOTS
    ensures n == DECLARED_SLOTS
  {
    |slots| - 2
  }

  /** Among the declared slots: no status twice, buffs below slot 15 and debuffs from it on. */
  ghost predicate Orderly(slots: seq<Slot>) {
    && |slots| == SLOTS
    && (forall i, j :: 0 <= i < j < DECLARED_SLOTS && slots[i].status != 0 ==> slots[i].status != slots[j].status)
    && (forall i :: 0 <= i < DECLARED_SLOTS && slots[i].status != 0 ==>
          (i < FIRST_DEBUFF <==> !IsDebuff(slots[i].status)))
  }

  /** In an orderly table the position given to a status is the only declared slot that may hold it. */
  lemma PositionIsOnlyPlace(slots: seq<Slot>, status: uint, debuff: bool)
    requires Orderly(slots) && status != 0 && debuff == IsDebuff(status)
    ensures
      var p := PositionFor(slots, status, debuff);
      forall k :: 0 <= k < DECLARED_SLOTS && k != p ==> slots[k].status != status
  {
    var held := FirstWith(slots, status, BandStart(debuff), BandEnd(debuff));
  }

  lemma PutKeepsOrder(slots: seq<Slot>, status: uint, debuff: bool, s: Slot)
    requires Orderly(slots) && status != 0 && debuff == IsDebuff(status)
    requires PositionFor(slots, status, debuff) != NO_SLOT
    requires s.status == status
    ensures Orderly(slots[PositionFor(slots, status, debuff) := s])
  {
    PositionIsOnlyPlace(slots, status, debuff);
  }

  lemma SameStatusesSameOrder(slots: seq<Slot>, slots': seq<Slot>)
    requires Orderly(slots) && |slots'| == SLOTS
    requires forall i :: 0 <= i < DECLARED_SLOTS ==> slots'[i].status == slots[i].status
    ensures Orderly(slots')
  {
  }

  /** Some slot of [lo, hi) has the status. */
  predicate Holds(slots: seq<Slot>, status: uint, lo: nat, hi: nat)
    requires lo <= hi <= |slots|
  {
    FirstWith(slots, status, lo, hi) < hi
  }

  lemma {:induction false} FirstWithInParts(slots: seq<Slot>, status: uint, lo: nat, mid: nat, hi: nat)
    requires lo <= mid <= hi <= |slots|
    ensures FirstWith(slots, status, lo, hi)
         == if Holds(slots, status, lo, mid) then FirstWith(slots, status, lo, mid)
            else FirstWith(slots, status, mid, hi)
    decreases mid - lo
  {
    if lo < mid && slots[lo].status != status {
      FirstWithInParts(slots, status, lo + 1, mid, hi);
    }
  }

  /** The last slot the loop over a band looks at for a status: the one that holds it, or the end of the band. */
  function Furthest(slots: seq<Slot>, status: uint, debuff: bool): nat
    requires |slots| == SLOTS
  {
    var held := FirstWith(slots, status, BandStart(debuff), BandEnd(debuff));
    if held < BandEnd(debuff) then held else BandEnd(debuff) - 1
  }

  /** The search looks past the declared slots on every cast of a debuff that none of them holds. */
  lemma SearchReadsPastDeclared(slots: seq<Slot>, status: uint, debuff: bool)
    requires |slots| == SLOTS
    ensures Furthest(slots, status, debuff) >= DECLARED_SLOTS <==> debuff && !Holds(slots, status, 15, DECLARED_SLOTS)
  {
    FirstWithInParts(slots, status, 15, 30, 32);
  }

  /** The position given to a status, if any, is a declared slot. */
  predicate Inside(slots: seq<Slot>, status: uint, debuff: bool)
    requires |slots| == SLOTS
  {
    PositionFor(slots, status, debuff) < DECLARED_SLOTS || PositionFor(slots, status, debuff) == NO_SLOT
  }

  /**
   * And it ends there, and writes there, exactly when no declared slot holds the status and either the memory behind
   * happens to read as the status, or other debuffs fill all fifteen slots and that memory happens to read as free.
   */
  lemma SearchEndsPastDeclared(slots: seq<Slot>, status: uint)
    requires |slots| == SLOTS
    ensures !Inside(slots, status, true) <==>
              && !Holds(slots, status, 15, DECLARED_SLOTS)
              && (Holds(slots, status, DECLARED_SLOTS, SLOTS) ||
                  (!Holds(slots, 0, 15, DECLARED_SLOTS) && Holds(slots, 0, DECLARED_SLOTS, SLOTS)))
  {
    FirstWithInParts(slots, status, 15, 30, 32);
    FirstWithInParts(slots, 0, 15, 30, 32);
  }

  // ------------------------------------------------ the ledger

  /** What a slot adds to a stat: its Value upward, minus its Value downward. */
  function Share(slot: Slot, z: nat, s: Stat): int {
    if StatOf(slot.status) != Some(s) then 0
    else if z < FIRST_DEBUFF then slot.value
    else 0 - slot.value
  }

  /** The Values of the live up-slots less those of the live down-slots, over the first n slots. */
  function Tally(slots: seq<Slot>, s: Stat, n: nat): int
    requires n <= |slots|
  {
    if n == 0 then 0 else Tally(slots, s, n - 1) + Share(slots[n - 1], n - 1, s)
  }

  /** The tally of the declared slots. */
  function Total(slots: seq<Slot>, s: Stat): int
    requires |slots| == SLOTS
  {
    Tally(slots, s, Declared(slots))
  }

  lemma {:induction false} TallyOfUpdate(slots: seq<Slot>, s: Stat, p: nat, new': Slot, n: nat)
    requires n <= |slots| && p < |slots|
    ensures Tally(slots[p := new'], s, n)
         == Tally(slots, s, n) + (if p < n then Share(new', p, s) - Share(slots[p], p, s) else 0)
  {
    if n > 0 {
      TallyOfUpdate(slots, s, p, new', n - 1);
    }
  }

  lemma {:induction false} TallyIgnoresTimes(slots: seq<Slot>, slots': seq<Slot>, s: Stat, n: nat)
    requires n <= |slots| == |slots'|
    requires forall i :: 0 <= i < n ==> slots'[i].status == slots[i].status && slots'[i].value == slots[i].value
    ensures Tally(slots', s, n) == Tally(slots, s, n)
  {
    if n > 0 {
      TallyIgnoresTimes(slots, slots', s, n - 1);
    }
  }

  /** Equal in 32-bit arithmetic. */
  predicate Same(a: int, b: int) {
    Wrap(a) == Wrap(b)
  }

  lemma SameShifted(a: int, b: int, c: int)
    requires Same(a, b)
    ensures Same(a + c, b + c)
  {
    assert a == b + (a / U32 - b / U32) * U32;
    assert (a + c) == (b + c) + (a / U32 - b / U32) * U32;
  }

  lemma SameWrapped(n: int)
    ensures Same(Wrap(n), n)
  {
  }

  lemma SumOfShifts(newValue: int, normal: int, current: int, start: int, tally: int, held: int, change: int)
    requires newValue == Wrap(normal + change)
    requires Same(normal, current - held) && Same(current, start + tally)
    ensures Same(newValue, start + (tally + change - held))
  {
    SameWrapped(normal + change);
    SameShifted(normal, current - held, change);
    SameShifted(current, start + tally, change - held);
    assert current - held + change == current + (change - held);
    assert start + tally + (change - held) == start + (tally + change - held);
  }

  function Signed(debuff: bool, value: uint): int {
    if debuff then 0 - value else value
  }

  /** What one slot of the right band is worth to the stat its status moves. */
  lemma ShareOfOwn(slot: Slot, s: Stat, p: nat, debuff: bool)
    requires StatOf(slot.status) == Some(s) && BandStart(debuff) <= p < BandEnd(debuff)
    ensures Share(slot, p, s) == Signed(debuff, slot.value)
  {
  }

  lemma NormalLeavesOutOwn(slot: Slot, status: uint, debuff: bool, s: Stat, p: nat, current: uint)
    requires StatOf(status) == Some(s) && BandStart(debuff) <= p < BandEnd(debuff)
    requires slot.status == status || slot.status == 0
    ensures Same(NormalValue(slot, status, debuff, current), current - Share(slot, p, s))
  {
    if slot.status == status {
      ShareOfOwn(slot, s, p, debuff);
    }
    SameWrapped(current - Share(slot, p, s));
  }

  /** GetBuffValue adds to the rest of the stat what the new slot will be worth. */
  lemma NewValueAddsAmount(debuff: bool, normal: uint, amount: uint, current: uint)
    requires debuff || amount + current < U32
    ensures NewValueOf(debuff, normal, amount, current) == Wrap(normal + Signed(debuff, amount))
  {
  }

  /** Replacing the status's slot moves the tally by exactly what GetBuffValue moves the stat. */
  lemma SlotBalances(slots: seq<Slot>, s: Stat, e: Effect, debuff: bool, current: uint, start: uint, slot: Slot)
    requires |slots| == SLOTS
    requires StatOf(e.status) == Some(s) && PositionFor(slots, e.status, debuff) < DECLARED_SLOTS
    requires Same(current, start + Total(slots, s))
    requires debuff || BuffValueOf(slots, e, debuff, current).value + current < U32
    requires slot.status == e.status && slot.value == BuffValueOf(slots, e, debuff, current).value
    ensures
      var v := BuffValueOf(slots, e, debuff, current);
      Same(v.newValue, start + Total(slots[v.position := slot], s))
  {
    var v, p := BuffValueOf(slots, e, debuff, current), PositionFor(slots, e.status, debuff);
    var normal := NormalValue(slots[p], e.status, debuff, current);
    TallyOfUpdate(slots, s, p, slot, Declared(slots));
    NormalLeavesOutOwn(slots[p], e.status, debuff, s, p, current);
    NewValueAddsAmount(debuff, normal, v.value, current);
    ShareOfOwn(slot, s, p, debuff);
    SumOfShifts(v.newValue, normal, current, start, Total(slots, s), Share(slots[p], p, s), Share(slot, p, s));
  }
}
