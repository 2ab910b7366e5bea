/** What one cast is worth, in plain arithmetic: amounts, statuses, luck, and the slot that is written. */
module BuffAmounts {
  import opened BuffLedger
  import opened Wrappers

  /** Slot p is the first free one of its band, and nothing in the band has the status. */
  ghost predicate FirstFree(slots: seq<Slot>, status: uint, lo: nat, hi: nat, p: nat)
    requires |slots| == SLOTS
  {
    && lo <= p < hi <= 32 && slots[p].status == 0
    && (forall k :: lo <= k < p ==> slots[k].status != 0)
    && forall k :: lo <= k < hi ==> slots[k].status != status
  }

  lemma {:induction false} FirstWithIs(slots: seq<Slot>, status: uint, lo: nat, hi: nat, p: nat)
    requires lo <= p <= hi <= |slots| && (p < hi ==> slots[p].status == status)
    requires forall k :: lo <= k < p ==> slots[k].status != status
    ensures FirstWith(slots, status, lo, hi) == p
  {
  }

  lemma FreePosition(slots: seq<Slot>, status: uint, debuff: bool, p: nat)
    requires |slots| == SLOTS && status != 0
    requires FirstFree(slots, status, if debuff then 15 else 0, if debuff then 32 else 15, p)
    ensures PositionFor(slots, status, debuff) == p
  {
    FirstWithIs(slots, status, BandStart(debuff), BandEnd(debuff), BandEnd(debuff));
    FirstWithIs(slots, 0, BandStart(debuff), BandEnd(debuff), p);
  }

  lemma AmountFrom(e: Effect, normal: uint, whole: uint, flat: nat)
    requires flat == if e.value1 > 0 then e.value1 + e.bonus else 0
    requires whole == normal * e.value2 && whole / 100 + flat < U32
    ensures AmountOf(e, normal) == whole / 100 + flat
  {
    if e.value2 == 0 {
      assert whole == 0;
    } else {
      assert Wrap(normal * e.value2) == whole;
    }
  }

  /** The percentage is of the stat, rounded down; the number comes with its bonus; both together are the sum. */
  lemma AmountIs(e: Effect, normal: uint, flat: nat)
    requires flat == if e.value1 > 0 then e.value1 + e.bonus else 0
    requires normal * e.value2 < U32 && 100 * flat + normal * e.value2 < 100 * U32
    ensures AmountOf(e, normal) >= flat
    ensures 100 * (AmountOf(e, normal) - flat) <= normal * e.value2 < 100 * (AmountOf(e, normal) - flat + 1)
  {
    AmountFrom(e, normal, normal * e.value2, flat);
    HundredthsFit(normal * e.value2, flat);
  }

  lemma HundredthsFit(whole: nat, flat: nat)
    requires 100 * flat + whole < 100 * U32
    ensures whole / 100 + flat < U32
    ensures 100 * (whole / 100) <= whole < 100 * (whole / 100 + 1)
  {
  }

  /** Which stat a status moves, and whether it lowers it, as the case labels say. */
  ghost predicate Moves(status: uint, s: Stat, debuff: bool) {
    match s
    case Attack => if debuff then status == 19 else status == 18 || status == 48
    case Defense => if debuff then status == 21 else status == 20 || status == 49
    case Accuracy => if debuff then status == 25 else status == 24 || status == 51
    case MagicDefense => if debuff then status == 23 else status == 22 || status == 50
    case Dodge => if debuff then status == 29 else status == 28 || status == 53
    case MoveSpeed => if debuff then status == 15 else status == 14 || status == 46
  }

  lemma MovesIs(status: uint, s: Stat, debuff: bool)
    ensures Moves(status, s, debuff) ==> ArmOf(status) == StatArm(s) && IsDebuff(status) == debuff
  {
  }

  /** The arithmetic of a cast on a stat nothing of this status is in: what it amounts to and what it leaves. */
  lemma FreshAmount(slots: seq<Slot>, e: Effect, debuff: bool, current: uint, p: nat) returns (v: uint)
    requires |slots| == SLOTS && e.status != 0
    requires FirstFree(slots, e.status, if debuff then 15 else 0, if debuff then 32 else 15, p)
    ensures v == AmountOf(e, current) && BuffValueOf(slots, e, debuff, current).value == v
    ensures BuffValueOf(slots, e, debuff, current).position == p
    ensures !debuff && current + v < U32 ==> BuffValueOf(slots, e, debuff, current).newValue == current + v
    ensures debuff && v <= current ==> BuffValueOf(slots, e, debuff, current).newValue == current - v
  {
    FreePosition(slots, e.status, debuff, p);
    v := AmountOf(e, current);
  }

  /**
   * A cast on a stat whose status is not held, lucky or on the attack, with a free slot p: it is worth v, the
   * percentage of the stat rounded down plus number and bonus; the stat moves by v, up or down; slot p holds status,
   * buff, v, duration and time; the stat keeps p as its slot of that direction; and nothing else changes. A buff past
   * 32 bits, and a debuff that takes the whole stat or more, are left to the exact theorems of the ledger.
   */
  lemma CastMovesStat(b: Book, e: Effect, s: Stat, debuff: bool, lucky: bool, foreign: Option<uint>, now: int, p: nat,
                      flat: nat) returns (v: uint)
    requires Shaped(b) && Moves(e.status, s, debuff) && (lucky || s == Attack)
    requires FirstFree(b.slots, e.status, if debuff then 15 else 0, if debuff then 32 else 15, p)
    requires flat == if e.value1 > 0 then e.value1 + e.bonus else 0
    requires b.stats[s] * e.value2 < U32 && 100 * flat + b.stats[s] * e.value2 < 100 * U32
    ensures Castable(b.slots, e)
    ensures v >= flat && 100 * (v - flat) <= b.stats[s] * e.value2 < 100 * (v - flat + 1)
    ensures
      var r := Apply(b, e, lucky, foreign, now);
      && (!debuff && 0 < b.stats[s] + v < U32 ==>
            r == b.(slots := b.slots[p := Slot(e.status, e.buff, v, e.duration, now)],
                    stats := b.stats[s := b.stats[s] + v], up := b.up[s := p]))
      && (debuff && v < b.stats[s] ==>
            r == b.(slots := b.slots[p := Slot(e.status, e.buff, v, e.duration, now)],
                    stats := b.stats[s := b.stats[s] - v], down := b.down[s := p]))
  {
    MovesIs(e.status, s, debuff);
    FreePosition(b.slots, e.status, debuff, p);
    AmountIs(e, b.stats[s], flat);
    v := FreshAmount(b.slots, e, debuff, b.stats[s], p);
  }

  /** Without luck only the attack is moved. */
  lemma UnluckyChangesNothing(b: Book, e: Effect, s: Stat, debuff: bool, foreign: Option<uint>, now: int)
    requires Shaped(b) && Castable(b.slots, e) && Moves(e.status, s, debuff) && s != Attack
    ensures Apply(b, e, false, foreign, now) == b
  {
    MovesIs(e.status, s, debuff);
  }

  /** A twenty percent charm on an attack of 100, with nothing on the table. */
  lemma TwentyPercentOfAHundred(b: Book, e: Effect, foreign: Option<uint>, now: int)
    requires Shaped(b) && b.stats[Attack] == 100 && (forall k :: 0 <= k < SLOTS ==> b.slots[k].status == 0)
    requires e.status == 18 && e.value1 == 0 && e.value2 == 20
    ensures Castable(b.slots, e)
    ensures Apply(b, e, true, foreign, now).stats[Attack] == 120
  {
    var v := CastMovesStat(b, e, Attack, false, true, foreign, now, 0, 0);
  }

  lemma OtherArmIs(status: uint)
    ensures
      status in {7, 8, 9, 10, 11, 30, 31, 32, 33, 34, 55, 56, 58, 61, 71, 77, 78, 79, 80, 86, 88, 89} ==>
        ArmOf(status) == AilmentArm && IsDebuff(status)
    ensures
      status in {12, 13, 16, 17, 26, 27, 35, 36, 44, 45, 47, 52, 54, 83} ==>
        ArmOf(status) == OtherArm && IsDebuff(status) == (status == 17 || status == 27)
    ensures status == 37 || status == 39 ==> ArmOf(status) == DispelArm
    ensures status == 38 ==> ArmOf(status) == PurifyArm && IsDebuff(status)
    ensures status >= 7 && StatOf(status) == None ==> status != 0
  {
  }

  lemma FillsFree(b: Book, e: Effect, debuff: bool, p: nat, stored: Slot)
    requires Shaped(b) && e.status != 0
    requires FirstFree(b.slots, e.status, if debuff then 15 else 0, if debuff then 32 else 15, p)
    ensures ApplyOther(b, e, debuff, Some(stored)) == b.(slots := b.slots[p := stored])
  {
    FreePosition(b.slots, e.status, debuff, p);
  }

  /** A lucky ailment fills the first free debuff slot, itself as the buff and no value; an unlucky one does nothing. */
  lemma AilmentFills(b: Book, e: Effect, lucky: bool, foreign: Option<uint>, now: int, p: nat)
    requires Shaped(b) && FirstFree(b.slots, e.status, 15, 32, p)
    requires e.status in {7, 8, 9, 10, 11, 30, 31, 32, 33, 34, 55, 56, 58, 61, 71, 77, 78, 79, 80, 86, 88, 89}
    ensures Castable(b.slots, e)
    ensures Apply(b, e, lucky, foreign, now)
         == if !lucky then b else b.(slots := b.slots[p := Slot(e.status, e.status, 0, e.duration, now)])
  {
    OtherArmIs(e.status);
    FillsFree(b, e, true, p, SlotFor(e, e.status, 0, now));
  }

  /**
   * The arms of other stats fill the first free slot of their band with what they store, the four of extra and shield
   * damage under their own number; one whose guard fails does nothing.
   */
  lemma OtherStatFills(b: Book, e: Effect, foreign: Option<uint>, lucky: bool, now: int, p: nat)
    requires Shaped(b) && e.status in {12, 13, 16, 17, 26, 27, 35, 36, 44, 45, 47, 52, 54, 83}
    requires
      var debuff := e.status == 17 || e.status == 27;
      FirstFree(b.slots, e.status, if debuff then 15 else 0, if debuff then 32 else 15, p)
    ensures Castable(b.slots, e)
    ensures
      var own := e.status == 35 || e.status == 36 || e.status == 54 || e.status == 83;
      Apply(b, e, lucky, foreign, now)
      == if foreign.None? then b
         else
           var buff := if own then e.status else e.buff;
           b.(slots := b.slots[p := Slot(e.status, buff, foreign.value, e.duration, now)])
  {
    OtherArmIs(e.status);
    if foreign.Some? {
      FillsFree(b, e, e.status == 17 || e.status == 27, p, SlotFor(e, OtherBuff(e), foreign.value, now));
    }
  }

  /** A lucky dispel takes the time off the thirty slots and off nothing else; an unlucky one does nothing. */
  lemma DispelTakesTheTime(b: Book, e: Effect, lucky: bool, foreign: Option<uint>, now: int, i: nat)
    requires Shaped(b) && (e.status == 37 || e.status == 39) && i < SLOTS
    ensures Castable(b.slots, e)
    ensures
      var r := Apply(b, e, lucky, foreign, now);
      && r == b.(slots := r.slots)
      && r.slots[i] == if lucky && i < 30 then b.slots[i].(duration := 0, buffTime := 0) else b.slots[i]
  {
    OtherArmIs(e.status);
  }

  /** A lucky purification with its status on the table takes the time off that slot only. */
  lemma PurifyTakesTheTime(b: Book, e: Effect, foreign: Option<uint>, now: int, p: nat)
    requires Shaped(b) && e.status == 38 && 15 <= p < 32 && b.slots[p].status == 38
    requires forall k :: 15 <= k < p ==> b.slots[k].status != 38
    ensures Castable(b.slots, e)
    ensures Apply(b, e, true, foreign, now) == b.(slots := b.slots[p := b.slots[p].(duration := 0, buffTime := 0)])
    ensures Apply(b, e, false, foreign, now) == b
  {
    OtherArmIs(e.status);
    FirstWithIs(b.slots, 38, BandStart(true), BandEnd(true), p);
  }
}
