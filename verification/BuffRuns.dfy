/** What every run of CheckABuffs keeps: the slot table, the ledger, and recasts. */
module BuffRuns {
  import opened Wrappers
  import opened BuffLedger

  /** The stat is its starting value plus what its slots are worth. */
  ghost predicate Balances(slots: seq<Slot>, value: uint, s: Stat, start: uint)
    requires |slots| == SLOTS
  {
    Same(value, start + Total(slots, s))
  }

  ghost predicate Balanced(b: Book, s: Stat, start: uint)
    requires Shaped(b)
  {
    Balances(b.slots, b.stats[s], s, start)
  }

  // ------------------------------------------------ slots stay orderly

  lemma OtherKeepsOrder(b: Book, e: Effect, stored: Option<Slot>)
    requires Shaped(b) && Orderly(b.slots) && e.status != 0
    requires stored.Some? ==> stored.value.status == e.status
    ensures Orderly(ApplyOther(b, e, IsDebuff(e.status), stored).slots)
  {
    var debuff := IsDebuff(e.status);
    if stored.Some? && PositionFor(b.slots, e.status, debuff) != NO_SLOT {
      PutKeepsOrder(b.slots, e.status, debuff, stored.value);
    }
  }

  lemma FadedKeepsOrder(b: Book, e: Effect)
    requires Shaped(b) && Orderly(b.slots)
    requires PositionFor(b.slots, e.status, IsDebuff(e.status)) != NO_SLOT
    ensures
      var p := PositionFor(b.slots, e.status, IsDebuff(e.status));
      Orderly(ApplyOther(b, e, IsDebuff(e.status), Some(Faded(b.slots[p]))).slots)
  {
    var p := PositionFor(b.slots, e.status, IsDebuff(e.status));
    SameStatusesSameOrder(b.slots, b.slots[p := Faded(b.slots[p])]);
  }

  lemma StatKeepsOrder(slots: seq<Slot>, s: Stat, e: Effect, debuff: bool, lucky: bool, current: uint, now: int)
    requires Orderly(slots) && e.status != 0 && debuff == IsDebuff(e.status)
    requires s == MoveSpeed ==> PositionFor(slots, e.status, debuff) != NO_SLOT
    ensures Orderly(StatEntry(slots, s, e, debuff, lucky, current, now).slots)
  {
    var v := BuffValueOf(slots, e, debuff, current);
    if Records(s, lucky, v) {
      PutKeepsOrder(slots, e.status, debuff, SlotFor(e, e.buff, v.value, now));
    }
  }

  /** Over one application no status gets a second slot and no effect leaves its band. */
  lemma ApplyKeepsOrder(b: Book, e: Effect, lucky: bool, foreign: Option<uint>, now: int)
    requires Shaped(b) && Orderly(b.slots) && Castable(b.slots, e)
    ensures Orderly(Apply(b, e, lucky, foreign, now).slots)
  {
    var p := PositionFor(b.slots, e.status, IsDebuff(e.status));
    match ArmOf(e.status)
    case StatArm(s) => StatKeepsOrder(b.slots, s, e, IsDebuff(e.status), lucky, b.stats[s], now);
    case AilmentArm => OtherKeepsOrder(b, e, if lucky then Some(SlotFor(e, e.status, 0, now)) else None);
    case OtherArm =>
      OtherKeepsOrder(b, e, if foreign.Some? then Some(SlotFor(e, OtherBuff(e), foreign.value, now)) else None);
    case PurifyArm =>
      if lucky && p != NO_SLOT {
        FadedKeepsOrder(b, e);
      }
    case DispelArm => SameStatusesSameOrder(b.slots, FadeTo(b.slots, DECLARED_SLOTS));
    case UnknownArm =>
  }

  // ------------------------------------------------ stats stay balanced

  /** A slot change worth as much to a stat after as before, or past the declared slots, leaves it balanced. */
  lemma ForeignSlotBalances(slots: seq<Slot>, value: uint, p: nat, slot: Slot, s: Stat, start: uint)
    requires |slots| == SLOTS && p < SLOTS && Balances(slots, value, s, start)
    requires p >= DECLARED_SLOTS || Share(slot, p, s) == Share(slots[p], p, s)
    ensures Balances(slots[p := slot], value, s, start)
  {
    TallyOfUpdate(slots, s, p, slot, Declared(slots));
  }

  /** Adding the amount to the stat passes 32 bits; the move-speed arm stores the slot even then. */
  predicate SumWraps(slots: seq<Slot>, e: Effect, debuff: bool, current: uint)
    requires |slots| == SLOTS
  {
    !debuff && BuffValueOf(slots, e, debuff, current).value + current >= U32
  }

  lemma ZeroWhenWrapped(slots: seq<Slot>, e: Effect, current: uint)
    requires |slots| == SLOTS && SumWraps(slots, e, false, current)
    ensures BuffValueOf(slots, e, false, current).newValue == 0
  {
  }

  /** A stat arm keeps its own stat balanced. */
  lemma EntryBalances(slots: seq<Slot>, s: Stat, e: Effect, debuff: bool, lucky: bool, current: uint, now: int,
                      start: uint)
    requires |slots| == SLOTS && StatOf(e.status) == Some(s) && Balances(slots, current, s, start)
    requires s == MoveSpeed ==> PositionFor(slots, e.status, debuff) != NO_SLOT
    requires s == MoveSpeed ==> !SumWraps(slots, e, debuff, current)
    requires Inside(slots, e.status, debuff)
    ensures
      var n := StatEntry(slots, s, e, debuff, lucky, current, now);
      Balances(n.slots, n.value, s, start)
  {
    var v := BuffValueOf(slots, e, debuff, current);
    if Records(s, lucky, v) {
      if SumWraps(slots, e, debuff, current) {
        ZeroWhenWrapped(slots, e, current);
      }
      SlotBalances(slots, s, e, debuff, current, start, SlotFor(e, e.buff, v.value, now));
    }
  }

  /** A stat arm leaves the balance of every other stat alone. */
  lemma EntryLeavesRest(slots: seq<Slot>, t: Stat, e: Effect, debuff: bool, lucky: bool, current: uint, now: int,
                        s: Stat, value: uint, start: uint)
    requires |slots| == SLOTS && s != t && StatOf(e.status) == Some(t) && Balances(slots, value, s, start)
    requires t == MoveSpeed ==> PositionFor(slots, e.status, debuff) != NO_SLOT
    ensures Balances(StatEntry(slots, t, e, debuff, lucky, current, now).slots, value, s, start)
  {
    var v := BuffValueOf(slots, e, debuff, current);
    if Records(t, lucky, v) {
      ForeignSlotBalances(slots, value, v.position, SlotFor(e, e.buff, v.value, now), s, start);
    }
  }

  lemma StatArmBalances(b: Book, t: Stat, e: Effect, debuff: bool, lucky: bool, now: int, s: Stat, start: uint)
    requires Shaped(b) && StatOf(e.status) == Some(t) && Balanced(b, s, start)
    requires t == MoveSpeed ==> PositionFor(b.slots, e.status, debuff) != NO_SLOT
    requires s == t == MoveSpeed ==> !SumWraps(b.slots, e, debuff, b.stats[s])
    requires s == t ==> Inside(b.slots, e.status, debuff)
    ensures Balanced(ApplyStat(b, t, e, debuff, lucky, now), s, start)
  {
    if s == t {
      EntryBalances(b.slots, s, e, debuff, lucky, b.stats[s], now, start);
    } else {
      EntryLeavesRest(b.slots, t, e, debuff, lucky, b.stats[t], now, s, b.stats[s], start);
    }
  }

  lemma OtherBalances(b: Book, e: Effect, debuff: bool, stored: Option<Slot>, s: Stat, start: uint)
    requires Shaped(b) && StatOf(e.status) == None && Balanced(b, s, start)
    requires stored.Some? ==> StatOf(stored.value.status) == None
    ensures Balanced(ApplyOther(b, e, debuff, stored), s, start)
  {
    var p := PositionFor(b.slots, e.status, debuff);
    if stored.Some? && p != NO_SLOT {
      ForeignSlotBalances(b.slots, b.stats[s], p, stored.value, s, start);
    }
  }

  /** The cast leaves the ledger of this stat to the declared slots and, for move speed, does not wrap. */
  predicate Contained(slots: seq<Slot>, e: Effect, s: Stat, current: uint)
    requires |slots| == SLOTS
  {
    StatOf(e.status) == Some(s) ==>
      && Inside(slots, e.status, IsDebuff(e.status))
      && (s == MoveSpeed ==> !SumWraps(slots, e, IsDebuff(e.status), current))
  }

  /** The arms that only fill or fade slots leave every stat balanced. */
  lemma OtherArmBalances(b: Book, e: Effect, lucky: bool, foreign: Option<uint>, now: int, s: Stat, start: uint)
    requires Shaped(b) && Castable(b.slots, e) && Balanced(b, s, start) && !ArmOf(e.status).StatArm?
    ensures Balanced(Apply(b, e, lucky, foreign, now), s, start)
  {
    var debuff := IsDebuff(e.status);
    match ArmOf(e.status)
    case AilmentArm =>
      OtherBalances(b, e, debuff, if lucky then Some(SlotFor(e, e.status, 0, now)) else None, s, start);
    case OtherArm =>
      OtherBalances(b, e, debuff, if foreign.Some? then Some(SlotFor(e, OtherBuff(e), foreign.value, now)) else None,
                    s, start);
    case PurifyArm =>
      var p := PositionFor(b.slots, e.status, debuff);
      OtherBalances(b, e, debuff, if lucky && p != NO_SLOT then Some(Faded(b.slots[p])) else None, s, start);
    case DispelArm =>
      TallyIgnoresTimes(b.slots, FadeTo(b.slots, DECLARED_SLOTS), s, Declared(b.slots));
    case UnknownArm =>
  }

  /** Any contained application keeps a stat equal to its start plus its live slots. */
  lemma ApplyBalances(b: Book, e: Effect, lucky: bool, foreign: Option<uint>, now: int, s: Stat, start: uint)
    requires Shaped(b) && Castable(b.slots, e) && Balanced(b, s, start) && Contained(b.slots, e, s, b.stats[s])
    ensures Balanced(Apply(b, e, lucky, foreign, now), s, start)
  {
    if ArmOf(e.status).StatArm? {
      StatArmBalances(b, ArmOf(e.status).stat, e, IsDebuff(e.status), lucky, now, s, start);
    } else {
      OtherArmBalances(b, e, lucky, foreign, now, s, start);
    }
  }

  lemma BalanceOfZero(sum: int, x: int)
    requires Same(sum, x)
    ensures Same(0, x) <==> Wrap(sum) == 0
  {
  }

  lemma WrappedSpeed(slots: seq<Slot>, e: Effect, current: uint, start: uint, slot: Slot)
    requires |slots| == SLOTS && StatOf(e.status) == Some(MoveSpeed) && Balances(slots, current, MoveSpeed, start)
    requires PositionFor(slots, e.status, false) != NO_SLOT
    requires slot.status == e.status
    ensures
      var p := PositionFor(slots, e.status, false);
      var normal := NormalValue(slots[p], e.status, false, current);
      Balances(slots[p := slot], 0, MoveSpeed, start) <==> Wrap(normal + slot.value) == 0
  {
    var s, p := MoveSpeed, PositionFor(slots, e.status, false);
    var normal := NormalValue(slots[p], e.status, false, current);
    TallyOfUpdate(slots, s, p, slot, Declared(slots));
    NormalLeavesOutOwn(slots[p], e.status, false, s, p, current);
    ShareOfOwn(slot, s, p, false);
    SumOfShifts(Wrap(normal + slot.value), normal, current, start, Total(slots, s),
                Share(slots[p], p, s), slot.value);
    BalanceOfZero(Wrap(normal + slot.value), start + Total(slots[p := slot], s));
  }

  lemma PastSlotBalances(slots: seq<Slot>, p: nat, slot: Slot, s: Stat, current: uint, value: uint, start: uint)
    requires |slots| == SLOTS && Balances(slots, current, s, start) && DECLARED_SLOTS <= p < SLOTS
    ensures Balances(slots[p := slot], value, s, start) <==> value == current
  {
    TallyOfUpdate(slots, s, p, slot, Declared(slots));
  }

  /** What the slot a status is given already takes off the stat. */
  function HeldValue(slot: Slot, status: uint): uint {
    if slot.status == status then slot.value else 0
  }

  /** A debuff leaves the stat as it is exactly when it takes off what its slot has been taking off. */
  lemma DebuffMovesIff(slot: Slot, e: Effect, current: uint)
    ensures
      var normal := NormalValue(slot, e.status, true, current);
      NewValueOf(true, normal, AmountOf(e, normal), current) == current
      <==> AmountOf(e, normal) == HeldValue(slot, e.status)
  {
    var held := HeldValue(slot, e.status);
    var normal := NormalValue(slot, e.status, true, current);
    assert normal == Wrap(current + held);
    TakenOff(current, held, AmountOf(e, normal));
  }

  lemma TakenOff(current: uint, held: uint, amount: uint)
    ensures Wrap(Wrap(current + held) - amount) == current <==> amount == held
  {
    SameWrapped(current + held);
    SameShifted(Wrap(current + held), current + held, 0 - amount);
    assert Wrap(Wrap(current + held) - amount) == Wrap(current + held - amount);
  }

  /**
   * A record past the declared slots keeps the ledger exactly when the amount, from the stat without what that memory
   * reads as having taken off it, is what it reads as having taken off it.
   */
  lemma EscapeBalanceIff(slots: seq<Slot>, s: Stat, e: Effect, lucky: bool, current: uint, now: int, start: uint)
    requires |slots| == SLOTS && Balances(slots, current, s, start)
    requires DECLARED_SLOTS <= PositionFor(slots, e.status, true) < SLOTS
    ensures
      var slot := slots[PositionFor(slots, e.status, true)];
      var n := StatEntry(slots, s, e, true, lucky, current, now);
      n.recorded ==>
        (Balances(n.slots, n.value, s, start)
         <==> AmountOf(e, NormalValue(slot, e.status, true, current)) == HeldValue(slot, e.status))
  {
    var v := BuffValueOf(slots, e, true, current);
    PastSlotBalances(slots, v.position, SlotFor(e, e.buff, v.value, now), s, current, v.newValue, start);
    DebuffMovesIff(slots[v.position], e, current);
  }

  /** What is known of a move-speed cast into a declared slot before it is made. */
  predicate SpeedHolds(slots: seq<Slot>, e: Effect, debuff: bool, current: uint)
    requires |slots| == SLOTS && PositionFor(slots, e.status, debuff) != NO_SLOT
  {
    var slot := slots[PositionFor(slots, e.status, debuff)];
    var normal := NormalValue(slot, e.status, debuff, current);
    if PositionFor(slots, e.status, debuff) >= DECLARED_SLOTS then AmountOf(e, normal) == HeldValue(slot, e.status)
    else SumWraps(slots, e, debuff, current) ==> Wrap(normal + AmountOf(e, normal)) == 0
  }

  /**
   * For move speed the ledger survives a lucky application into a declared slot exactly when the amount does not carry
   * the stat past 32 bits, or carries what is left of it without the old amount to a multiple of 2^32; into any other
   * slot exactly when the amount is what that slot reads as having taken off.
   */
  lemma SpeedBalanceIff(slots: seq<Slot>, e: Effect, debuff: bool, current: uint, now: int, start: uint)
    requires |slots| == SLOTS && StatOf(e.status) == Some(MoveSpeed) && Balances(slots, current, MoveSpeed, start)
    requires PositionFor(slots, e.status, debuff) != NO_SLOT
    ensures
      var n := StatEntry(slots, MoveSpeed, e, debuff, true, current, now);
      n.recorded && (Balances(n.slots, n.value, MoveSpeed, start) <==> SpeedHolds(slots, e, debuff, current))
  {
    if PositionFor(slots, e.status, debuff) >= DECLARED_SLOTS {
      EscapeBalanceIff(slots, MoveSpeed, e, true, current, now, start);
    } else if SumWraps(slots, e, debuff, current) {
      var v := BuffValueOf(slots, e, false, current);
      ZeroWhenWrapped(slots, e, current);
      WrappedSpeed(slots, e, current, start, SlotFor(e, e.buff, v.value, now));
    } else {
      EntryBalances(slots, MoveSpeed, e, debuff, true, current, now, start);
    }
  }

  const FAST := Effect(14, 14, 10, 0, 60, 0)

  /** A dash of 10 on a speed five short of 2^32 leaves the speed at 0 and its slot at 10. */
  lemma DashWraps(slots: seq<Slot>, now: int)
    requires |slots| == SLOTS && forall i :: 0 <= i < DECLARED_SLOTS ==> slots[i].status == 0
    ensures
      var start: uint := U32 - 5;
      var n := StatEntry(slots, MoveSpeed, FAST, false, true, start, now);
      && Balances(slots, start, MoveSpeed, start) && SumWraps(slots, FAST, false, start)
      && n.recorded && n.value == 0 && n.slots[n.position].value == 10 && !Balances(n.slots, n.value, MoveSpeed, start)
  {
    var start: uint := U32 - 5;
    UnusedTally(slots, MoveSpeed, Declared(slots));
    assert PositionFor(slots, 14, false) == 0 by {
      assert FirstWith(slots, 14, 0, FIRST_DEBUFF) == FIRST_DEBUFF;
    }
    SpeedBalanceIff(slots, FAST, false, start, now, start);
  }

  // ------------------------------------------------ runs

  /** A cast, and what the memory behind the declared slots holds by then. */
  datatype Cast = Cast(effect: Effect, lucky: bool, foreign: Option<uint>, now: int, behind: (Slot, Slot))

  /** The table as the next cast finds it: other fields' memory may have changed in any way. */
  function Meanwhile(slots: seq<Slot>, behind: (Slot, Slot)): (r: seq<Slot>)
    requires |slots| == SLOTS
    ensures |r| == SLOTS && r[..DECLARED_SLOTS] == slots[..DECLARED_SLOTS]
  {
    slots[DECLARED_SLOTS := behind.0][DECLARED_SLOTS + 1 := behind.1]
  }

  function Found(b: Book, c: Cast): (r: Book)
    requires Shaped(b)
    ensures Shaped(r)
  {
    b.(slots := Meanwhile(b.slots, c.behind))
  }

  function After(b: Book, c: Cast): (r: Book)
    requires Shaped(b) && Castable(Found(b, c).slots, c.effect)
    ensures Shaped(r)
  {
    Apply(Found(b, c), c.effect, c.lucky, c.foreign, c.now)
  }

  /** Every cast names a status, and a move-speed cast finds room. */
  ghost predicate Legal(b: Book, casts: seq<Cast>)
    requires Shaped(b)
    decreases |casts|
  {
    casts == [] ||
    (Castable(Found(b, casts[0]).slots, casts[0].effect) && Legal(After(b, casts[0]), casts[1..]))
  }

  ghost function Run(b: Book, casts: seq<Cast>): (r: Book)
    requires Shaped(b) && Legal(b, casts)
    ensures Shaped(r)
    decreases |casts|
  {
    if casts == [] then b else Run(After(b, casts[0]), casts[1..])
  }

  /** Every cast of the run that moves this stat is contained. */
  ghost predicate AllContained(b: Book, casts: seq<Cast>, s: Stat)
    requires Shaped(b) && Legal(b, casts)
    decreases |casts|
  {
    casts == [] ||
    (&& Contained(Found(b, casts[0]).slots, casts[0].effect, s, b.stats[s])
     && AllContained(After(b, casts[0]), casts[1..], s))
  }

  lemma RunOfMore(b: Book, b1: Book, casts: seq<Cast>)
    requires casts != [] && Shaped(b) && Castable(Found(b, casts[0]).slots, casts[0].effect)
    requires b1 == After(b, casts[0]) && Legal(b1, casts[1..])
    ensures Legal(b, casts) && Run(b, casts) == Run(b1, casts[1..])
  {
  }

  /** No declared slot in use and no pointer set: a character as it is created. */
  ghost predicate IsUnbuffed(b: Book) {
    && Shaped(b)
    && (forall i :: 0 <= i < DECLARED_SLOTS ==> b.slots[i].status == 0)
    && (forall s: Stat :: b.up[s] == NO_SLOT && b.down[s] == NO_SLOT)
  }

  lemma FoundKeeps(b: Book, c: Cast, s: Stat, start: uint)
    requires Shaped(b)
    ensures Orderly(b.slots) ==> Orderly(Found(b, c).slots)
    ensures Balanced(b, s, start) ==> Balanced(Found(b, c), s, start)
  {
    var r := Found(b, c).slots;
    assert forall i :: 0 <= i < DECLARED_SLOTS ==> r[i] == b.slots[i];
    TallyIgnoresTimes(b.slots, r, s, Declared(b.slots));
  }

  lemma {:induction false} UnusedTally(slots: seq<Slot>, s: Stat, n: nat)
    requires n <= |slots| && forall i :: 0 <= i < n ==> slots[i].status == 0
    ensures Tally(slots, s, n) == 0
  {
    if n > 0 {
      UnusedTally(slots, s, n - 1);
    }
  }

  lemma {:induction false} RunKeepsOrder(b: Book, casts: seq<Cast>)
    requires Shaped(b) && Orderly(b.slots) && Legal(b, casts)
    ensures Orderly(Run(b, casts).slots)
    decreases |casts|
  {
    if casts != [] {
      var c := casts[0];
      FoundKeeps(b, c, Attack, 0);
      ApplyKeepsOrder(Found(b, c), c.effect, c.lucky, c.foreign, c.now);
      RunKeepsOrder(After(b, c), casts[1..]);
    }
  }

  lemma {:induction false} RunBalances(b: Book, casts: seq<Cast>, s: Stat, start: uint)
    requires Shaped(b) && Legal(b, casts) && Balanced(b, s, start) && AllContained(b, casts, s)
    ensures Balanced(Run(b, casts), s, start)
    decreases |casts|
  {
    if casts != [] {
      var c := casts[0];
      FoundKeeps(b, c, s, start);
      ApplyBalances(Found(b, c), c.effect, c.lucky, c.foreign, c.now, s, start);
      RunBalances(After(b, c), casts[1..], s, start);
    }
  }

  lemma StartIsBalanced(b: Book, s: Stat)
    requires IsUnbuffed(b)
    ensures Orderly(b.slots) && Balanced(b, s, b.stats[s])
  {
    UnusedTally(b.slots, s, Declared(b.slots));
  }

  /**
   * Over every run each status holds at most one declared slot, buffs below slot 15 and debuffs from it on, whatever
   * happens to the memory behind the table.
   */
  lemma OrderOverRuns(b: Book, casts: seq<Cast>)
    requires IsUnbuffed(b) && Legal(b, casts)
    ensures Orderly(Run(b, casts).slots)
  {
    StartIsBalanced(b, Attack);
    RunKeepsOrder(b, casts);
  }

  /**
   * Over every run whose casts on a stat are contained, the stat equals its starting value plus its live up-slots less
   * its live down-slots, in 32-bit arithmetic: all six stats, whatever happens to the memory behind the table.
   */
  lemma LedgerOverRuns(b: Book, casts: seq<Cast>, s: Stat)
    requires IsUnbuffed(b) && Legal(b, casts) && AllContained(b, casts, s)
    ensures Run(b, casts).stats[s] == Wrap(b.stats[s] + Total(Run(b, casts).slots, s))
  {
    StartIsBalanced(b, s);
    RunBalances(b, casts, s, b.stats[s]);
    BalancedValue(Run(b, casts), s, b.stats[s]);
  }

  lemma BalancedValue(b: Book, s: Stat, start: uint)
    requires Shaped(b) && Balanced(b, s, start)
    ensures b.stats[s] == Wrap(start + Total(b.slots, s))
  {
  }

  // ------------------------------------------------ recasting

  lemma {:induction false} FirstWithIs(slots: seq<Slot>, status: uint, lo: nat, hi: nat, p: nat)
    requires lo <= p < hi <= |slots| && slots[p].status == status
    requires forall k :: lo <= k < p ==> slots[k].status != status
    ensures FirstWith(slots, status, lo, hi) == p
  {
  }

  lemma SamePlaceAgain(slots: seq<Slot>, status: uint, debuff: bool, slot: Slot)
    requires |slots| == SLOTS && PositionFor(slots, status, debuff) != NO_SLOT && slot.status == status
    ensures
      var p := PositionFor(slots, status, debuff);
      PositionFor(slots[p := slot], status, debuff) == p
  {
    var p := PositionFor(slots, status, debuff);
    FirstWithIs(slots[p := slot], status, BandStart(debuff), BandEnd(debuff), p);
  }

  /** Taking the stored amount out again gives the value the amount was computed from. */
  lemma SameNormalAgain(debuff: bool, normal: uint, current: uint, slot: Slot)
    requires debuff || slot.value + current < U32
    ensures NormalValue(slot, slot.status, debuff, NewValueOf(debuff, normal, slot.value, current)) == normal
  {
    NewValueAddsAmount(debuff, normal, slot.value, current);
  }

  lemma NewValueAgain(slots: seq<Slot>, e: Effect, debuff: bool, current: uint, slot: Slot)
    requires |slots| == SLOTS && PositionFor(slots, e.status, debuff) != NO_SLOT
    requires
      var v := BuffValueOf(slots, e, debuff, current);
      && slot.status == e.status && slot.value == v.value
      && (debuff || v.value + current < U32)
    ensures
      var v := BuffValueOf(slots, e, debuff, current);
      var w := BuffValueOf(slots[v.position := slot], e, debuff, v.newValue);
      w.newValue == v.newValue || w.newValue == 0
  {
    var v := BuffValueOf(slots, e, debuff, current);
    var normal := NormalValue(slots[v.position], e.status, debuff, current);
    SamePlaceAgain(slots, e.status, debuff, slot);
    SameNormalAgain(debuff, normal, current, slot);
    NewValueAddsAmount(debuff, normal, v.value, current);
  }

  lemma RecordedAgain(slots: seq<Slot>, s: Stat, e: Effect, debuff: bool, current: uint, now: int,
                      lucky: bool, again: int)
    requires |slots| == SLOTS && s != MoveSpeed && BuffValueOf(slots, e, debuff, current).newValue != 0
    ensures
      var v := BuffValueOf(slots, e, debuff, current);
      var cast := slots[v.position := SlotFor(e, e.buff, v.value, now)];
      StatEntry(cast, s, e, debuff, lucky, v.newValue, again).value == v.newValue
  {
    var v := BuffValueOf(slots, e, debuff, current);
    if SumWraps(slots, e, debuff, current) {
      ZeroWhenWrapped(slots, e, current);
    }
    NewValueAgain(slots, e, debuff, current, SlotFor(e, e.buff, v.value, now));
  }

  /** Before a lucky move-speed cast that is followed by a recast: what decides whether the recast moves the stat. */
  predicate RecastHolds(slots: seq<Slot>, e: Effect, debuff: bool, current: uint)
    requires |slots| == SLOTS
  {
    var v := BuffValueOf(slots, e, debuff, current);
    if SumWraps(slots, e, debuff, current) then AmountOf(e, Wrap(0 - v.value)) == v.value
    else debuff || v.value + v.newValue < U32
  }

  /** A positive amount off nothing and an amount on top come to nothing again only for the same amount. */
  lemma OffAndOn(first: uint, second: uint)
    requires first > 0
    ensures Wrap(Wrap(0 - first) + second) == 0 <==> second == first
  {
    assert Wrap(0 - first) == U32 - first;
  }

  /** A stat moved by the same amount from the same value: it stays unless its own sum wraps. */
  lemma SameStatAgain(debuff: bool, normal: uint, amount: uint, current: uint)
    requires debuff || amount + current < U32
    ensures
      var moved := NewValueOf(debuff, normal, amount, current);
      NewValueOf(debuff, normal, amount, moved) == moved <==> debuff || amount + moved < U32
  {
  }

  /** The recast of an effect whose first cast did not wrap finds the same amount. */
  lemma AmountAgain(slots: seq<Slot>, e: Effect, debuff: bool, current: uint, slot: Slot)
    requires |slots| == SLOTS && PositionFor(slots, e.status, debuff) != NO_SLOT
    requires !SumWraps(slots, e, debuff, current)
    requires slot.status == e.status && slot.value == BuffValueOf(slots, e, debuff, current).value
    ensures
      var v := BuffValueOf(slots, e, debuff, current);
      var normal := NormalValue(slots[v.position], e.status, debuff, current);
      BuffValueOf(slots[v.position := slot], e, debuff, v.newValue)
      == BuffValue(v.position, NewValueOf(debuff, normal, v.value, v.newValue), v.value)
  {
    var v := BuffValueOf(slots, e, debuff, current);
    SamePlaceAgain(slots, e.status, debuff, slot);
    SameNormalAgain(debuff, NormalValue(slots[v.position], e.status, debuff, current), current, slot);
  }

  /** The recast of a move-speed effect whose first cast did not wrap: it may wrap in turn. */
  lemma SpeedAgain(slots: seq<Slot>, e: Effect, debuff: bool, current: uint, slot: Slot)
    requires |slots| == SLOTS && PositionFor(slots, e.status, debuff) != NO_SLOT
    requires !SumWraps(slots, e, debuff, current)
    requires slot.status == e.status && slot.value == BuffValueOf(slots, e, debuff, current).value
    ensures
      var v := BuffValueOf(slots, e, debuff, current);
      var w := BuffValueOf(slots[v.position := slot], e, debuff, v.newValue);
      && w.position == v.position && w.value == v.value
      && (w.newValue == v.newValue <==> debuff || v.value + v.newValue < U32)
  {
    var v := BuffValueOf(slots, e, debuff, current);
    AmountAgain(slots, e, debuff, current, slot);
    SameStatAgain(debuff, NormalValue(slots[v.position], e.status, debuff, current), v.value, current);
  }

  /** A recast on a stat at zero, whatever the first cast stored. */
  lemma RecastFromZero(slots: seq<Slot>, e: Effect, slot: Slot)
    requires |slots| == SLOTS && PositionFor(slots, e.status, false) != NO_SLOT && slot.status == e.status
    ensures
      var p := PositionFor(slots, e.status, false);
      var amount := AmountOf(e, Wrap(0 - slot.value));
      BuffValueOf(slots[p := slot], e, false, 0) == BuffValue(p, Wrap(Wrap(0 - slot.value) + amount), amount)
  {
    var p := PositionFor(slots, e.status, false);
    SamePlaceAgain(slots, e.status, false, slot);
    assert NormalValue(slots[p := slot][p], e.status, false, 0) == Wrap(0 - slot.value);
    FromZero(Wrap(0 - slot.value), AmountOf(e, Wrap(0 - slot.value)));
  }

  lemma FromZero(normal: uint, amount: uint)
    ensures NewValueOf(false, normal, amount, 0) == Wrap(normal + amount)
  {
  }

  lemma WrappingIsPositive(slots: seq<Slot>, e: Effect, current: uint)
    requires |slots| == SLOTS && SumWraps(slots, e, false, current)
    ensures BuffValueOf(slots, e, false, current).value > 0
  {
  }

  /** The recast of a move-speed effect whose first cast wrapped and left the stat at zero. */
  lemma SpeedAgainFromZero(slots: seq<Slot>, e: Effect, first: uint, slot: Slot)
    requires |slots| == SLOTS && PositionFor(slots, e.status, false) != NO_SLOT
    requires slot.status == e.status && slot.value == first > 0
    ensures
      var w := BuffValueOf(slots[PositionFor(slots, e.status, false) := slot], e, false, 0);
      && w.position == PositionFor(slots, e.status, false)
      && (w.newValue == 0 <==> AmountOf(e, Wrap(0 - first)) == first)
  {
    RecastFromZero(slots, e, slot);
    OffAndOn(first, AmountOf(e, Wrap(0 - first)));
  }

  lemma SpeedRecastIff(slots: seq<Slot>, e: Effect, debuff: bool, current: uint, now: int, again: int)
    requires |slots| == SLOTS && PositionFor(slots, e.status, debuff) != NO_SLOT
    ensures
      var once := StatEntry(slots, MoveSpeed, e, debuff, true, current, now);
      && PositionFor(once.slots, e.status, debuff) != NO_SLOT
      && (StatEntry(once.slots, MoveSpeed, e, debuff, true, once.value, again).value == once.value
          <==> RecastHolds(slots, e, debuff, current))
  {
    var v := BuffValueOf(slots, e, debuff, current);
    var slot := SlotFor(e, e.buff, v.value, now);
    SamePlaceAgain(slots, e.status, debuff, slot);
    if SumWraps(slots, e, debuff, current) {
      ZeroWhenWrapped(slots, e, current);
      WrappingIsPositive(slots, e, current);
      SpeedAgainFromZero(slots, e, v.value, slot);
    } else {
      SpeedAgain(slots, e, debuff, current, slot);
    }
  }

  /**
   * Casting the same stat effect again right away leaves the stat as the first cast left it, for numbers and for
   * percentages: an effect never stacks on itself. Only a lucky recast on move speed may: it leaves the stat exactly
   * when its sum does not pass 32 bits or, after a first cast whose sum did, when it comes to the same amount.
   */
  lemma RecastChangesNothingIff(slots: seq<Slot>, s: Stat, e: Effect, debuff: bool, current: uint, now: int,
                                lucky: bool, again: int)
    requires |slots| == SLOTS && (s == MoveSpeed ==> PositionFor(slots, e.status, debuff) != NO_SLOT)
    ensures
      var once := StatEntry(slots, s, e, debuff, true, current, now);
      && (s == MoveSpeed ==> PositionFor(once.slots, e.status, debuff) != NO_SLOT)
      && (StatEntry(once.slots, s, e, debuff, lucky, once.value, again).value == once.value
          <==> (s == MoveSpeed && lucky ==> RecastHolds(slots, e, debuff, current)))
  {
    if s == MoveSpeed {
      SpeedRecastIff(slots, e, debuff, current, now, again);
    } else {
      RecastChangesNothing(slots, s, e, debuff, current, now, lucky, again);
    }
  }

  /** A dash of 10 on a speed fifteen short of 2^32 works; cast again, it leaves no speed at all. */
  lemma DashAgainLosesTheSpeed(slots: seq<Slot>, now: int, again: int)
    requires |slots| == SLOTS && forall i :: 0 <= i < DECLARED_SLOTS ==> slots[i].status == 0
    ensures
      var once := StatEntry(slots, MoveSpeed, FAST, false, true, U32 - 15, now);
      && once.value == U32 - 5 && PositionFor(once.slots, 14, false) != NO_SLOT
      && StatEntry(once.slots, MoveSpeed, FAST, false, true, once.value, again).value == 0
  {
    assert PositionFor(slots, 14, false) == 0 by {
      assert FirstWith(slots, 14, 0, FIRST_DEBUFF) == FIRST_DEBUFF;
    }
    var v := BuffValueOf(slots, FAST, false, U32 - 15);
    var slot := SlotFor(FAST, 14, v.value, now);
    SamePlaceAgain(slots, 14, false, slot);
    SpeedAgain(slots, FAST, false, U32 - 15, slot);
    ZeroWhenWrapped(slots[0 := slot], FAST, U32 - 5);
  }

  /**
   * Casting the same stat effect again right away leaves the stat as the first cast left it, for numbers and for
   * percentages: an effect never stacks on itself.
   */
  lemma RecastChangesNothing(slots: seq<Slot>, s: Stat, e: Effect, debuff: bool, current: uint, now: int,
                             lucky: bool, again: int)
    requires |slots| == SLOTS && s != MoveSpeed
    ensures
      var once := StatEntry(slots, s, e, debuff, true, current, now);
      var twice := StatEntry(once.slots, s, e, debuff, lucky, once.value, again);
      twice.value == once.value
  {
    var v := BuffValueOf(slots, e, debuff, current);
    if v.newValue != 0 {
      RecordedAgain(slots, s, e, debuff, current, now, lucky, again);
    }
  }
}
