/** The character object whose slots, stats and pointers CheckABuffs overwrites. */
module Characters {
  import opened Wrappers
  import opened BuffLedger
  import opened BuffRuns

  /** Whether CheckABuffs answers true. */
  function Lands(b: Book, e: Effect, lucky: bool, foreign: Option<uint>, now: int): bool
    requires Shaped(b) && Castable(b.slots, e)
  {
    var debuff := IsDebuff(e.status);
    match ArmOf(e.status)
    case StatArm(s) => StatEntry(b.slots, s, e, debuff, lucky, b.stats[s], now).recorded
    case AilmentArm => lucky && PositionFor(b.slots, e.status, debuff) != NO_SLOT
    case OtherArm => foreign.Some? && PositionFor(b.slots, e.status, debuff) != NO_SLOT
    case PurifyArm => lucky && PositionFor(b.slots, e.status, debuff) != NO_SLOT
    case _ => false
  }

  /** A cast that is answered with no has changed nothing, dispels apart, which are never answered with yes. */
  lemma NoChangesNothing(b: Book, e: Effect, lucky: bool, foreign: Option<uint>, now: int)
    requires Shaped(b) && Castable(b.slots, e)
    ensures e.status == 37 || e.status == 39 ==> !Lands(b, e, lucky, foreign, now)
    ensures
      e.status != 37 && e.status != 39 && !Lands(b, e, lucky, foreign, now) ==> Apply(b, e, lucky, foreign, now) == b
  {
    match ArmOf(e.status)
    case StatArm(s) =>
    case AilmentArm =>
    case OtherArm =>
    case PurifyArm =>
    case DispelArm =>
    case UnknownArm =>
  }

  predicate Written(slot: Slot, e: Effect, now: int) {
    slot.status == e.status && slot.duration == e.duration && slot.buffTime == now
  }

  lemma StatWrites(b: Book, s: Stat, e: Effect, lucky: bool, now: int)
    requires Shaped(b) && Castable(b.slots, e) && ArmOf(e.status) == StatArm(s)
    requires StatEntry(b.slots, s, e, IsDebuff(e.status), lucky, b.stats[s], now).recorded
    ensures
      var p := PositionFor(b.slots, e.status, IsDebuff(e.status));
      p < SLOTS && Written(ApplyStat(b, s, e, IsDebuff(e.status), lucky, now).slots[p], e, now)
  {
  }

  lemma FillWrites(b: Book, e: Effect, buff: uint, value: uint, now: int)
    requires Shaped(b) && PositionFor(b.slots, e.status, IsDebuff(e.status)) != NO_SLOT
    ensures
      var p := PositionFor(b.slots, e.status, IsDebuff(e.status));
      && p < SLOTS
      && Written(ApplyOther(b, e, IsDebuff(e.status), Some(SlotFor(e, buff, value, now))).slots[p], e, now)
  {
  }

  /** One that is answered with yes, purifications apart, has left its status, duration and time in a slot. */
  lemma YesLeavesASlot(b: Book, e: Effect, lucky: bool, foreign: Option<uint>, now: int) returns (p: nat)
    requires Shaped(b) && Castable(b.slots, e) && e.status != 38 && Lands(b, e, lucky, foreign, now)
    ensures p < SLOTS && Written(Apply(b, e, lucky, foreign, now).slots[p], e, now)
  {
    p := PositionFor(b.slots, e.status, IsDebuff(e.status));
    match ArmOf(e.status)
    case StatArm(s) => StatWrites(b, s, e, lucky, now);
    case AilmentArm => FillWrites(b, e, e.status, 0, now);
    case OtherArm => FillWrites(b, e, OtherBuff(e), foreign.value, now);
  }

  /** The casts of a skill that carry a status; the others are instant effects on HP, MP or stamina. */
  function WithStatus(casts: seq<Cast>): seq<Cast> {
    if casts == [] then []
    else if casts[0].effect.status != 0 then [casts[0]] + WithStatus(casts[1..])
    else WithStatus(casts[1..])
  }

  /** AddBuffs' answer: that of the last effect it came to; those without a status but with a buff are instant. */
  ghost function LastAnswer(b: Book, casts: seq<Cast>, instant: seq<bool>, flag: bool): bool
    requires Shaped(b) && Legal(b, WithStatus(casts)) && |instant| == |casts|
    decreases |casts|
  {
    if casts == [] then flag
    else
      var c := casts[0];
      if c.effect.status != 0 then
        LastAnswer(After(b, c), casts[1..], instant[1..], Lands(Found(b, c), c.effect, c.lucky, c.foreign, c.now))
      else LastAnswer(b, casts[1..], instant[1..], if c.effect.buff != 0 then instant[0] else flag)
  }

  /** If the last effect has a status, the answer is the one its own cast gives, whatever came before. */
  lemma {:induction false} LastCastAnswers(b: Book, casts: seq<Cast>, c: Cast, instant: seq<bool>, x: bool, flag: bool)
    requires Shaped(b) && c.effect.status != 0 && |instant| == |casts| && Legal(b, WithStatus(casts + [c]))
    ensures Legal(b, WithStatus(casts))
    ensures
      var r := Found(Run(b, WithStatus(casts)), c);
      && Castable(r.slots, c.effect)
      && LastAnswer(b, casts + [c], instant + [x], flag) == Lands(r, c.effect, c.lucky, c.foreign, c.now)
    decreases |casts|
  {
    var all, answers := casts + [c], instant + [x];
    if casts == [] {
      assert all[0] == c && all[1..] == [];
      assert WithStatus(all) == [c] + WithStatus(all[1..]) == [c];
    } else {
      var first := casts[0];
      assert all[0] == first && all[1..] == casts[1..] + [c];
      assert answers[0] == instant[0] && answers[1..] == instant[1..] + [x];
      if first.effect.status != 0 {
        assert WithStatus(all)[0] == first && WithStatus(all)[1..] == WithStatus(casts[1..] + [c]);
        assert WithStatus(casts)[0] == first && WithStatus(casts)[1..] == WithStatus(casts[1..]);
        LastCastAnswers(After(b, first), casts[1..], c, instant[1..], x,
                        Lands(Found(b, first), first.effect, first.lucky, first.foreign, first.now));
      } else {
        LastCastAnswers(b, casts[1..], c, instant[1..], x, if first.effect.buff != 0 then instant[0] else flag);
      }
    }
  }

  class Character {
    const magicStatus: array<Slot>
    var stats: map<Stat, uint>
    var up: map<Stat, nat>
    var down: map<Stat, nat>

    ghost predicate Valid()
      reads this
    {
      && magicStatus.Length == SLOTS
      && forall s: Stat :: s in stats && s in up && s in down
    }

    ghost function View(): (b: Book)
      reads this, magicStatus
      requires Valid()
      ensures Shaped(b)
    {
      Book(magicStatus[..], stats, up, down)
    }

    /** Behind the declared slots lie other fields, whatever they hold. */
    constructor (start: map<Stat, uint>, behind: Slot)
      requires forall s: Stat :: s in start
      ensures Valid() && fresh(magicStatus)
      ensures IsUnbuffed(View()) && View().stats == start
    {
      magicStatus := new Slot[SLOTS](i => if i < DECLARED_SLOTS then EMPTY_SLOT else behind);
      stats := start;
      var unset := map[Attack := NO_SLOT, Defense := NO_SLOT, Accuracy := NO_SLOT,
                       MagicDefense := NO_SLOT, Dodge := NO_SLOT, MoveSpeed := NO_SLOT];
      up, down := unset, unset;
      forall s: Stat
        ensures s in unset && unset[s] == NO_SLOT
      {
        match s
        case Attack =>
        case Defense =>
        case Accuracy =>
        case MagicDefense =>
        case Dodge =>
        case MoveSpeed =>
      }
    }

    /** The search loops: the first slot of [lo, hi) with the given status, or hi. */
    method Search(status: uint, lo: nat, hi: nat) returns (z: nat)
      requires Valid() && lo <= hi <= SLOTS
      ensures z == FirstWith(magicStatus[..], status, lo, hi)
    {
      z := lo;
      while z < hi
        invariant lo <= z <= hi
        invariant FirstWith(magicStatus[..], status, lo, hi) == FirstWith(magicStatus[..], status, z, hi)
      {
        if magicStatus[z].status == status {
          return;
        }
        z := z + 1;
      }
    }

    method FindPosition(status: uint, debuff: bool) returns (p: nat)
      requires Valid()
      ensures p == PositionFor(magicStatus[..], status, debuff)
    {
      var lo, hi := BandStart(debuff), BandEnd(debuff);
      p := Search(status, lo, hi);
      if p == hi {
        p := Search(0, lo, hi);
        if p == hi {
          p := NO_SLOT;
        }
      }
    }

    /** The percentage of the stat, then the plain number with the INT bonus. */
    method GetAmount(e: Effect, normal: uint) returns (value: uint)
      ensures value == AmountOf(e, normal)
    {
      value := 0;
      if e.value2 > 0 {
        value := Wrap(normal * e.value2) / 100;
      }
      if e.value1 > 0 {
        value := Wrap(value + e.value1 + e.bonus);
      }
    }

    /** The stat with the amount put on top of what is left of it, or taken off it. */
    method GetNewValue(debuff: bool, normal: uint, value: uint, current: uint) returns (newValue: uint)
      ensures newValue == NewValueOf(debuff, normal, value, current)
    {
      if debuff {
        newValue := Wrap(normal - value);
      } else if Wrap(value + current) >= current {
        newValue := Wrap(normal + value);
      } else {
        newValue := 0;
      }
    }

    method GetBuffValue(e: Effect, debuff: bool, current: uint) returns (v: BuffValue)
      requires Valid()
      ensures v == BuffValueOf(magicStatus[..], e, debuff, current)
    {
      var p := FindPosition(e.status, debuff);
      if p == NO_SLOT {
        return BuffValue(NO_SLOT, 0, 0);
      }
      var normal := current;
      if magicStatus[p].status == e.status {
        normal := if debuff then Wrap(current + magicStatus[p].value) else Wrap(current - magicStatus[p].value);
      }
      var value := GetAmount(e, normal);
      var newValue := GetNewValue(debuff, normal, value, current);
      v := BuffValue(p, newValue, value);
    }

    /** The five guarded stat arms and the move-speed arm. */
    method CheckStat(s: Stat, e: Effect, lucky: bool, now: int) returns (flag: bool)
      requires Valid()
      requires s == MoveSpeed ==> PositionFor(magicStatus[..], e.status, IsDebuff(e.status)) != NO_SLOT
      modifies this, magicStatus
      ensures Valid()
      ensures View() == ApplyStat(old(View()), s, e, IsDebuff(e.status), lucky, now)
      ensures flag == StatEntry(old(magicStatus[..]), s, e, IsDebuff(e.status), lucky, old(stats[s]), now).recorded
    {
      if s != Attack && !lucky {
        return false;
      }
      var v := GetBuffValue(e, IsDebuff(e.status), stats[s]);
      if s != MoveSpeed && v.newValue == 0 {
        return false;
      }
      var j := v.position;
      stats := stats[s := v.newValue];
      if j < FIRST_DEBUFF {
        up := up[s := j];
      } else {
        down := down[s := j];
      }
      magicStatus[j] := SlotFor(e, e.buff, v.value, now);
      return true;
    }

    /** The arms that only fill a slot. */
    method FillSlot(e: Effect, buff: uint, value: uint, now: int) returns (flag: bool)
      requires Valid()
      modifies magicStatus
      ensures View() == ApplyOther(old(View()), e, IsDebuff(e.status), Some(SlotFor(e, buff, value, now)))
      ensures flag == (PositionFor(old(magicStatus[..]), e.status, IsDebuff(e.status)) != NO_SLOT)
    {
      var j := FindPosition(e.status, IsDebuff(e.status));
      if j == NO_SLOT {
        return false;
      }
      magicStatus[j] := SlotFor(e, buff, value, now);
      return true;
    }

    method Purify(e: Effect) returns (flag: bool)
      requires Valid()
      modifies magicStatus
      ensures
        var p := PositionFor(old(magicStatus[..]), e.status, IsDebuff(e.status));
        && flag == (p != NO_SLOT)
        && magicStatus[..] == if !flag then old(magicStatus[..])
                              else old(magicStatus[..])[p := Faded(old(magicStatus[..])[p])]
    {
      var j := FindPosition(e.status, IsDebuff(e.status));
      if j == NO_SLOT {
        return false;
      }
      magicStatus[j] := Faded(magicStatus[j]);
      return true;
    }

    method Dispel()
      requires Valid()
      modifies magicStatus
      ensures magicStatus[..] == FadeTo(old(magicStatus[..]), DECLARED_SLOTS)
    {
      for i := 0 to DECLARED_SLOTS
        invariant forall k :: 0 <= k < SLOTS ==>
          magicStatus[k] == if k < i then Faded(old(magicStatus[..])[k]) else old(magicStatus[..])[k]
      {
        magicStatus[i] := Faded(magicStatus[i]);
      }
    }

    /** The arms that move no stat of this model. */
    method CheckRest(e: Effect, lucky: bool, foreign: Option<uint>, now: int) returns (flag: bool)
      requires Valid() && Castable(magicStatus[..], e) && !ArmOf(e.status).StatArm?
      modifies magicStatus
      ensures View() == Apply(old(View()), e, lucky, foreign, now)
      ensures flag == Lands(old(View()), e, lucky, foreign, now)
    {
      flag := false;
      match ArmOf(e.status) {
        case AilmentArm =>
          if lucky {
            flag := FillSlot(e, e.status, 0, now);
          }
        case OtherArm =>
          if foreign.Some? {
            flag := FillSlot(e, OtherBuff(e), foreign.value, now);
          }
        case PurifyArm =>
          if lucky {
            flag := Purify(e);
          }
        case DispelArm =>
          if lucky {
            Dispel();
          }
        case UnknownArm =>
      }
    }

    method CheckABuffs(e: Effect, lucky: bool, foreign: Option<uint>, now: int) returns (flag: bool)
      requires Valid() && Castable(magicStatus[..], e)
      modifies this, magicStatus
      ensures Valid()
      ensures View() == Apply(old(View()), e, lucky, foreign, now)
      ensures flag == Lands(old(View()), e, lucky, foreign, now)
    {
      if ArmOf(e.status).StatArm? {
        flag := CheckStat(ArmOf(e.status).stat, e, lucky, now);
      } else {
        flag := CheckRest(e, lucky, foreign, now);
      }
    }

    /** Other fields' memory changes as it will. */
    method Elsewhere(behind: (Slot, Slot))
      requires Valid()
      modifies magicStatus
      ensures magicStatus[..] == Meanwhile(old(magicStatus[..]), behind)
    {
      magicStatus[DECLARED_SLOTS] := behind.0;
      magicStatus[DECLARED_SLOTS + 1] := behind.1;
    }

    method CastOne(c: Cast) returns (flag: bool)
      requires Valid() && Castable(Found(View(), c).slots, c.effect)
      modifies this, magicStatus
      ensures Valid()
      ensures View() == After(old(View()), c)
      ensures flag == Lands(Found(old(View()), c), c.effect, c.lucky, c.foreign, c.now)
    {
      Elsewhere(c.behind);
      flag := CheckABuffs(c.effect, c.lucky, c.foreign, c.now);
    }

    /** AddBuffs: the statuses of a skill one after the other; instant holds what InstantBuff answers. */
    method AddBuffs(casts: seq<Cast>, instant: seq<bool>) returns (flag: bool)
      requires Valid() && Legal(View(), WithStatus(casts)) && |instant| == |casts|
      modifies this, magicStatus
      ensures Valid()
      ensures View() == Run(old(View()), WithStatus(casts))
      ensures flag == old(LastAnswer(View(), casts, instant, false))
    {
      flag := false;
      var left, answers := casts, instant;
      while left != []
        invariant Valid() && Legal(View(), WithStatus(left)) && |answers| == |left|
        invariant Run(View(), WithStatus(left)) == Run(old(View()), WithStatus(casts))
        invariant LastAnswer(View(), left, answers, flag) == old(LastAnswer(View(), casts, instant, false))
        decreases |left|
      {
        var c := left[0];
        if c.effect.status != 0 {
          assert WithStatus(left)[1..] == WithStatus(left[1..]);
          flag := CastOne(c);
        } else if c.effect.buff != 0 {
          flag := answers[0];
        }
        left, answers := left[1..], answers[1..];
      }
    }
  }
}
