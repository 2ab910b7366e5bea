/** The clock side of one dungeon instance: what CDungeonManager::Update decides about it tick after tick. */
module DungeonTicks {

  const TIME_LIMIT: int := 1800
  const EMPTY_LIMIT: int := 30

  /** The timing fields of an instance; an emptySince of 0 means unset. */
  datatype Room = Room(creation: int, limit: int, wiped: bool, emptySince: int, warn10: bool, warn5: bool, warn1: bool)

  /** What one pass sees of an instance, and its two clock readings. */
  datatype Tick = Tick(empty: bool, allDead: bool, first: int, second: int)

  datatype Fate = Stays | Empties | Wipes | TimesOut

  datatype Warning = Silent | TenMinutes | FiveMinutes | OneMinute

  function NewRoom(now: int): Room {
    Room(now, TIME_LIMIT, false, 0, false, false, false)
  }

  /** Division as C does it, towards zero. */
  function Seconds(ticks: int, cps: int): int
    requires cps > 0
  {
    if ticks >= 0 then ticks / cps else -((0 - ticks) / cps)
  }

  function EmptySince(r: Room, t: Tick): int {
    if !t.empty then 0 else if r.emptySince == 0 then t.first else r.emptySince
  }

  function Elapsed(r: Room, t: Tick, cps: int): int
    requires cps > 0
  {
    Seconds(t.second - r.creation, cps)
  }

  function FateOf(r: Room, t: Tick, cps: int): Fate
    requires cps > 0
  {
    if t.empty && r.emptySince != 0 && Seconds(t.first - r.emptySince, cps) >= EMPTY_LIMIT then Empties
    else if !r.wiped && !t.empty && t.allDead then Wipes
    else if Elapsed(r, t, cps) >= r.limit then TimesOut
    else Stays
  }

  function WarningOf(r: Room, t: Tick, cps: int): Warning
    requires cps > 0
  {
    var rem := r.limit - Elapsed(r, t, cps);
    if rem <= 60 && !r.warn1 then OneMinute
    else if rem <= 300 && !r.warn5 then FiveMinutes
    else if rem <= 600 && !r.warn10 then TenMinutes
    else Silent
  }

  function Marked(r: Room, w: Warning): Room {
    match w
    case Silent => r
    case OneMinute => r.(warn1 := true)
    case FiveMinutes => r.(warn5 := true)
    case TenMinutes => r.(warn10 := true)
  }

  /** The fields of an instance that outlives a tick. */
  function Ticked(r: Room, t: Tick, cps: int): Room
    requires cps > 0
  {
    Marked(r.(emptySince := EmptySince(r, t)), WarningOf(r, t, cps))
  }

  // ------------------------------------------------ runs of ticks

  function RoomAfter(r: Room, ticks: seq<Tick>, cps: int, n: nat): Room
    requires cps > 0 && n <= |ticks|
  {
    if n == 0 then r else Ticked(RoomAfter(r, ticks, cps, n - 1), ticks[n - 1], cps)
  }

  ghost predicate EmptyFrom(ticks: seq<Tick>, j: int, n: int) {
    0 <= j <= n <= |ticks| && forall i :: j <= i < n ==> ticks[i].empty
  }

  /** The tick that set empty_since for the empty stretch ending at n, or n. */
  ghost function StretchStart(ticks: seq<Tick>, n: nat): (j: nat)
    requires n <= |ticks|
    ensures j <= n && EmptyFrom(ticks, j, n)
    ensures j < n ==> ticks[j].first != 0
    ensures forall k :: 0 <= k < n && EmptyFrom(ticks, k, n) && ticks[k].first != 0 ==> j <= k
  {
    if n == 0 || !ticks[n - 1].empty then n
    else
      var j := StretchStart(ticks, n - 1);
      assert forall k :: 0 <= k < n && EmptyFrom(ticks, k, n) ==> EmptyFrom(ticks, k, n - 1);
      if j < n - 1 then j else if ticks[n - 1].first != 0 then n - 1 else n
  }

  lemma {:induction false} EmptySinceIsStretchStart(r: Room, ticks: seq<Tick>, cps: int, n: nat)
    requires cps > 0 && n <= |ticks| && r.emptySince == 0
    ensures var j := StretchStart(ticks, n);
            RoomAfter(r, ticks, cps, n).emptySince == if j < n then ticks[j].first else 0
  {
    if n > 0 {
      EmptySinceIsStretchStart(r, ticks, cps, n - 1);
    }
  }

  lemma DivMonotone(a: int, b: int, d: int)
    requires d > 0 && 0 <= a <= b
    ensures 0 <= a / d <= b / d
  {
    var p, q := a / d, b / d;
    assert (q + 1) * d == q * d + d;
    if p > q {
      MulMonotone(q + 1, p, d);
    }
  }

  lemma MulMonotone(x: int, y: int, d: int)
    requires d > 0 && x <= y
    ensures x * d <= y * d
  {
    assert (y - x) * d >= 0;
  }

  /** Whole seconds, in clock ticks. */
  lemma SecondsAtLeast(t: int, cps: int, n: nat)
    requires cps > 0 && n > 0
    ensures Seconds(t, cps) >= n <==> t >= n * cps
  {
    MulMonotone(1, n, cps);
    if t >= 0 {
      var q := t / cps;
      assert q * cps <= t < (q + 1) * cps == q * cps + cps;
      if q >= n {
        MulMonotone(n, q, cps);
      } else {
        MulMonotone(q + 1, n, cps);
      }
    } else {
      DivMonotone(0, 0 - t, cps);
    }
  }

  /** Empty at every tick from j to n, j's reading nonzero and at least thirty seconds back. */
  ghost predicate EmptyLong(ticks: seq<Tick>, j: int, n: nat, cps: int)
    requires cps > 0 && n < |ticks|
  {
    && 0 <= j < n && EmptyFrom(ticks, j, n + 1) && ticks[j].first != 0
    && ticks[n].first - ticks[j].first >= 30 * cps
  }

  lemma RemovedOnlyWhenEmptyLong(r: Room, ticks: seq<Tick>, cps: int, n: nat)
    requires cps > 0 && n < |ticks| && r.emptySince == 0
    requires FateOf(RoomAfter(r, ticks, cps, n), ticks[n], cps) == Empties
    ensures EmptyLong(ticks, StretchStart(ticks, n), n, cps)
  {
    EmptySinceIsStretchStart(r, ticks, cps, n);
    SecondsAtLeast(ticks[n].first - ticks[StretchStart(ticks, n)].first, cps, EMPTY_LIMIT);
  }

  lemma RemovedIfEmptyLong(r: Room, ticks: seq<Tick>, cps: int, n: nat, j: nat)
    requires cps > 0 && n < |ticks| && r.emptySince == 0
    requires forall i, k :: 0 <= i <= k < |ticks| ==> ticks[i].first <= ticks[k].first
    requires EmptyLong(ticks, j, n, cps)
    ensures FateOf(RoomAfter(r, ticks, cps, n), ticks[n], cps) == Empties
  {
    EmptySinceIsStretchStart(r, ticks, cps, n);
    var s := StretchStart(ticks, n);
    assert EmptyFrom(ticks, j, n) && s <= j;
    SecondsAtLeast(ticks[n].first - ticks[s].first, cps, EMPTY_LIMIT);
  }

  /**
   * An instance is removed for emptiness at tick n exactly when it has been empty at every tick since one whose
   * (nonzero) reading is at least thirty seconds back.
   */
  lemma RemovedWhenEmptyThirtySeconds(r: Room, ticks: seq<Tick>, cps: int, n: nat)
    requires cps > 0 && n < |ticks| && r.emptySince == 0
    requires forall i, j :: 0 <= i <= j < |ticks| ==> ticks[i].first <= ticks[j].first
    ensures FateOf(RoomAfter(r, ticks, cps, n), ticks[n], cps) == Empties <==> exists j :: EmptyLong(ticks, j, n, cps)
  {
    if FateOf(RoomAfter(r, ticks, cps, n), ticks[n], cps) == Empties {
      RemovedOnlyWhenEmptyLong(r, ticks, cps, n);
    }
    if j :| EmptyLong(ticks, j, n, cps) {
      RemovedIfEmptyLong(r, ticks, cps, n, j);
    }
  }

  predicate Sent(r: Room, w: Warning) {
    (w == OneMinute && r.warn1) || (w == FiveMinutes && r.warn5) || (w == TenMinutes && r.warn10)
  }

  lemma {:induction false} SentStaysSent(r: Room, ticks: seq<Tick>, cps: int, i: nat, n: nat, w: Warning)
    requires cps > 0 && i <= n <= |ticks| && Sent(RoomAfter(r, ticks, cps, i), w)
    ensures Sent(RoomAfter(r, ticks, cps, n), w)
    decreases n
  {
    if i < n {
      SentStaysSent(r, ticks, cps, i, n - 1, w);
    }
  }

  lemma SendingIsRemembered(r: Room, t: Tick, cps: int, w: Warning)
    requires cps > 0 && w != Silent
    ensures WarningOf(r, t, cps) == w ==> Sent(Ticked(r, t, cps), w)
    ensures Sent(r, w) ==> WarningOf(r, t, cps) != w
  {
  }

  lemma SentAfterTick(r: Room, ticks: seq<Tick>, cps: int, i: nat, w: Warning)
    requires cps > 0 && i < |ticks| && w != Silent && WarningOf(RoomAfter(r, ticks, cps, i), ticks[i], cps) == w
    ensures Sent(RoomAfter(r, ticks, cps, i + 1), w)
  {
    SendingIsRemembered(RoomAfter(r, ticks, cps, i), ticks[i], cps, w);
  }

  /** Each warning is broadcast at most once in the life of an instance. */
  lemma WarnedAtMostOnce(r: Room, ticks: seq<Tick>, cps: int, i: nat, j: nat)
    requires cps > 0 && i < j < |ticks|
    ensures var w := WarningOf(RoomAfter(r, ticks, cps, i), ticks[i], cps);
            w == Silent || WarningOf(RoomAfter(r, ticks, cps, j), ticks[j], cps) != w
  {
    var w := WarningOf(RoomAfter(r, ticks, cps, i), ticks[i], cps);
    if w != Silent {
      SentAfterTick(r, ticks, cps, i, w);
      SentStaysSent(r, ticks, cps, i + 1, j, w);
      SendingIsRemembered(RoomAfter(r, ticks, cps, j), ticks[j], cps, w);
    }
  }

  // ------------------------------------------------ warnings over a life

  /** What is broadcast at tick n in the life of an instance created now. */
  function WarnedAt(now: int, ticks: seq<Tick>, cps: int, n: nat): Warning
    requires cps > 0 && n < |ticks|
  {
    WarningOf(RoomAfter(NewRoom(now), ticks, cps, n), ticks[n], cps)
  }

  /** The flags remember what has been broadcast, and the instance keeps its birth and its limit. */
  lemma {:induction false} FlagsRemember(now: int, ticks: seq<Tick>, cps: int, n: nat)
    requires cps > 0 && n <= |ticks|
    ensures
      var r := RoomAfter(NewRoom(now), ticks, cps, n);
      && r.creation == now && r.limit == 1800
      && (r.warn1 <==> exists k :: 0 <= k < n && WarnedAt(now, ticks, cps, k) == OneMinute)
      && (r.warn5 <==> exists k :: 0 <= k < n && WarnedAt(now, ticks, cps, k) == FiveMinutes)
      && (r.warn10 <==> exists k :: 0 <= k < n && WarnedAt(now, ticks, cps, k) == TenMinutes)
  {
    if n > 0 {
      FlagsRemember(now, ticks, cps, n - 1);
      var r := RoomAfter(NewRoom(now), ticks, cps, n - 1);
      assert WarnedAt(now, ticks, cps, n - 1) == WarningOf(r, ticks[n - 1], cps);
    }
  }

  /** At one tick: a minute left or less, five or less, ten or less, and the first of them not yet said is said. */
  lemma WarningIs(now: int, ticks: seq<Tick>, cps: int, n: nat)
    requires cps > 0 && n < |ticks|
    ensures
      var r, age := RoomAfter(NewRoom(now), ticks, cps, n), ticks[n].second - now;
      && (WarnedAt(now, ticks, cps, n) == OneMinute <==> age >= 1740 * cps && !r.warn1)
      && (WarnedAt(now, ticks, cps, n) == FiveMinutes <==>
            age >= 1500 * cps && WarnedAt(now, ticks, cps, n) != OneMinute && !r.warn5)
      && (WarnedAt(now, ticks, cps, n) == TenMinutes <==>
            age >= 1200 * cps && WarnedAt(now, ticks, cps, n) != OneMinute
            && WarnedAt(now, ticks, cps, n) != FiveMinutes && !r.warn10)
  {
    FlagsRemember(now, ticks, cps, n);
    SecondsAtLeast(ticks[n].second - now, cps, 1740);
    SecondsAtLeast(ticks[n].second - now, cps, 1500);
    SecondsAtLeast(ticks[n].second - now, cps, 1200);
  }

  /** The last minute is announced at the first tick with a minute left or less, and at no other. */
  lemma OneMinuteIff(now: int, ticks: seq<Tick>, cps: int, n: nat)
    requires cps > 0 && n < |ticks|
    ensures
      WarnedAt(now, ticks, cps, n) == OneMinute <==>
        && ticks[n].second - now >= 1740 * cps
        && forall k :: 0 <= k < n ==> ticks[k].second - now < 1740 * cps
  {
    WarningIs(now, ticks, cps, n);
    FlagsRemember(now, ticks, cps, n);
    forall k | 0 <= k < n
      ensures WarnedAt(now, ticks, cps, k) == OneMinute ==> ticks[k].second - now >= 1740 * cps
      ensures ticks[k].second - now >= 1740 * cps ==>
                exists l :: 0 <= l < n && WarnedAt(now, ticks, cps, l) == OneMinute
    {
      WarningIs(now, ticks, cps, k);
      FlagsRemember(now, ticks, cps, k);
    }
  }

  /**
   * Five minutes are announced at the first tick with five left or less that does not announce the last one: late, if
   * the ticks before were too far apart.
   */
  lemma FiveMinutesIff(now: int, ticks: seq<Tick>, cps: int, n: nat)
    requires cps > 0 && n < |ticks|
    ensures
      WarnedAt(now, ticks, cps, n) == FiveMinutes <==>
        && ticks[n].second - now >= 1500 * cps && WarnedAt(now, ticks, cps, n) != OneMinute
        && forall k :: 0 <= k < n && ticks[k].second - now >= 1500 * cps ==> WarnedAt(now, ticks, cps, k) == OneMinute
  {
    WarningIs(now, ticks, cps, n);
    FlagsRemember(now, ticks, cps, n);
    forall k | 0 <= k < n
      ensures WarnedAt(now, ticks, cps, k) == FiveMinutes ==> ticks[k].second - now >= 1500 * cps
      ensures ticks[k].second - now >= 1500 * cps && WarnedAt(now, ticks, cps, k) != OneMinute ==>
                exists l :: 0 <= l < n && WarnedAt(now, ticks, cps, l) == FiveMinutes
    {
      WarningIs(now, ticks, cps, k);
      FlagsRemember(now, ticks, cps, k);
    }
  }

  /** Ten minutes are announced at the first tick with ten left or less that announces neither of the others. */
  lemma TenMinutesIff(now: int, ticks: seq<Tick>, cps: int, n: nat)
    requires cps > 0 && n < |ticks|
    ensures
      WarnedAt(now, ticks, cps, n) == TenMinutes <==>
        && ticks[n].second - now >= 1200 * cps
        && WarnedAt(now, ticks, cps, n) != OneMinute && WarnedAt(now, ticks, cps, n) != FiveMinutes
        && forall k :: 0 <= k < n && ticks[k].second - now >= 1200 * cps ==>
             WarnedAt(now, ticks, cps, k) == OneMinute || WarnedAt(now, ticks, cps, k) == FiveMinutes
  {
    WarningIs(now, ticks, cps, n);
    FlagsRemember(now, ticks, cps, n);
    forall k | 0 <= k < n
      ensures WarnedAt(now, ticks, cps, k) == TenMinutes ==> ticks[k].second - now >= 1200 * cps
      ensures
        ticks[k].second - now >= 1200 * cps
        && WarnedAt(now, ticks, cps, k) != OneMinute && WarnedAt(now, ticks, cps, k) != FiveMinutes ==>
          exists l :: 0 <= l < n && WarnedAt(now, ticks, cps, l) == TenMinutes
    {
      WarningIs(now, ticks, cps, k);
      FlagsRemember(now, ticks, cps, k);
    }
  }
}
