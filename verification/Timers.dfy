/** The timers of run loops: arrays sorted by a fire time that changes, back references, arming and firing. */
module Timers {
  import opened Bytes

  const UINT64_MAX: u64 := TWO64 - 1
  const LLONG_MAX: u64 := 0x7FFF_FFFF_FFFF_FFFF

  type Name = nat

  /** A timer. Interval and tolerance are in ticks; `repeats` says that the interval is positive. */
  class Timer {
    var fireTSR: u64
    var rlModes: set<Name>
    var runLoop: RunLoop?
    var firing: bool
    var valid: bool
    const repeats: bool
    const intervalTSR: u64
    var toleranceTSR: u64

    constructor (fireTSR: u64, repeats: bool, intervalTSR: u64)
      ensures this.fireTSR == fireTSR && rlModes == {} && runLoop == null && !firing && valid
      ensures this.repeats == repeats && this.intervalTSR == intervalTSR && toleranceTSR == 0
    {
      this.fireTSR, rlModes, runLoop, firing, valid, toleranceTSR := fireTSR, {}, null, false, true, 0;
      this.repeats, this.intervalTSR := repeats, intervalTSR;
    }
  }

  // ----- sorted arrays of timers

  ghost predicate Sorted(q: seq<Timer>)
    reads (set t | t in q)`fireTSR
  {
    forall i, j | 0 <= i < j < |q| :: q[i].fireTSR <= q[j].fireTSR
  }

  /** Sorted, but for one timer whose fire time has just been changed. */
  ghost predicate SortedBut(q: seq<Timer>, t: Timer)
    reads (set t | t in q)`fireTSR
  {
    forall i, j | 0 <= i < j < |q| && q[i] != t && q[j] != t :: q[i].fireTSR <= q[j].fireTSR
  }

  /** flsl: the position of the highest bit, counted from one. */
  function HighBit(n: nat): (b: nat)
    ensures n < Pow2(b) && (n > 0 ==> b > 0 && Pow2(b - 1) <= n)
  {
    if n == 0 then 0 else HighBit(n / 2) + 1
  }

  function Pow2(n: nat): (r: nat)
    ensures r >= 1
  {
    if n == 0 then 1 else 2 * Pow2(n - 1)
  }

  lemma {:induction false} Pow2Monotone(a: nat, b: nat)
    requires a <= b
    ensures Pow2(a) <= Pow2(b)
  {
    if a < b { Pow2Monotone(a, b - 1); }
  }

  /** The search step is computed in 32 bits: it does not overflow for arrays of fewer than half a billion timers. */
  lemma {:induction false} StepFits(n: nat)
    requires n < 0x2000_0000
    ensures Pow2(HighBit(n)) * 2 < 0x8000_0000
  {
    if HighBit(n) > 29 {
      Pow2Monotone(29, HighBit(n) - 1);
      assert Pow2(29) == 0x2000_0000 by { Pow2Of29(); }
    } else {
      Pow2Monotone(HighBit(n), 29);
      assert Pow2(29) == 0x2000_0000 by { Pow2Of29(); }
    }
  }

  lemma Pow2Of29()
    ensures Pow2(29) == 0x2000_0000
  {
    assert Pow2(5) == 32;
    assert Pow2(9) == 16 * Pow2(5);
    assert Pow2(13) == 16 * Pow2(9);
    assert Pow2(17) == 16 * Pow2(13);
    assert Pow2(21) == 16 * Pow2(17);
    assert Pow2(25) == 16 * Pow2(21);
    assert Pow2(29) == 16 * Pow2(25);
  }

  /** __CFRunLoopInsertionIndexInTimerArray: behind every timer that fires no later. */
  method InsertionIndex(q: seq<Timer>, rlt: Timer) returns (index: nat)
    requires Sorted(q) && |q| < 0x2000_0000
    ensures index <= |q|
    ensures forall i | 0 <= i < index :: q[i].fireTSR <= rlt.fireTSR
    ensures forall i | index <= i < |q| :: q[i].fireTSR > rlt.fireTSR
  {
    var cnt := |q|;
    if cnt <= 0 {
      return 0;
    }
    if 256 < cnt {
      if q[cnt - 1].fireTSR <= rlt.fireTSR {
        return cnt;
      }
      if rlt.fireTSR < q[0].fireTSR {
        return 0;
      }
    }
    StepFits(cnt);
    ghost var bit: nat := HighBit(cnt) + 1;
    var add: nat := Pow2(HighBit(cnt)) * 2;
    var idx, lastTestLEQ := 0, false;
    while true
      invariant idx < cnt && add == Pow2(bit)
      invariant idx == 0 || q[idx].fireTSR <= rlt.fireTSR
      invariant forall i | idx + add <= i < cnt :: q[i].fireTSR > rlt.fireTSR
      decreases bit
    {
      add := add / 2;
      lastTestLEQ := false;
      var testIdx := idx + add;
      if testIdx < cnt {
        if q[testIdx].fireTSR <= rlt.fireTSR {
          idx := testIdx;
          lastTestLEQ := true;
        }
      }
      if add == 0 {
        break;
      }
      assert bit > 0;
      bit := bit - 1;
    }
    return if lastTestLEQ then idx + 1 else idx;
  }

  // ----- arming

  /** The latest time a timer may fire; the sum saturates. */
  function HardDeadline(fireTSR: u64, toleranceTSR: u64): (d: u64)
    ensures d >= fireTSR
  {
    if fireTSR + toleranceTSR > UINT64_MAX then UINT64_MAX else fireTSR + toleranceTSR
  }

  /** These are the deadlines of the timers that are not firing: the least fire time, and the least sum of fire time and
      tolerance; UINT64_MAX if every sum is beyond 64 bits. */
  ghost predicate Deadlines(q: seq<Timer>, soft: u64, hard: u64)
    reads (set t | t in q)`fireTSR, (set t | t in q)`firing, (set t | t in q)`toleranceTSR
  {
    && (forall i | 0 <= i < |q| && !q[i].firing ::
          soft <= q[i].fireTSR && hard <= q[i].fireTSR + q[i].toleranceTSR)
    && (soft == UINT64_MAX || exists i | 0 <= i < |q| && !q[i].firing :: soft == q[i].fireTSR)
    && (hard == UINT64_MAX || exists i | 0 <= i < |q| && !q[i].firing ::
          hard == q[i].fireTSR + q[i].toleranceTSR)
  }

  /** One more timer: a firing one does not count, another may lower the deadlines. */
  lemma DeadlinesNext(q: seq<Timer>, i: nat, soft: u64, hard: u64)
    requires i < |q| && Deadlines(q[..i], soft, hard)
    ensures var t := q[i];
            var oneHard := HardDeadline(t.fireTSR, t.toleranceTSR);
            if t.firing then Deadlines(q[..i + 1], soft, hard)
            else Deadlines(q[..i + 1], if t.fireTSR < soft then t.fireTSR else soft,
                           if oneHard < hard then oneHard else hard)
  {
    var p, p' := q[..i], q[..i + 1];
    assert p' == p + [q[i]] && p'[i] == q[i];
    assert forall k | 0 <= k < i :: p'[k] == p[k];
  }

  /** The timers behind one that fires after the hard deadline do not matter. */
  lemma DeadlinesWhole(q: seq<Timer>, i: nat, soft: u64, hard: u64)
    requires i <= |q| && Sorted(q) && Deadlines(q[..i], soft, hard) && soft <= hard
    requires i < |q| ==> q[i].fireTSR > hard
    ensures Deadlines(q, soft, hard)
  {
    assert forall k | 0 <= k < i :: q[..i][k] == q[k];
    forall k | i <= k < |q|
      ensures hard < q[k].fireTSR <= q[k].fireTSR + q[k].toleranceTSR
    {
      assert q[i].fireTSR <= q[k].fireTSR;
    }
  }

  /** The search of __CFArmNextTimerInMode. It stops early, and still finds the deadlines of the whole array. */
  method NextDeadlines(q: seq<Timer>) returns (soft: u64, hard: u64)
    requires Sorted(q)
    ensures Deadlines(q, soft, hard)
  {
    hide Deadlines, Sorted;
    soft, hard := UINT64_MAX, UINT64_MAX;
    NoDeadlines(q);
    var i := 0;
    while i < |q|
      invariant i <= |q| && soft <= hard && Deadlines(q[..i], soft, hard)
    {
      DeadlinesNext(q, i, soft, hard);
      var t := q[i];
      if !t.firing {
        var oneSoft, oneHard := t.fireTSR, HardDeadline(t.fireTSR, t.toleranceTSR);
        if oneSoft > hard {
          break;
        }
        if oneSoft < soft {
          soft := oneSoft;
        }
        if oneHard < hard {
          hard := oneHard;
        }
      }
      i := i + 1;
    }
    DeadlinesWhole(q, i, soft, hard);
  }

  lemma NoDeadlines(q: seq<Timer>)
    ensures Deadlines(q[..0], UINT64_MAX, UINT64_MAX)
  {
  }

  // ----- the next fire time of a repeating timer

  /** The least fire time after `now` that is a whole number of intervals away, unless it would saturate. */
  ghost predicate NextFireTime(next: u64, old_: u64, interval: u64, now: u64) {
    if LLONG_MAX - interval <= old_ then next == LLONG_MAX
    else exists k: nat :: Multiple(next, old_, interval, k) && next > now && (k == 0 || next - interval <= now)
  }

  predicate Multiple(next: int, old_: int, interval: int, k: nat) {
    next == old_ + k * interval
  }

  /** The loop of __CFRunLoopDoTimer that finds the next fire time: it ends, and nothing overflows 64 bits. */
  method NextFire(old_: u64, interval: u64, now: u64) returns (next: u64)
    requires 0 < interval <= LLONG_MAX && now <= LLONG_MAX
    ensures NextFireTime(next, old_, interval, now)
    ensures now < next || next == 0x7FFF_FFFF_FFFF_FFFF
    ensures 0x7FFF_FFFF_FFFF_FFFF <= old_ + interval ==> next == 0x7FFF_FFFF_FFFF_FFFF
  {
    if LLONG_MAX - interval <= old_ {
      return LLONG_MAX;
    }
    next := old_;
    ghost var k := 0;
    assert Multiple(next, old_, interval, 0);
    while next <= now
      invariant Multiple(next, old_, interval, k)
      invariant k == 0 || next - interval <= now
      decreases now - next
    {
      assert Multiple(next + interval, old_, interval, k + 1) by {
        assert (k + 1) * interval == k * interval + interval;
      }
      next := next + interval;
      k := k + 1;
    }
  }

  /** No drift: of all times after `now` that lie a whole number of intervals after the old one, the next is the
      first. */
  lemma NextFireLeast(next: u64, old_: u64, interval: u64, now: u64, k: nat)
    requires 0 < interval <= LLONG_MAX && NextFireTime(next, old_, interval, now) && LLONG_MAX - interval > old_
    requires old_ + k * interval > now
    ensures now < next <= old_ + k * interval && exists j: nat :: Multiple(next, old_, interval, j)
  {
    var j: nat :| Multiple(next, old_, interval, j) && next > now && (j == 0 || next - interval <= now);
    if k < j {
      assert (j - 1) * interval == j * interval - interval;
      MulMonotone(k, j - 1, interval);
    } else {
      MulMonotone(j, k, interval);
    }
  }

  lemma MulMonotone(a: nat, b: nat, n: nat)
    requires a <= b
    ensures a * n <= b * n
  {
  }

  // ----- taking a timer out of an array and putting it back in

  /** The array with a timer taken out and put back behind every timer that fires no later. */
  ghost predicate Placed(q: seq<Timer>, t: Timer, q': seq<Timer>)
    reads (set x | x in q')`fireTSR
  {
    && Sorted(q') && NoDup(q') && t in q'
    && (forall x | x in q' :: x in q || x == t) && (forall x | x in q :: x in q')
    && (forall i, j | 0 <= i < j < |q'| && q'[i] == t :: q'[j].fireTSR > t.fireTSR)
  }

  method TakeOut(q: seq<Timer>, t: Timer) returns (found: bool, rest: seq<Timer>)
    requires NoDup(q)
    ensures found <==> t in q
    ensures NoDup(rest) && forall x :: x in rest <==> x in q && x != t
    ensures SortedBut(q, t) ==> Sorted(rest)
    ensures |rest| <= |q|
  {
    found, rest := false, q;
    for i := 0 to |q|
      invariant t !in q[..i]
    {
      if q[i] == t {
        rest := q[..i] + q[i + 1..];
        Without(q, i, rest);
        return true, rest;
      }
    }
    assert q[..|q|] == q;
  }

  lemma Without(q: seq<Timer>, i: nat, rest: seq<Timer>)
    requires NoDup(q) && i < |q| && rest == q[..i] + q[i + 1..]
    ensures NoDup(rest) && forall x :: x in rest <==> x in q && x != q[i]
    ensures SortedBut(q, q[i]) ==> Sorted(rest)
  {
    forall k | 0 <= k < |rest|
      ensures rest[k] == q[if k < i then k else k + 1] && rest[k] != q[i]
    {
    }
    forall x | x in q && x != q[i]
      ensures x in rest
    {
      var k :| 0 <= k < |q| && q[k] == x;
      assert rest[if k < i then k else k - 1] == x;
    }
  }

  method PutIn(q: seq<Timer>, t: Timer) returns (q': seq<Timer>)
    requires Sorted(q) && NoDup(q) && t !in q && |q| < 0x2000_0000
    ensures Placed(q, t, q')
  {
    var i := InsertionIndex(q, t);
    q' := q[..i] + [t] + q[i..];
    With(q, t, i, q');
  }

  lemma With(q: seq<Timer>, t: Timer, i: nat, q': seq<Timer>)
    requires Sorted(q) && NoDup(q) && t !in q && i <= |q| && q' == q[..i] + [t] + q[i..]
    requires forall k | 0 <= k < i :: q[k].fireTSR <= t.fireTSR
    requires forall k | i <= k < |q| :: q[k].fireTSR > t.fireTSR
    ensures Placed(q, t, q')
  {
    hide Sorted, NoDup;
    WithMembers(q, t, i, q');
    WithSorted(q, t, i, q');
    WithBehind(q, t, i, q');
  }

  lemma WithMembers(q: seq<Timer>, t: Timer, i: nat, q': seq<Timer>)
    requires NoDup(q) && t !in q && i <= |q| && q' == q[..i] + [t] + q[i..]
    ensures NoDup(q') && t in q' && (forall x | x in q' :: x in q || x == t) && forall x | x in q :: x in q'
  {
    assert forall k | 0 <= k < |q'| :: q'[k] == if k < i then q[k] else if k == i then t else q[k - 1];
    assert q'[i] == t;
    forall x | x in q
      ensures x in q'
    {
      var k :| 0 <= k < |q| && q[k] == x;
      assert q'[if k < i then k else k + 1] == x;
    }
  }

  lemma WithBehind(q: seq<Timer>, t: Timer, i: nat, q': seq<Timer>)
    requires t !in q && i <= |q| && q' == q[..i] + [t] + q[i..]
    requires forall k | i <= k < |q| :: q[k].fireTSR > t.fireTSR
    ensures forall k, j | 0 <= k < j < |q'| && q'[k] == t :: q'[j].fireTSR > t.fireTSR
  {
    forall k, j | 0 <= k < j < |q'| && q'[k] == t
      ensures q'[j].fireTSR > t.fireTSR
    {
      assert k == i;
      assert q'[j] == q[j - 1];
    }
  }

  lemma WithSorted(q: seq<Timer>, t: Timer, i: nat, q': seq<Timer>)
    requires Sorted(q) && i <= |q| && q' == q[..i] + [t] + q[i..]
    requires forall k | 0 <= k < i :: q[k].fireTSR <= t.fireTSR
    requires forall k | i <= k < |q| :: q[k].fireTSR > t.fireTSR
    ensures Sorted(q')
  {
    forall a, b | 0 <= a < b < |q'|
      ensures q'[a].fireTSR <= q'[b].fireTSR
    {
      var a', b' := if a < i then a else a - 1, if b < i then b else b - 1;
      assert a != i ==> q'[a] == q[a'];
      assert b != i ==> q'[b] == q[b'];
    }
  }

  /** A timer array is never longer than the number of timers there are. */
  lemma {:induction false} NoMoreThan(q: seq<Timer>, ts: set<Timer>)
    requires NoDup(q) && forall t | t in q :: t in ts
    ensures |q| <= |ts|
  {
    if q != [] {
      var n := |q| - 1;
      NoMoreThan(q[..n], ts - {q[n]});
    }
  }

  // ----- run loops

  datatype Mode = Mode(timers: seq<Timer>, softDeadline: u64, hardDeadline: u64)

  /** __CFRepositionTimerInMode, on one mode's data. */
  method Reposition(mode: Mode, rlt: Timer, isInArray: bool) returns (mode': Mode)
    requires NoDup(mode.timers) && |mode.timers| < 0x2000_0000
    requires if isInArray then SortedBut(mode.timers, rlt) else Sorted(mode.timers) && rlt !in mode.timers
    ensures isInArray && rlt !in mode.timers ==> mode' == mode
    ensures !isInArray || rlt in mode.timers ==>
              Placed(mode.timers, rlt, mode'.timers) && Deadlines(mode'.timers, mode'.softDeadline, mode'.hardDeadline)
  {
    var found, timerArray := false, mode.timers;
    if isInArray {
      found, timerArray := TakeOut(mode.timers, rlt);
    }
    if !found && isInArray {
      return mode;
    }
    timerArray := PutIn(timerArray, rlt);
    var soft, hard := NextDeadlines(timerArray);
    return Mode(timerArray, soft, hard);
  }

  /** A mode's array during a change of one fire time: the same timers, in order but perhaps for that one. */
  ghost predicate UnsettledMode(mode: Mode, t: Timer, pending: bool, before: Mode)
    reads (set x | x in mode.timers)`fireTSR
  {
    && NoDup(mode.timers) && |mode.timers| < 0x2000_0000
    && (if pending then SortedBut(mode.timers, t) else Sorted(mode.timers))
    && (forall x | x in mode.timers :: x in before.timers) && (forall x | x in before.timers :: x in mode.timers)
  }

  lemma UnsettledTimer(mode: Mode, t: Timer, before: Mode)
    requires UnsettledMode(mode, t, true, before) && t in before.timers
    ensures NoDup(mode.timers) && |mode.timers| < 0x2000_0000 && SortedBut(mode.timers, t) && t in mode.timers
  {
  }

  lemma Settles(mode: Mode, mode': Mode, t: Timer, before: Mode)
    requires UnsettledMode(mode, t, true, before) && t in mode.timers && Placed(mode.timers, t, mode'.timers)
    ensures UnsettledMode(mode', t, false, before)
  {
    hide Sorted, SortedBut;
    NoMoreThan(mode'.timers, set x | x in mode.timers);
    SizeOf(mode.timers);
  }

  // ----- what every history keeps

  /** Timer arrays list known timers, none twice. */
  ghost predicate Listings(rls: set<RunLoop>, ts: set<Timer>)
    reads rls`modes
  {
    forall r, m | r in rls && m in r.modes :: r.Lists(m, ts)
  }

  /** They are sorted by fire time. */
  ghost predicate Orders(rls: set<RunLoop>, ts: set<Timer>)
    reads rls`modes, ts`fireTSR
    requires Listings(rls, ts)
  {
    forall r, m | r in rls && m in r.modes :: r.Lists(m, ts) && Sorted(r.modes[m].timers)
  }

  /** A timer is in a mode's array exactly if it belongs to that run loop and its mode set names the mode. */
  ghost predicate BackReferences(rls: set<RunLoop>, ts: set<Timer>)
    reads rls`modes, ts`rlModes, ts`runLoop
  {
    forall r, t, m | r in rls && t in ts :: r.InMode(m, t) <==> t.runLoop == r && m in t.rlModes
  }

  /** A timer belongs to a run loop exactly if its mode set names some mode. */
  ghost predicate Owners(rls: set<RunLoop>, ts: set<Timer>)
    reads ts`rlModes, ts`runLoop
  {
    forall t | t in ts :: (t.runLoop == null <==> t.rlModes == {}) && (t.runLoop != null ==> t.runLoop in rls)
  }

  /** Invalidated timers are in no mode. */
  ghost predicate Retired(ts: set<Timer>)
    reads ts`rlModes, ts`valid
  {
    forall t | t in ts && !t.valid :: t.rlModes == {}
  }

  ghost predicate World(rls: set<RunLoop>, ts: set<Timer>)
    reads rls`modes, ts`fireTSR, ts`rlModes, ts`runLoop
  {
    Listings(rls, ts) && Orders(rls, ts) && BackReferences(rls, ts) && Owners(rls, ts) && |ts| < 0x2000_0000
  }

  /** The timer is put in its new place in one mode. */
  method NewPlace(mode: Mode, rlt: Timer, ghost before: Mode) returns (mode': Mode)
    requires UnsettledMode(mode, rlt, true, before) && rlt in before.timers
    ensures UnsettledMode(mode', rlt, false, before)
    ensures Deadlines(mode'.timers, mode'.softDeadline, mode'.hardDeadline)
  {
    hide Deadlines, Sorted, SortedBut, NoDup, UnsettledMode;
    UnsettledTimer(mode, rlt, before);
    mode' := Reposition(mode, rlt, true);
    Settles(mode, mode', rlt, before);
  }

  class RunLoop {
    var modes: map<Name, Mode>
    var commonModes: set<Name>
    var commonModeItems: set<Timer>

    /** A new run loop has its default mode, which is a common one, and nothing in it. */
    constructor (defaultMode: Name)
      ensures modes == map[defaultMode := Mode([], UINT64_MAX, UINT64_MAX)]
      ensures commonModes == {defaultMode} && commonModeItems == {}
    {
      modes := map[defaultMode := Mode([], UINT64_MAX, UINT64_MAX)];
      commonModes, commonModeItems := {defaultMode}, {};
    }

    predicate InMode(m: Name, t: Timer)
      reads this`modes
    {
      m in modes && t in modes[m].timers
    }

    ghost predicate Lists(m: Name, ts: set<Timer>)
      reads this`modes
    {
      m in modes && NoDup(modes[m].timers) && forall t | t in modes[m].timers :: t in ts
    }

    /** What __CFRunLoopFindMode finds: a mode that did not exist is created empty. */
    function ModeNamed(m: Name): Mode
      reads this`modes
    {
      if m in modes then modes[m] else Mode([], UINT64_MAX, UINT64_MAX)
    }

    /** A timer that is valid and does not belong to another run loop. */
    predicate Accepts(rlt: Timer)
      reads rlt`valid, rlt`runLoop
    {
      rlt.valid && (rlt.runLoop == null || rlt.runLoop == this)
    }

    lemma PlacedFacts(q: seq<Timer>, t: Timer, q': seq<Timer>)
      requires Placed(q, t, q')
      ensures Sorted(q') && NoDup(q') && forall x :: x in q' <==> x in q || x == t
    {
    }

    /** The guarded part of CFRunLoopAddTimer: the timer is put into the mode, unless its mode set names it already. */
    method Link(rlt: Timer, m: Name) returns (mode: Mode)
      requires NoDup(ModeNamed(m).timers) && Sorted(ModeNamed(m).timers) && |ModeNamed(m).timers| < 0x2000_0000
      requires m !in rlt.rlModes ==> rlt !in ModeNamed(m).timers
      modifies this`modes, rlt`rlModes, rlt`runLoop
      ensures modes == old(modes)[m := mode]
      ensures rlt.rlModes == old(rlt.rlModes) + {m}
      ensures rlt.runLoop == if m in old(rlt.rlModes) then old(rlt.runLoop) else this
      ensures if m in old(rlt.rlModes) then mode == old(ModeNamed(m))
              else Placed(old(ModeNamed(m).timers), rlt, mode.timers)
                   && Deadlines(mode.timers, mode.softDeadline, mode.hardDeadline)
      ensures Sorted(mode.timers) && NoDup(mode.timers)
      ensures forall x :: x in mode.timers <==> x in old(ModeNamed(m).timers) || (x == rlt && m !in old(rlt.rlModes))
    {
      hide Sorted, NoDup, Deadlines, Placed;
      mode := ModeNamed(m);
      if m !in rlt.rlModes {
        ghost var q := mode.timers;
        mode := Reposition(mode, rlt, false);
        PlacedFacts(q, rlt, mode.timers);
        rlt.runLoop, rlt.rlModes, modes := this, rlt.rlModes + {m}, modes[m := mode];
      } else {
        modes := modes[m := mode];
      }
    }

    /** CFRunLoopAddTimer for one mode, past its checks. */
    method AddAccepted(rlt: Timer, m: Name, ghost rls: set<RunLoop>, ghost ts: set<Timer>)
      requires World(rls, ts) && this in rls && rlt in ts && Accepts(rlt)
      modifies this`modes, rlt`rlModes, rlt`runLoop
      ensures World(rls, ts)
      ensures rlt.runLoop == this && rlt.rlModes == old(rlt.rlModes) + {m}
      ensures m in modes && modes == old(modes)[m := modes[m]]
      ensures m !in old(rlt.rlModes) ==>
                Deadlines(modes[m].timers, modes[m].softDeadline, modes[m].hardDeadline)
    {
      hide Sorted, NoDup, Deadlines, Placed;
      ModeFacts(m, rlt, rls, ts);
      var mode := Link(rlt, m);
      forall r, k | r in rls && k in r.modes
        ensures r.Lists(k, ts) && Sorted(r.modes[k].timers)
      {
        assert r != this || k != m ==> old(r.Lists(k, ts)) && old(Sorted(r.modes[k].timers));
      }
      forall r, t, k | r in rls && t in ts
        ensures r.InMode(k, t) <==> t.runLoop == r && k in t.rlModes
      {
        assert old(r.InMode(k, t)) <==> old(t.runLoop) == r && k in old(t.rlModes);
      }
    }

    /** CFRunLoopAddTimer for one mode. */
    method AddTimer(rlt: Timer, m: Name, ghost rls: set<RunLoop>, ghost ts: set<Timer>)
      requires World(rls, ts) && this in rls && rlt in ts
      modifies this`modes, rlt`rlModes, rlt`runLoop
      ensures World(rls, ts)
      ensures old(Retired(ts)) ==> Retired(ts)
      ensures old(Accepts(rlt)) ==> rlt.runLoop == this && rlt.rlModes == old(rlt.rlModes) + {m}
      ensures old(Accepts(rlt)) ==> m in modes && modes == old(modes)[m := modes[m]]
      ensures old(Accepts(rlt)) && m !in old(rlt.rlModes) ==>
                Deadlines(modes[m].timers, modes[m].softDeadline, modes[m].hardDeadline)
      ensures !old(Accepts(rlt)) ==>
                modes == old(modes) && rlt.rlModes == old(rlt.rlModes) && rlt.runLoop == old(rlt.runLoop)
      ensures rlt.valid && (old(rlt.runLoop) == null || old(rlt.runLoop) == this) ==>
                m in modes && rlt in modes[m].timers
      ensures !rlt.valid || (old(rlt.runLoop) != null && old(rlt.runLoop) != this) ==> modes == old(modes)
    {
      hide World, Deadlines;
      if !rlt.valid || (rlt.runLoop != null && rlt.runLoop != this) {
        return;
      }
      AddAccepted(rlt, m, rls, ts);
      Listed(rlt, m, rls, ts);
    }

    lemma Listed(rlt: Timer, m: Name, rls: set<RunLoop>, ts: set<Timer>)
      requires World(rls, ts) && this in rls && rlt in ts && rlt.runLoop == this && m in rlt.rlModes
      ensures m in modes && rlt in modes[m].timers
    {
      assert InMode(m, rlt);
    }

    /** The guarded part of CFRunLoopRemoveTimer. */
    method Unlink(rlt: Timer, m: Name) returns (mode: Mode)
      requires m in modes && NoDup(modes[m].timers) && Sorted(modes[m].timers) && rlt in modes[m].timers
      modifies this`modes, rlt`rlModes, rlt`runLoop
      ensures modes == old(modes)[m := mode]
      ensures rlt.rlModes == old(rlt.rlModes) - {m}
      ensures rlt.runLoop == if old(rlt.rlModes) - {m} == {} then null else old(rlt.runLoop)
      ensures Sorted(mode.timers) && NoDup(mode.timers)
      ensures forall x :: x in mode.timers <==> x in old(modes[m].timers) && x != rlt
      ensures Deadlines(mode.timers, mode.softDeadline, mode.hardDeadline)
    {
      hide Sorted, SortedBut, NoDup, Deadlines;
      SortedIsSortedBut(modes[m].timers, rlt);
      var _, timerList := TakeOut(modes[m].timers, rlt);
      var soft, hard := NextDeadlines(timerList);
      mode := Mode(timerList, soft, hard);
      var left := rlt.rlModes - {m};
      rlt.rlModes, rlt.runLoop, modes := left, if left == {} then null else rlt.runLoop, modes[m := mode];
    }

    /** CFRunLoopRemoveTimer for one mode. */
    method RemoveTimer(rlt: Timer, m: Name, ghost rls: set<RunLoop>, ghost ts: set<Timer>)
      requires World(rls, ts) && this in rls && rlt in ts
      modifies this`modes, rlt`rlModes, rlt`runLoop
      ensures World(rls, ts)
      ensures old(Retired(ts)) ==> Retired(ts)
      ensures !InMode(m, rlt) && modes.Keys == old(modes.Keys)
      ensures forall k | k in modes && (k != m || !old(InMode(m, rlt))) :: modes[k] == old(modes[k])
      ensures rlt.rlModes == if old(rlt.runLoop) == this then old(rlt.rlModes) - {m} else old(rlt.rlModes)
      ensures rlt.runLoop == if rlt.rlModes == {} then null else old(rlt.runLoop)
      ensures old(InMode(m, rlt)) ==> Deadlines(modes[m].timers, modes[m].softDeadline, modes[m].hardDeadline)
    {
      hide Sorted, NoDup, Deadlines;
      ModeFacts(m, rlt, rls, ts);
      assert InMode(m, rlt) <==> rlt.runLoop == this && m in rlt.rlModes;
      if m in modes && rlt in modes[m].timers {
        var mode := Unlink(rlt, m);
        forall r, k | r in rls && k in r.modes
          ensures r.Lists(k, ts) && Sorted(r.modes[k].timers)
        {
          assert old(r.Lists(k, ts)) && old(Sorted(r.modes[k].timers));
        }
        forall r, t, k | r in rls && t in ts
          ensures r.InMode(k, t) <==> t.runLoop == r && k in t.rlModes
        {
          assert old(r.InMode(k, t)) <==> old(t.runLoop) == r && k in old(t.rlModes);
        }
      }
    }

    lemma SortedIsSortedBut(q: seq<Timer>, t: Timer)
      requires Sorted(q)
      ensures SortedBut(q, t)
    {
    }

    /** The arrays hold what they held before, and only the given timer can be out of place, in the given modes. */
    ghost predicate Unsettled(t: Timer, todo: set<Name>, before: map<Name, Mode>)
      reads this`modes, (set m, x | m in modes && x in modes[m].timers :: x)`fireTSR
    {
      && modes.Keys == before.Keys
      && forall m | m in modes :: UnsettledMode(modes[m], t, m in todo, before[m])
    }

    /** One mode of the loop below. */
    method RepositionOne(m: Name, rlt: Timer, ghost todo: set<Name>, ghost before: map<Name, Mode>)
      requires Unsettled(rlt, todo, before) && m in todo && m in modes && rlt in before[m].timers
      modifies this`modes
      ensures Unsettled(rlt, todo - {m}, before) && modes == old(modes)[m := modes[m]]
      ensures Deadlines(modes[m].timers, modes[m].softDeadline, modes[m].hardDeadline)
    {
      hide NoDup, Deadlines;
      assert UnsettledMode(modes[m], rlt, true, before[m]);
      var mode := NewPlace(modes[m], rlt, before[m]);
      modes := modes[m := mode];
      forall k | k in modes
        ensures UnsettledMode(modes[k], rlt, k in todo - {m}, before[k])
      {
        assert k != m ==> UnsettledMode(old(modes)[k], rlt, k in todo, before[k]);
      }
    }

    /** The timer is put in its new place in every mode its mode set names. */
    method RepositionAll(rlt: Timer, ghost before: map<Name, Mode>)
      requires Unsettled(rlt, rlt.rlModes, before)
      requires forall m | m in rlt.rlModes :: m in before && rlt in before[m].timers
      modifies this`modes
      ensures Unsettled(rlt, {}, before)
      ensures forall m | m in rlt.rlModes :: Deadlines(modes[m].timers, modes[m].softDeadline, modes[m].hardDeadline)
      ensures forall m | m in modes && m !in rlt.rlModes :: modes[m] == old(modes)[m]
    {
      hide Deadlines, UnsettledMode;
      var todo := rlt.rlModes;
      while todo != {}
        invariant todo <= rlt.rlModes && Unsettled(rlt, todo, before)
        invariant forall m | m in rlt.rlModes - todo ::
                    Deadlines(modes[m].timers, modes[m].softDeadline, modes[m].hardDeadline)
        invariant forall m | m in modes && m !in rlt.rlModes :: modes[m] == old(modes)[m]
      {
        var m :| m in todo;
        RepositionOne(m, rlt, todo, before);
        todo := todo - {m};
      }
    }

    /** The part shared by CFRunLoopTimerSetNextFireDate and the end of firing. */
    method RepositionEverywhere(rlt: Timer, fireTSR: u64, ghost rls: set<RunLoop>, ghost ts: set<Timer>)
      requires World(rls, ts) && this in rls && rlt in ts && rlt.runLoop == this
      modifies this`modes, rlt`fireTSR
      ensures World(rls, ts)
      ensures rlt.fireTSR == fireTSR && modes.Keys == old(modes.Keys)
      ensures forall m | m in rlt.rlModes ::
                m in modes && Deadlines(modes[m].timers, modes[m].softDeadline, modes[m].hardDeadline)
      ensures forall m | m in modes && m !in rlt.rlModes :: modes[m] == old(modes[m])
    {
      ghost var before := modes;
      Changing(rlt, rls, ts);
      rlt.fireTSR := fireTSR;
      RepositionAll(rlt, before);
      forall r, k | r in rls && k in r.modes
        ensures r.Lists(k, ts) && Sorted(r.modes[k].timers)
      {
        assert old(r.Lists(k, ts)) && old(Sorted(r.modes[k].timers));
        assert r != this ==> !old(r.InMode(k, rlt));
      }
      forall r, t, k | r in rls && t in ts
        ensures r.InMode(k, t) <==> t.runLoop == r && k in t.rlModes
      {
        assert old(r.InMode(k, t)) <==> old(t.runLoop) == r && k in old(t.rlModes);
      }
    }

    lemma Changing(rlt: Timer, rls: set<RunLoop>, ts: set<Timer>)
      requires World(rls, ts) && this in rls && rlt in ts && rlt.runLoop == this
      ensures forall m | m in modes ::
                NoDup(modes[m].timers) && |modes[m].timers| < 0x2000_0000 && SortedBut(modes[m].timers, rlt)
      ensures forall m | m in modes && m !in rlt.rlModes :: rlt !in modes[m].timers
      ensures forall m | m in rlt.rlModes :: m in modes && rlt in modes[m].timers
    {
      forall m | m in rlt.rlModes
        ensures m in modes && rlt in modes[m].timers
      {
        assert InMode(m, rlt);
      }
      forall m | m in modes
        ensures NoDup(modes[m].timers) && |modes[m].timers| < 0x2000_0000 && SortedBut(modes[m].timers, rlt)
        ensures m !in rlt.rlModes ==> rlt !in modes[m].timers
      {
        ModeFacts(m, rlt, rls, ts);
        SortedIsSortedBut(modes[m].timers, rlt);
      }
    }

    lemma ModeFacts(m: Name, rlt: Timer, rls: set<RunLoop>, ts: set<Timer>)
      requires World(rls, ts) && this in rls && rlt in ts
      ensures var q := ModeNamed(m).timers; NoDup(q) && Sorted(q) && |q| < 0x2000_0000 && forall t | t in q :: t in ts
      ensures rlt in ModeNamed(m).timers <==> rlt.runLoop == this && m in rlt.rlModes
      ensures rlt.runLoop == null ==> m !in rlt.rlModes
    {
      assert InMode(m, rlt) <==> rlt.runLoop == this && m in rlt.rlModes;
      if m in modes {
        assert Lists(m, ts);
        NoMoreThan(modes[m].timers, ts);
      }
    }

    /** CFRunLoopAddTimer for the common modes. */
    method AddTimerToCommonModes(rlt: Timer, ghost rls: set<RunLoop>, ghost ts: set<Timer>)
      requires World(rls, ts) && this in rls && rlt in ts
      modifies this`modes, this`commonModeItems, rlt`rlModes, rlt`runLoop
      ensures World(rls, ts)
      ensures old(Retired(ts)) ==> Retired(ts)
      ensures old(Accepts(rlt)) ==>
                commonModeItems == old(commonModeItems) + {rlt} && rlt.rlModes == old(rlt.rlModes) + commonModes
      ensures !old(Accepts(rlt)) ==>
                modes == old(modes) && commonModeItems == old(commonModeItems)
                && rlt.rlModes == old(rlt.rlModes) && rlt.runLoop == old(rlt.runLoop)
    {
      if !rlt.valid || (rlt.runLoop != null && rlt.runLoop != this) {
        return;
      }
      commonModeItems := commonModeItems + {rlt};
      var todo := commonModes;
      while todo != {}
        invariant todo <= commonModes && World(rls, ts) && Accepts(rlt)
        invariant commonModeItems == old(commonModeItems) + {rlt}
        invariant old(Retired(ts)) ==> Retired(ts)
        invariant rlt.rlModes == old(rlt.rlModes) + (commonModes - todo)
      {
        var m :| m in todo;
        AddTimer(rlt, m, rls, ts);
        todo := todo - {m};
      }
    }

    /** CFRunLoopRemoveTimer for the common modes. */
    method RemoveTimerFromCommonModes(rlt: Timer, ghost rls: set<RunLoop>, ghost ts: set<Timer>)
      requires World(rls, ts) && this in rls && rlt in ts
      modifies this`modes, this`commonModeItems, rlt`rlModes, rlt`runLoop
      ensures World(rls, ts) && commonModeItems == old(commonModeItems) - {rlt} && rlt.rlModes <= old(rlt.rlModes)
      ensures old(Retired(ts)) ==> Retired(ts)
      ensures old(rlt in commonModeItems && rlt.runLoop == this) ==> rlt.rlModes == old(rlt.rlModes) - commonModes
      ensures old(rlt !in commonModeItems) ==>
                modes == old(modes) && rlt.rlModes == old(rlt.rlModes) && rlt.runLoop == old(rlt.runLoop)
    {
      if rlt in commonModeItems {
        commonModeItems := commonModeItems - {rlt};
        var todo := commonModes;
        while todo != {}
          invariant todo <= commonModes && World(rls, ts) && rlt.rlModes <= old(rlt.rlModes)
          invariant commonModeItems == old(commonModeItems) - {rlt}
          invariant old(Retired(ts)) ==> Retired(ts)
          invariant old(rlt.runLoop) == this ==> rlt.rlModes == old(rlt.rlModes) - (commonModes - todo)
          invariant rlt.runLoop == old(rlt.runLoop) || rlt.rlModes == {}
        {
          var m :| m in todo;
          RemoveTimer(rlt, m, rls, ts);
          todo := todo - {m};
        }
      }
    }

    /** CFRunLoopAddCommonMode, as far as timers go: the common items join the new common mode. */
    method AddCommonMode(m: Name, ghost rls: set<RunLoop>, ghost ts: set<Timer>)
      requires World(rls, ts) && this in rls && commonModeItems <= ts
      modifies this`modes, this`commonModes, commonModeItems`rlModes, commonModeItems`runLoop
      ensures World(rls, ts) && commonModes == old(commonModes) + {m} && commonModeItems == old(commonModeItems)
      ensures old(Retired(ts)) ==> Retired(ts)
      ensures m !in old(commonModes) ==>
                forall t | t in commonModeItems && old(Accepts(t)) :: m in t.rlModes && t.runLoop == this
    {
      if m !in commonModes {
        var items := commonModeItems;
        commonModes := commonModes + {m};
        while items != {}
          invariant items <= commonModeItems == old(commonModeItems) && World(rls, ts)
          invariant old(Retired(ts)) ==> Retired(ts)
          invariant commonModes == old(commonModes) + {m}
          invariant forall t | t in items :: Accepts(t) == old(Accepts(t))
          invariant forall t | t in commonModeItems - items && old(Accepts(t)) :: m in t.rlModes && t.runLoop == this
        {
          var t :| t in items;
          AddTimer(t, m, rls, ts);
          items := items - {t};
        }
      }
    }

    /** The first part of __CFRunLoopDoTimer: whether the timer fires, and the mode is armed for the next one. */
    method BeginFire(rlt: Timer, m: Name, now: u64, ghost rls: set<RunLoop>, ghost ts: set<Timer>)
      returns (fires: bool, oldFireTSR: u64)
      requires World(rls, ts) && this in rls && rlt in ts && m in modes
      modifies this`modes, rlt`firing
      ensures World(rls, ts) && oldFireTSR == rlt.fireTSR
      ensures fires <==> rlt.valid && rlt.fireTSR <= now && !old(rlt.firing) && rlt.runLoop == this
      ensures fires ==>
                rlt.firing && m in modes && modes == old(modes)[m := modes[m]]
                && modes[m].timers == old(modes[m].timers)
      ensures fires ==> Deadlines(modes[m].timers, modes[m].softDeadline, modes[m].hardDeadline)
      ensures !fires ==> modes == old(modes) && rlt.firing == old(rlt.firing)
    {
      oldFireTSR := rlt.fireTSR;
      fires := rlt.valid && rlt.fireTSR <= now && !rlt.firing && rlt.runLoop == this;
      if fires {
        rlt.firing := true;
        ArmNextTimer(m, rls, ts);
      }
    }

    /** __CFArmNextTimerInMode. */
    method ArmNextTimer(m: Name, ghost rls: set<RunLoop>, ghost ts: set<Timer>)
      requires World(rls, ts) && this in rls && m in modes
      modifies this`modes
      ensures World(rls, ts) && m in modes && modes == old(modes)[m := modes[m]]
      ensures modes[m].timers == old(modes[m].timers)
      ensures Deadlines(modes[m].timers, modes[m].softDeadline, modes[m].hardDeadline)
    {
      hide Deadlines, NoDup;
      assert Lists(m, ts) && Sorted(modes[m].timers);
      var soft, hard := NextDeadlines(modes[m].timers);
      modes := modes[m := Mode(modes[m].timers, soft, hard)];
      forall r, k | r in rls && k in r.modes
        ensures r.Lists(k, ts) && Sorted(r.modes[k].timers)
      {
        assert old(r.Lists(k, ts)) && old(Sorted(r.modes[k].timers));
      }
      forall r, t, k | r in rls && t in ts
        ensures r.InMode(k, t) <==> t.runLoop == r && k in t.rlModes
      {
        assert old(r.InMode(k, t)) <==> old(t.runLoop) == r && k in old(t.rlModes);
      }
    }
  }

  // ----- operations on a timer, whichever run loop it belongs to

  /** Every mode that holds the timer has its deadlines right. */
  ghost predicate Rearmed(rlt: Timer)
    reads *
  {
    rlt.runLoop != null ==> forall m | m in rlt.rlModes && m in rlt.runLoop.modes ::
      Deadlines(rlt.runLoop.modes[m].timers, rlt.runLoop.modes[m].softDeadline, rlt.runLoop.modes[m].hardDeadline)
  }

  /** CFRunLoopTimerSetNextFireDate, with the date already converted. */
  method SetNextFireDate(rlt: Timer, nextFireTSR: u64, ghost rls: set<RunLoop>, ghost ts: set<Timer>)
    requires World(rls, ts) && rlt in ts
    modifies rlt`fireTSR, (if rlt.runLoop == null then {} else {rlt.runLoop})`modes
    ensures World(rls, ts)
    ensures rlt.fireTSR == if rlt.valid then nextFireTSR else old(rlt.fireTSR)
    ensures rlt.valid ==> Rearmed(rlt)
  {
    if !rlt.valid {
      return;
    }
    if rlt.runLoop != null {
      rlt.runLoop.RepositionEverywhere(rlt, nextFireTSR, rls, ts);
    } else {
      ChangeFireTime(rlt, nextFireTSR, rls, ts);
    }
  }

  /** The fire time of a timer that is in no array. */
  method ChangeFireTime(rlt: Timer, fireTSR: u64, ghost rls: set<RunLoop>, ghost ts: set<Timer>)
    requires World(rls, ts) && rlt in ts && rlt.runLoop == null
    modifies rlt`fireTSR
    ensures World(rls, ts) && rlt.fireTSR == fireTSR
  {
    rlt.fireTSR := fireTSR;
    forall r, k | r in rls && k in r.modes
      ensures r.Lists(k, ts) && Sorted(r.modes[k].timers)
    {
      assert old(r.Lists(k, ts)) && old(Sorted(r.modes[k].timers)) && !r.InMode(k, rlt);
    }
  }

  /** The last part of __CFRunLoopDoTimer, after the callout. A date set in the callout is kept exactly if it is later
      than the old one; otherwise the next date is the first one after now, a whole number of intervals away. */
  method EndFire(rl: RunLoop, m: Name, rlt: Timer, oldFireTSR: u64, now: u64, ghost rls: set<RunLoop>,
                 ghost ts: set<Timer>)
    requires World(rls, ts) && rl in rls && m in rl.modes && rlt in ts
    requires rlt.valid && rlt.fireTSR <= oldFireTSR ==> 0 < rlt.intervalTSR <= LLONG_MAX && now <= LLONG_MAX
    modifies rlt`firing, rlt`fireTSR, rl`modes, (if rlt.runLoop == null then {} else {rlt.runLoop})`modes
    ensures World(rls, ts) && !rlt.firing
    ensures !rlt.valid || oldFireTSR < old(rlt.fireTSR) ==> rlt.fireTSR == old(rlt.fireTSR)
    ensures rlt.valid && old(rlt.fireTSR) <= oldFireTSR ==>
              NextFireTime(rlt.fireTSR, oldFireTSR, rlt.intervalTSR, now) && Rearmed(rlt)
    ensures rlt.valid && oldFireTSR < old(rlt.fireTSR) ==>
              m in rl.modes && Deadlines(rl.modes[m].timers, rl.modes[m].softDeadline, rl.modes[m].hardDeadline)
  {
    rlt.firing := false;
    if rlt.valid {
      if oldFireTSR < rlt.fireTSR {
        rl.ArmNextTimer(m, rls, ts);
      } else {
        var next := NextFire(oldFireTSR, rlt.intervalTSR, now);
        if rlt.runLoop != null {
          rlt.runLoop.RepositionEverywhere(rlt, next, rls, ts);
        } else {
          ChangeFireTime(rlt, next, rls, ts);
        }
      }
    }
  }

  /** CFRunLoopTimerInvalidate: afterwards the timer is in no mode of any run loop. */
  method Invalidate(rlt: Timer, ghost rls: set<RunLoop>, ghost ts: set<Timer>)
    requires World(rls, ts) && rlt in ts
    modifies rlt, (if rlt.runLoop == null then {} else {rlt.runLoop})
    ensures old(CommonItems(rls, ts)) ==> CommonItems(rls, ts)
    ensures World(rls, ts) && !rlt.valid && rlt.fireTSR == old(rlt.fireTSR) && (old(Retired(ts)) ==> Retired(ts))
    ensures old(rlt.valid) ==> rlt.runLoop == null && rlt.rlModes == {}
    ensures old(rlt.valid) ==> forall r, k | r in rls :: !r.InMode(k, rlt)
  {
    if rlt.valid {
      var rl := rlt.runLoop;
      rlt.valid := false;
      if rl != null {
        var todo := rlt.rlModes;
        while todo != {}
          invariant World(rls, ts) && rlt.rlModes <= todo && (rlt.runLoop == rl || rlt.rlModes == {})
          invariant !rlt.valid && rlt.fireTSR == old(rlt.fireTSR)
          invariant rl.commonModeItems == old(rlt.runLoop.commonModeItems)
        {
          var m :| m in todo;
          rl.RemoveTimer(rlt, m, rls, ts);
          todo := todo - {m};
        }
        rl.RemoveTimerFromCommonModes(rlt, rls, ts);
      }
    }
  }

  // ----- histories

  /** What can be done, to run loops and timers given as objects or by number. */
  datatype Op<R, T> =
    | Add(rl: R, t: T, m: Name)
    | AddToCommon(rl: R, t: T)
    | Remove(rl: R, t: T, m: Name)
    | RemoveFromCommon(rl: R, t: T)
    | MakeCommon(rl: R, m: Name)
    | SetDate(t: T, fireTSR: u64)
    | Begin(rl: R, t: T, m: Name, now: u64)
    | End(rl: R, t: T, m: Name, oldFireTSR: u64, now: u64)
    | Retire(t: T)

  /** The operation is about known run loops and timers; clocks stay below the range of signed 64-bit numbers. */
  ghost predicate Known(op: Op<RunLoop, Timer>, rls: set<RunLoop>, ts: set<Timer>) {
    match op
    case Add(rl, t, _) => rl in rls && t in ts
    case AddToCommon(rl, t) => rl in rls && t in ts
    case Remove(rl, t, _) => rl in rls && t in ts
    case RemoveFromCommon(rl, t) => rl in rls && t in ts
    case MakeCommon(rl, _) => rl in rls
    case SetDate(t, _) => t in ts
    case Begin(rl, t, _, _) => rl in rls && t in ts
    case End(rl, t, _, _, now) => rl in rls && t in ts && now <= LLONG_MAX
    case Retire(t) => t in ts
  }

  /** Repeating timers have an interval of at least one tick; the source halts on others. */
  ghost predicate Repeatable(ts: set<Timer>) {
    forall t | t in ts && t.repeats :: 0 < t.intervalTSR <= LLONG_MAX
  }

  ghost predicate CommonItems(rls: set<RunLoop>, ts: set<Timer>)
    reads rls`commonModeItems
  {
    forall r | r in rls :: r.commonModeItems <= ts
  }

  /** Whatever is done to timers and run loops, the arrays stay sorted and the references consistent. A timer that does
      not repeat is invalidated at the end of its callout. */
  method Perform(op: Op<RunLoop, Timer>, ghost rls: set<RunLoop>, ghost ts: set<Timer>)
    requires World(rls, ts) && Retired(ts) && CommonItems(rls, ts) && Repeatable(ts) && Known(op, rls, ts)
    modifies rls, ts
    ensures World(rls, ts) && Retired(ts) && CommonItems(rls, ts)
  {
    match op
    case Add(rl, t, m) => rl.AddTimer(t, m, rls, ts);
    case AddToCommon(rl, t) => rl.AddTimerToCommonModes(t, rls, ts);
    case Remove(rl, t, m) => rl.RemoveTimer(t, m, rls, ts);
    case RemoveFromCommon(rl, t) => rl.RemoveTimerFromCommonModes(t, rls, ts);
    case MakeCommon(rl, m) => rl.AddCommonMode(m, rls, ts);
    case SetDate(t, fireTSR) => SetNextFireDate(t, fireTSR, rls, ts);
    case Begin(rl, t, m, now) =>
      if m in rl.modes {
        var _, _ := rl.BeginFire(t, m, now, rls, ts);
      }
    case End(rl, t, m, oldFireTSR, now) =>
      if !t.repeats {
        Invalidate(t, rls, ts);
      }
      if m in rl.modes {
        EndFire(rl, m, t, oldFireTSR, now, rls, ts);
      }
    case Retire(t) => Invalidate(t, rls, ts);
  }

  method History(ops: seq<Op<RunLoop, Timer>>, ghost rls: set<RunLoop>, ghost ts: set<Timer>)
    requires World(rls, ts) && Retired(ts) && CommonItems(rls, ts) && Repeatable(ts)
    requires forall i | 0 <= i < |ops| :: Known(ops[i], rls, ts)
    modifies rls, ts
    ensures World(rls, ts) && Retired(ts) && CommonItems(rls, ts)
  {
    for i := 0 to |ops|
      invariant World(rls, ts) && Retired(ts) && CommonItems(rls, ts)
    {
      Perform(ops[i], rls, ts);
    }
  }

  // ----- from the start

  ghost predicate Kept(rls: set<RunLoop>, ts: set<Timer>)
    reads rls`modes, rls`commonModeItems, ts`fireTSR, ts`rlModes, ts`runLoop, ts`valid
  {
    World(rls, ts) && Retired(ts) && CommonItems(rls, ts) && Repeatable(ts)
  }

  /** Before anything is created. */
  lemma NothingYet()
    ensures Kept({}, {})
  {
  }

  method MakeRunLoop(defaultMode: Name, ghost rls: set<RunLoop>, ghost ts: set<Timer>) returns (r: RunLoop)
    requires Kept(rls, ts)
    ensures fresh(r) && Kept(rls + {r}, ts)
  {
    r := new RunLoop(defaultMode);
    assert forall t | t in ts :: t.runLoop != r;
    assert forall q, m | q in rls + {r} && m in q.modes :: q.Lists(m, ts) && Sorted(q.modes[m].timers);
  }

  method MakeTimer(fireTSR: u64, repeats: bool, intervalTSR: u64, ghost rls: set<RunLoop>, ghost ts: set<Timer>)
    returns (t: Timer)
    requires Kept(rls, ts) && |ts| + 1 < 0x2000_0000 && (repeats ==> 0 < intervalTSR <= LLONG_MAX)
    ensures fresh(t) && Kept(rls, ts + {t})
  {
    t := new Timer(fireTSR, repeats, intervalTSR);
    forall r, m | r in rls && m in r.modes
      ensures r.Lists(m, ts + {t}) && Sorted(r.modes[m].timers) && !r.InMode(m, t)
    {
      assert r.Lists(m, ts);
    }
    assert forall r, x, m | r in rls && x in ts :: r.InMode(m, x) <==> x.runLoop == r && m in x.rlModes;
  }

  /** A program: it creates run loops and timers and works on those it has created, by their numbers. */
  datatype Command =
    | NewRunLoop(defaultMode: Name)
    | NewTimer(fireTSR: u64, repeats: bool, intervalTSR: u64)
    | Use(op: Op<nat, nat>)

  /** The numbers stand for what has been created, and the arguments are what the source accepts. */
  predicate Meant(op: Op<nat, nat>, loops: nat, timers: nat) {
    match op
    case Add(rl, t, _) => rl < loops && t < timers
    case AddToCommon(rl, t) => rl < loops && t < timers
    case Remove(rl, t, _) => rl < loops && t < timers
    case RemoveFromCommon(rl, t) => rl < loops && t < timers
    case MakeCommon(rl, _) => rl < loops
    case SetDate(t, _) => t < timers
    case Begin(rl, t, _, _) => rl < loops && t < timers
    case End(rl, t, _, _, now) => rl < loops && t < timers && now <= LLONG_MAX
    case Retire(t) => t < timers
  }

  function Resolve(op: Op<nat, nat>, rls: seq<RunLoop>, ts: seq<Timer>): Op<RunLoop, Timer>
    requires Meant(op, |rls|, |ts|)
  {
    match op
    case Add(rl, t, m) => Add(rls[rl], ts[t], m)
    case AddToCommon(rl, t) => AddToCommon(rls[rl], ts[t])
    case Remove(rl, t, m) => Remove(rls[rl], ts[t], m)
    case RemoveFromCommon(rl, t) => RemoveFromCommon(rls[rl], ts[t])
    case MakeCommon(rl, m) => MakeCommon(rls[rl], m)
    case SetDate(t, fireTSR) => SetDate(ts[t], fireTSR)
    case Begin(rl, t, m, now) => Begin(rls[rl], ts[t], m, now)
    case End(rl, t, m, oldFireTSR, now) => End(rls[rl], ts[t], m, oldFireTSR, now)
    case Retire(t) => Retire(ts[t])
  }

  /** How many run loops and timers the first commands create. */
  function Loops(cmds: seq<Command>): nat {
    if cmds == [] then 0
    else Loops(cmds[..|cmds| - 1]) + if cmds[|cmds| - 1].NewRunLoop? then 1 else 0
  }

  function TimersOf(cmds: seq<Command>): (n: nat)
    ensures n <= |cmds|
  {
    if cmds == [] then 0
    else TimersOf(cmds[..|cmds| - 1]) + if cmds[|cmds| - 1].NewTimer? then 1 else 0
  }

  predicate Proper(c: Command, loops: nat, timers: nat) {
    match c
    case NewRunLoop(_) => true
    case NewTimer(_, repeats, intervalTSR) => repeats ==> 0 < intervalTSR <= LLONG_MAX
    case Use(op) => Meant(op, loops, timers)
  }

  lemma CountsNext(cmds: seq<Command>, n: nat)
    requires n < |cmds|
    ensures Loops(cmds[..n + 1]) == Loops(cmds[..n]) + if cmds[n].NewRunLoop? then 1 else 0
    ensures TimersOf(cmds[..n + 1]) == TimersOf(cmds[..n]) + if cmds[n].NewTimer? then 1 else 0
    ensures TimersOf(cmds[..n]) <= n
  {
    assert cmds[..n + 1][..n] == cmds[..n];
  }

  lemma NoCounts()
    ensures Loops([]) == 0 && TimersOf([]) == 0
  {
  }

  /** Whatever program is run, from nothing: the arrays are sorted and the references consistent at its end. */
  method FromStart(cmds: seq<Command>) returns (rls: seq<RunLoop>, ts: seq<Timer>)
    requires |cmds| < 0x2000_0000
    requires forall i | 0 <= i < |cmds| :: Proper(cmds[i], Loops(cmds[..i]), TimersOf(cmds[..i]))
    ensures Kept(SetOf(rls), SetOf(ts)) && |rls| == Loops(cmds) && |ts| == TimersOf(cmds)
    ensures fresh(rls) && fresh(ts)
  {
    hide Kept, World, Retired, CommonItems, Repeatable, Known, Meant, Resolve, Loops, TimersOf;
    rls, ts := [], [];
    NothingYet();
    NoCounts();
    assert SetOf(rls) == {} && SetOf(ts) == {} && cmds[..0] == [];
    for n := 0 to |cmds|
      invariant Kept(SetOf(rls), SetOf(ts)) && |rls| == Loops(cmds[..n]) && |ts| == TimersOf(cmds[..n])
      invariant fresh(rls) && fresh(ts)
    {
      CountsNext(cmds, n);
      match cmds[n]
      case NewRunLoop(defaultMode) =>
        var r := MakeRunLoop(defaultMode, SetOf(rls), SetOf(ts));
        SetOfNext(rls, r);
        rls := rls + [r];
      case NewTimer(fireTSR, repeats, intervalTSR) =>
        SetOfSize(ts);
        var t := MakeTimer(fireTSR, repeats, intervalTSR, SetOf(rls), SetOf(ts));
        SetOfNext(ts, t);
        ts := ts + [t];
      case Use(op) =>
        ResolvedKnown(op, rls, ts);
        KeptParts(SetOf(rls), SetOf(ts));
        Perform(Resolve(op, rls, ts), SetOf(rls), SetOf(ts));
        KeptWhole(SetOf(rls), SetOf(ts));
    }
    assert cmds[..|cmds|] == cmds;
  }

  lemma ResolvedKnown(op: Op<nat, nat>, rls: seq<RunLoop>, ts: seq<Timer>)
    requires Meant(op, |rls|, |ts|)
    ensures Known(Resolve(op, rls, ts), SetOf(rls), SetOf(ts))
  {
  }

  lemma KeptParts(rls: set<RunLoop>, ts: set<Timer>)
    requires Kept(rls, ts)
    ensures World(rls, ts) && Retired(ts) && CommonItems(rls, ts) && Repeatable(ts)
  {
  }

  lemma KeptWhole(rls: set<RunLoop>, ts: set<Timer>)
    requires World(rls, ts) && Retired(ts) && CommonItems(rls, ts) && Repeatable(ts)
    ensures Kept(rls, ts)
  {
  }
}
