/** Rebasing: the pointers a compressed opcode stream lists are moved with the segments they point into. */
module Rebase {
  import opened Bytes
  import opened Segments

  // ----- words in memory

  function Pow256(n: nat): (r: nat)
    ensures r >= 1
  {
    if n == 0 then 1 else 256 * Pow256(n - 1)
  }

  /** The number stored in some bytes, in either byte order. */
  function Get(b: seq<byte>, big: bool): (v: nat) {
    if b == [] then 0
    else if big then 256 * Get(b[..|b| - 1], big) + b[|b| - 1]
    else b[0] + 256 * Get(b[1..], big)
  }

  function Put(v: nat, n: nat, big: bool): (b: seq<byte>)
    ensures |b| == n
  {
    if n == 0 then []
    else if big then Put(v / 256, n - 1, big) + [v % 256]
    else [v % 256] + Put(v / 256, n - 1, big)
  }

  lemma {:induction false} GetPut(v: nat, n: nat, big: bool)
    requires v < Pow256(n)
    ensures Get(Put(v, n, big), big) == v
  {
    if n > 0 {
      GetPut(v / 256, n - 1, big);
      var b := Put(v / 256, n - 1, big);
      assert (b + [v % 256])[..n - 1] == b && ([v % 256] + b)[1..] == b;
    }
  }

  lemma Quotient(q: nat, r: byte)
    ensures (256 * q + r) / 256 == q && (256 * q + r) % 256 == r
  {
  }

  lemma {:induction false} PutGet(b: seq<byte>, big: bool)
    ensures Put(Get(b, big), |b|, big) == b
  {
    if b != [] && big {
      var n := |b| - 1;
      PutGet(b[..n], big);
      Quotient(Get(b[..n], big), b[n]);
      assert b[..n] + [b[n]] == b;
    } else if b != [] {
      PutGet(b[1..], big);
      Quotient(Get(b[1..], big), b[0]);
      assert [b[0]] + b[1..] == b;
    }
  }

  lemma {:induction false} GetBound(b: seq<byte>, big: bool)
    ensures Get(b, big) < Pow256(|b|)
  {
    if b != [] {
      GetBound(b[..|b| - 1], big);
      GetBound(b[1..], big);
    }
  }

  /** Four bytes hold 32 bits and eight hold 64. */
  lemma WordSizes()
    ensures Pow256(4) == TWO32 && Pow256(8) == TWO64
  {
    assert Pow256(2) == 65536;
    assert Pow256(4) == 256 * 256 * Pow256(2);
    assert Pow256(6) == 256 * 256 * Pow256(4);
  }

  /** The bytes are the digits of the number in base 256: in little-endian order the one at index `i` weighs 256^i, in
      big-endian order the last one weighs 1. */
  predicate Spells(b: seq<byte>, v: nat, big: bool) {
    && v < Pow256(|b|)
    && (!big ==> forall i | 0 <= i < |b| :: b[i] == v / Pow256(i) % 256)
    && (big ==> forall i | 0 <= i < |b| :: b[i] == v / Pow256(|b| - 1 - i) % 256)
  }

  lemma DivTwice(v: nat, k: nat)
    requires k > 0
    ensures v / 256 / k == v / (256 * k)
  {
    var q := v / 256 / k;
    var r, s := v % 256, v / 256 % k;
    assert v == 256 * (q * k + s) + r;
    assert v == q * (256 * k) + (256 * s + r);
    assert 0 <= 256 * s + r < 256 * k;
    Quotients(v, 256 * k, q, 256 * s + r);
  }

  lemma Quotients(v: nat, k: nat, q: nat, r: nat)
    requires r < k && v == q * k + r
    ensures v / k == q
  {
    var d := v / k;
    assert d < q ==> (d + 1) * k <= q * k;
    assert d > q ==> (q + 1) * k <= d * k;
  }

  lemma {:induction false} PutDigit(v: nat, n: nat, big: bool, i: nat)
    requires i < n
    ensures !big ==> Put(v, n, big)[i] == v / Pow256(i) % 256
    ensures big ==> Put(v, n, big)[i] == v / Pow256(n - 1 - i) % 256
  {
    if big && i < n - 1 {
      PutDigit(v / 256, n - 1, big, i);
      DivTwice(v, Pow256(n - 2 - i));
    } else if !big && i > 0 {
      PutDigit(v / 256, n - 1, big, i - 1);
      DivTwice(v, Pow256(i - 1));
    }
  }

  /** What is read is the number the bytes spell. */
  lemma {:induction false} GetSpells(b: seq<byte>, v: nat, big: bool)
    ensures Get(b, big) == v <==> Spells(b, v, big)
  {
    hide Get, Put, Pow256;
    GetBound(b, big);
    forall i | 0 <= i < |b|
      ensures Put(v, |b|, big)[i] == v / Pow256(if big then |b| - 1 - i else i) % 256
    {
      PutDigit(v, |b|, big, i);
    }
    if Get(b, big) == v {
      PutGet(b, big);
    }
    if Spells(b, v, big) {
      assert Put(v, |b|, big) == b;
      GetPut(v, |b|, big);
    }
  }

  /** What is written spells the number. */
  lemma {:induction false} PutSpells(v: nat, n: nat, big: bool)
    requires v < Pow256(n)
    ensures Spells(Put(v, n, big), v, big)
  {
    GetPut(v, n, big);
    GetSpells(Put(v, n, big), v, big);
  }

  function Store(m: seq<byte>, p: nat, b: seq<byte>): (m': seq<byte>)
    requires p + |b| <= |m|
    ensures |m'| == |m|
  {
    m[..p] + b + m[p + |b|..]
  }

  // ----- slots

  const POINTER_TYPE: byte := 1
  const TEXT_ABSOLUTE32: byte := 2

  /** The pointer width and byte order of an architecture. */
  datatype Machine = Machine(word: int, big: bool)

  predicate Sound(arch: Machine) {
    Width(arch.word)
  }

  function PointerSize(arch: Machine): (n: nat)
    ensures n == 4 || n == 8
  {
    if arch.word == TWO32 then 4 else 8
  }

  /** One place the opcode stream asks to rebase. */
  datatype Slot = Slot(seg: nat, offset: nat, kind: byte)

  function SlotSize(arch: Machine, kind: byte): (n: nat)
    ensures n == 4 || n == 8
  {
    if kind == POINTER_TYPE then PointerSize(arch) else 4
  }

  function Position(segs: seq<Segment>, slot: Slot): nat
    requires slot.seg < |segs|
  {
    segs[slot.seg].mappedAddress + slot.offset
  }

  /** The slot is of a kind that is modelled and lies in the mapped bytes. */
  predicate Placed(n: nat, segs: seq<Segment>, arch: Machine, slot: Slot) {
    && slot.seg < |segs| && (slot.kind == POINTER_TYPE || slot.kind == TEXT_ABSOLUTE32)
    && Position(segs, slot) + SlotSize(arch, slot.kind) <= n
  }

  /** The value in a slot. */
  function ValueAt(m: seq<byte>, segs: seq<Segment>, arch: Machine, slot: Slot): (v: u64)
    requires Placed(|m|, segs, arch, slot)
  {
    var p := Position(segs, slot);
    var b := m[p..p + SlotSize(arch, slot.kind)];
    GetBound(b, arch.big);
    WordSizes();
    Get(b, arch.big)
  }

  /** The value in a slot points into some segment. */
  predicate Movable(m: seq<byte>, segs: seq<Segment>, arch: Machine, slot: Slot)
    requires Sound(arch) && Placed(|m|, segs, arch, slot)
  {
    SlideAt(segs, ValueAt(m, segs, arch, slot), arch.word).Some?
  }

  lemma ValueFits(m: seq<byte>, segs: seq<Segment>, arch: Machine, slot: Slot)
    requires Sound(arch) && Placed(|m|, segs, arch, slot)
    ensures ValueAt(m, segs, arch, slot) < Pow256(SlotSize(arch, slot.kind)) <= arch.word
  {
    var p := Position(segs, slot);
    GetBound(m[p..p + SlotSize(arch, slot.kind)], arch.big);
    WordSizes();
  }

  /** What becomes of a value when the segment it points into moves. */
  function MovedValue(v: nat, slide: nat, size: nat): (r: nat)
    ensures r < Pow256(size)
  {
    (v + slide) % Pow256(size)
  }

  /** The memory after one slot has been rebased; None stands for the exception. */
  function RebasedAt(m: seq<byte>, segs: seq<Segment>, arch: Machine, slot: Slot): (r: Option<seq<byte>>)
    requires Sound(arch) && Placed(|m|, segs, arch, slot)
    ensures r.Some? ==> |r.value| == |m|
  {
    ValueFits(m, segs, arch, slot);
    var v := ValueAt(m, segs, arch, slot);
    match SlideAt(segs, v, arch.word)
    case None => None
    case Some(s) =>
      var n := SlotSize(arch, slot.kind);
      Some(Store(m, Position(segs, slot), Put(MovedValue(v, s, n), n, arch.big)))
  }

  ghost predicate AllPlaced(n: nat, segs: seq<Segment>, arch: Machine, slots: seq<Slot>) {
    forall k | 0 <= k < |slots| :: Placed(n, segs, arch, slots[k])
  }

  /** The memory after all slots have been rebased, one after the other. */
  ghost function RebasedAll(m: seq<byte>, segs: seq<Segment>, arch: Machine, slots: seq<Slot>): (r: Option<seq<byte>>)
    requires Sound(arch) && AllPlaced(|m|, segs, arch, slots)
    ensures r.Some? ==> |r.value| == |m|
  {
    if slots == [] then Some(m)
    else
      var n := |slots| - 1;
      match RebasedAll(m, segs, arch, slots[..n])
      case None => None
      case Some(m') => RebasedAt(m', segs, arch, slots[n])
  }

  /** Writes a word. */
  method StoreBytes(mem: array<byte>, p: nat, bytes: seq<byte>)
    requires p + |bytes| <= mem.Length
    modifies mem
    ensures mem[..] == Store(old(mem[..]), p, bytes)
  {
    ghost var m := mem[..];
    for i := 0 to |bytes|
      invariant forall k | 0 <= k < mem.Length :: mem[k] == if p <= k < p + i then bytes[k - p] else m[k]
    {
      mem[p + i] := bytes[i];
    }
    assert mem[..] == Store(m, p, bytes);
  }

  /** doRebase. */
  method DoRebase(mem: array<byte>, segs: seq<Segment>, arch: Machine, segIndex: nat, segOffset: nat, kind: byte)
    returns (ok: bool)
    requires Sound(arch) && Placed(mem.Length, segs, arch, Slot(segIndex, segOffset, kind))
    modifies mem
    ensures ok == RebasedAt(old(mem[..]), segs, arch, Slot(segIndex, segOffset, kind)).Some?
    ensures mem[..]
            == if ok then RebasedAt(old(mem[..]), segs, arch, Slot(segIndex, segOffset, kind)).value else old(mem[..])
    ensures var p, n := segs[segIndex].mappedAddress + segOffset, if kind == 1 && arch.word == TWO64 then 8 else 4;
            forall v: u64 | Spells(old(mem[p..p + n]), v, arch.big) && v < arch.word ::
              && ok == SlideAt(segs, v, arch.word).Some?
              && (ok ==> Spells(mem[p..p + n], (v + SlideAt(segs, v, arch.word).value) % Pow256(n), arch.big))
  {
    hide Get, Put, Pow256, Store, SlideAt, MovedValue;
    var p, n := segs[segIndex].mappedAddress + segOffset, SlotSize(arch, kind);
    ValueFits(mem[..], segs, arch, Slot(segIndex, segOffset, kind));
    assert mem[p..p + n] == mem[..][p..p + n];
    ghost var m := mem[..];
    var value := Get(mem[p..p + n], arch.big);
    var slide := GetSlideForVMAddress(segs, value, arch.word);
    if slide == None {
      RebasedBytes(m, segs, arch, Slot(segIndex, segOffset, kind));
      return false;
    }
    StoreBytes(mem, p, Put(MovedValue(value, slide.value, n), n, arch.big));
    RebasedBytes(m, segs, arch, Slot(segIndex, segOffset, kind));
    assert mem[p..p + n] == mem[..][p..p + n];
    return true;
  }

  /** The same, digit by digit. */
  lemma RebasedBytes(m: seq<byte>, segs: seq<Segment>, arch: Machine, slot: Slot)
    requires Sound(arch) && Placed(|m|, segs, arch, slot)
    ensures var p, n := Position(segs, slot), SlotSize(arch, slot.kind);
            forall v: u64 | Spells(m[p..p + n], v, arch.big) && v < arch.word ::
              var s := SlideAt(segs, v, arch.word);
              && RebasedAt(m, segs, arch, slot).Some? == s.Some?
              && (s.Some? ==>
                    Spells(RebasedAt(m, segs, arch, slot).value[p..p + n], (v + s.value) % Pow256(n), arch.big))
  {
    hide Get, Put, Pow256, SlideAt, Spells;
    var p, n := Position(segs, slot), SlotSize(arch, slot.kind);
    forall v: u64 | Spells(m[p..p + n], v, arch.big) && v < arch.word
      ensures var s := SlideAt(segs, v, arch.word);
              && RebasedAt(m, segs, arch, slot).Some? == s.Some?
              && (s.Some? ==>
                    Spells(RebasedAt(m, segs, arch, slot).value[p..p + n], (v + s.value) % Pow256(n), arch.big))
    {
      GetSpells(m[p..p + n], v, arch.big);
      var s := SlideAt(segs, v, arch.word);
      if s.Some? {
        PutSpells(MovedValue(v, s.value, n), n, arch.big);
        assert Store(m, p, Put(MovedValue(v, s.value, n), n, arch.big))[p..p + n]
            == Put(MovedValue(v, s.value, n), n, arch.big);
      }
    }
  }

  // ----- exactly the slots change

  ghost predicate Covered(segs: seq<Segment>, arch: Machine, slot: Slot, i: nat)
    requires slot.seg < |segs|
  {
    Position(segs, slot) <= i < Position(segs, slot) + SlotSize(arch, slot.kind)
  }

  lemma RebasedElsewhere(m: seq<byte>, segs: seq<Segment>, arch: Machine, slot: Slot, i: nat)
    requires Sound(arch) && Placed(|m|, segs, arch, slot) && RebasedAt(m, segs, arch, slot).Some?
    requires i < |m| && !Covered(segs, arch, slot, i)
    ensures RebasedAt(m, segs, arch, slot).value[i] == m[i]
  {
    hide Get, Put, Pow256, SlideAt;
  }

  /** A byte outside every slot keeps its value. */
  lemma {:induction false} OutsideUnchanged(m: seq<byte>, segs: seq<Segment>, arch: Machine, slots: seq<Slot>, i: nat)
    requires Sound(arch) && AllPlaced(|m|, segs, arch, slots) && RebasedAll(m, segs, arch, slots).Some?
    requires i < |m| && forall k | 0 <= k < |slots| :: !Covered(segs, arch, slots[k], i)
    ensures RebasedAll(m, segs, arch, slots).value[i] == m[i]
  {
    if slots != [] {
      hide RebasedAt, Covered;
      var n := |slots| - 1;
      OutsideUnchanged(m, segs, arch, slots[..n], i);
      RebasedElsewhere(RebasedAll(m, segs, arch, slots[..n]).value, segs, arch, slots[n], i);
    }
  }

  predicate SlotsApart(segs: seq<Segment>, arch: Machine, a: Slot, b: Slot)
    requires a.seg < |segs| && b.seg < |segs|
  {
    || Position(segs, a) + SlotSize(arch, a.kind) <= Position(segs, b)
    || Position(segs, b) + SlotSize(arch, b.kind) <= Position(segs, a)
  }

  /** No slot is listed twice and none overlaps another. */
  ghost predicate AllApart(segs: seq<Segment>, arch: Machine, slots: seq<Slot>)
    requires forall k | 0 <= k < |slots| :: slots[k].seg < |segs|
  {
    forall j, k | 0 <= j < k < |slots| :: SlotsApart(segs, arch, slots[j], slots[k])
  }

  /** A slot that was not rebased yet still holds its first value. */
  lemma {:induction false} ValueKept(m: seq<byte>, segs: seq<Segment>, arch: Machine, slots: seq<Slot>, slot: Slot)
    requires Sound(arch) && AllPlaced(|m|, segs, arch, slots) && RebasedAll(m, segs, arch, slots).Some?
    requires Placed(|m|, segs, arch, slot) && forall k | 0 <= k < |slots| :: SlotsApart(segs, arch, slots[k], slot)
    ensures ValueAt(RebasedAll(m, segs, arch, slots).value, segs, arch, slot) == ValueAt(m, segs, arch, slot)
  {
    hide Get, Pow256, RebasedAll;
    var p, n, m' := Position(segs, slot), SlotSize(arch, slot.kind), RebasedAll(m, segs, arch, slots).value;
    forall i | p <= i < p + n
      ensures m'[i] == m[i]
    {
      OutsideUnchanged(m, segs, arch, slots, i);
    }
    assert m'[p..p + n] == m[p..p + n];
  }

  /** The value a slot gets. */
  lemma ValueMoved(m: seq<byte>, segs: seq<Segment>, arch: Machine, slot: Slot)
    requires Sound(arch) && Placed(|m|, segs, arch, slot) && RebasedAt(m, segs, arch, slot).Some?
    ensures SlideAt(segs, ValueAt(m, segs, arch, slot), arch.word).Some?
    ensures ValueAt(RebasedAt(m, segs, arch, slot).value, segs, arch, slot)
            == MovedValue(ValueAt(m, segs, arch, slot), SlideAt(segs, ValueAt(m, segs, arch, slot), arch.word).value,
                          SlotSize(arch, slot.kind))
  {
    hide Get, Put, Pow256, SlideAt;
    var v := ValueAt(m, segs, arch, slot);
    var s := SlideAt(segs, v, arch.word).value;
    var n, p := SlotSize(arch, slot.kind), Position(segs, slot);
    var bytes := Put(MovedValue(v, s, n), n, arch.big);
    assert Store(m, p, bytes)[p..p + n] == bytes;
    GetPut(MovedValue(v, s, n), n, arch.big);
  }

  lemma ValueElsewhere(m: seq<byte>, segs: seq<Segment>, arch: Machine, slot: Slot, other: Slot)
    requires Sound(arch) && Placed(|m|, segs, arch, slot) && RebasedAt(m, segs, arch, slot).Some?
    requires Placed(|m|, segs, arch, other) && SlotsApart(segs, arch, other, slot)
    ensures ValueAt(RebasedAt(m, segs, arch, slot).value, segs, arch, other) == ValueAt(m, segs, arch, other)
  {
    hide Get, Put, Pow256, SlideAt;
    var p, n, m' := Position(segs, other), SlotSize(arch, other.kind), RebasedAt(m, segs, arch, slot).value;
    forall i | p <= i < p + n
      ensures m'[i] == m[i]
    {
      RebasedElsewhere(m, segs, arch, slot, i);
    }
    assert m'[p..p + n] == m[p..p + n];
  }

  /** Every listed slot ends up with its first value, moved. */
  lemma {:induction false} EverySlotMoved(m: seq<byte>, segs: seq<Segment>, arch: Machine, slots: seq<Slot>, k: nat)
    requires Sound(arch) && AllPlaced(|m|, segs, arch, slots) && AllApart(segs, arch, slots)
    requires RebasedAll(m, segs, arch, slots).Some? && k < |slots|
    ensures var v, m' := ValueAt(m, segs, arch, slots[k]), RebasedAll(m, segs, arch, slots).value;
            && SlideAt(segs, v, arch.word).Some?
            && ValueAt(m', segs, arch, slots[k])
               == MovedValue(v, SlideAt(segs, v, arch.word).value, SlotSize(arch, slots[k].kind))
  {
    hide RebasedAt, ValueAt, MovedValue, SlideAt, SlotsApart;
    var n := |slots| - 1;
    var m1 := RebasedAll(m, segs, arch, slots[..n]).value;
    if k < n {
      assert forall i, j | 0 <= i < j < n :: SlotsApart(segs, arch, slots[..n][i], slots[..n][j]);
      EverySlotMoved(m, segs, arch, slots[..n], k);
      ValueElsewhere(m1, segs, arch, slots[n], slots[k]);
    } else {
      ValueKept(m, segs, arch, slots[..n], slots[n]);
      ValueMoved(m1, segs, arch, slots[n]);
    }
  }

  /** In the bytes of memory: if a listed slot spells a number before the run, it spells the moved one after it. A slot
      of kind 1 is as wide as a pointer, the others have four bytes. */
  lemma {:induction false} EverySlotBytes(m: seq<byte>, segs: seq<Segment>, arch: Machine, slots: seq<Slot>, k: nat,
                                          p: nat, n: nat, v: u64)
    requires Sound(arch) && AllPlaced(|m|, segs, arch, slots) && AllApart(segs, arch, slots)
    requires RebasedAll(m, segs, arch, slots).Some? && k < |slots| && slots[k].seg < |segs|
    requires p == segs[slots[k].seg].mappedAddress + slots[k].offset
    requires n == if slots[k].kind == 1 && arch.word == TWO64 then 8 else 4
    requires v < arch.word && p + n <= |m| && Spells(m[p..p + n], v, arch.big)
    ensures SlideAt(segs, v, arch.word).Some? && |RebasedAll(m, segs, arch, slots).value| == |m|
    ensures var b, w := RebasedAll(m, segs, arch, slots).value[p..p + n],
                        (v + SlideAt(segs, v, arch.word).value) % (if n == 8 then TWO64 else TWO32);
            && (!arch.big ==> forall i | 0 <= i < n :: b[i] == w / Pow256(i) % 256)
            && (arch.big ==> forall i | 0 <= i < n :: b[i] == w / Pow256(n - 1 - i) % 256)
  {
    hide Get, Pow256, SlideAt, RebasedAll, AllApart;
    WordSizes();
    PlacedOne(|m|, segs, arch, slots, k);
    GetSpells(m[p..p + n], v, arch.big);
    EverySlotMoved(m, segs, arch, slots, k);
    var m', w := RebasedAll(m, segs, arch, slots).value, (v + SlideAt(segs, v, arch.word).value) % Pow256(n);
    GetSpells(m'[p..p + n], w, arch.big);
  }

  ghost predicate AllMovable(m: seq<byte>, segs: seq<Segment>, arch: Machine, slots: seq<Slot>)
    requires Sound(arch) && AllPlaced(|m|, segs, arch, slots)
  {
    forall k | 0 <= k < |slots| :: Movable(m, segs, arch, slots[k])
  }

  lemma AllMovableNext(m: seq<byte>, segs: seq<Segment>, arch: Machine, slots: seq<Slot>)
    requires Sound(arch) && slots != [] && AllPlaced(|m|, segs, arch, slots)
    ensures AllPlaced(|m|, segs, arch, slots[..|slots| - 1]) && Placed(|m|, segs, arch, slots[|slots| - 1])
    ensures AllMovable(m, segs, arch, slots)
            <==> AllMovable(m, segs, arch, slots[..|slots| - 1]) && Movable(m, segs, arch, slots[|slots| - 1])
  {
    hide Movable, Placed;
    var n := |slots| - 1;
    assert forall k | 0 <= k < n :: slots[..n][k] == slots[k];
    if AllMovable(m, segs, arch, slots[..n]) && Movable(m, segs, arch, slots[n]) {
      forall k | 0 <= k < |slots|
        ensures Movable(m, segs, arch, slots[k])
      {
        assert k < n ==> Movable(m, segs, arch, slots[..n][k]);
      }
    }
    if AllMovable(m, segs, arch, slots) {
      forall k | 0 <= k < n
        ensures Movable(m, segs, arch, slots[..n][k])
      {
        assert Movable(m, segs, arch, slots[k]);
      }
    }
  }

  lemma AllApartNext(segs: seq<Segment>, arch: Machine, slots: seq<Slot>)
    requires slots != [] && (forall k | 0 <= k < |slots| :: slots[k].seg < |segs|) && AllApart(segs, arch, slots)
    ensures AllApart(segs, arch, slots[..|slots| - 1])
    ensures var init, last := slots[..|slots| - 1], slots[|slots| - 1];
            forall k | 0 <= k < |init| :: SlotsApart(segs, arch, init[k], last)
  {
    hide SlotsApart;
    var n := |slots| - 1;
    assert forall i, j | 0 <= i < j < n :: SlotsApart(segs, arch, slots[..n][i], slots[..n][j]);
  }

  /** The run fails exactly if some listed value points into no segment. */
  lemma {:induction false} SucceedsExactly(m: seq<byte>, segs: seq<Segment>, arch: Machine, slots: seq<Slot>)
    requires Sound(arch) && AllPlaced(|m|, segs, arch, slots) && AllApart(segs, arch, slots)
    ensures RebasedAll(m, segs, arch, slots).Some? <==> AllMovable(m, segs, arch, slots)
  {
    if slots != [] {
      hide ValueAt, SlideAt, SlotsApart, Movable, RebasedAt, AllMovable, AllApart, Placed;
      var n := |slots| - 1;
      AllApartNext(segs, arch, slots);
      AllMovableNext(m, segs, arch, slots);
      SucceedsExactly(m, segs, arch, slots[..n]);
      if RebasedAll(m, segs, arch, slots[..n]).Some? {
        ValueKept(m, segs, arch, slots[..n], slots[n]);
        RebasedIff(m, RebasedAll(m, segs, arch, slots[..n]).value, segs, arch, slots[n]);
      }
    }
  }

  lemma RebasedIff(m: seq<byte>, m': seq<byte>, segs: seq<Segment>, arch: Machine, slot: Slot)
    requires Sound(arch) && |m| == |m'| && Placed(|m|, segs, arch, slot)
    requires ValueAt(m, segs, arch, slot) == ValueAt(m', segs, arch, slot)
    ensures RebasedAt(m', segs, arch, slot).Some? <==> Movable(m, segs, arch, slot)
  {
    hide Get, Put, Pow256, SlideAt;
  }

  // ----- what a moved pointer designates

  /** The mapped byte an original address designates: mappedAddressForVMAddress. */
  function MappedForVM(segs: seq<Segment>, a: u64): Option<nat> {
    if segs == [] then None
    else if segs[0].address <= a < EndOf(segs[0]) then Some(a - segs[0].address + segs[0].mappedAddress)
    else MappedForVM(segs[1..], a)
  }

  /** And a new one: mappedAddressForNewAddress. */
  function MappedForNew(segs: seq<Segment>, a: u64): Option<nat> {
    if segs == [] then None
    else if segs[0].newAddress <= a < NewEndOf(segs[0]) then Some(a - segs[0].newAddress + segs[0].mappedAddress)
    else MappedForNew(segs[1..], a)
  }

  /** Segments lie within the address space, before and after, and their new places do not overlap. */
  ghost predicate GoodSegments(segs: seq<Segment>, word: int) {
    && (forall i | 0 <= i < |segs| ::
          EndsIn(segs[i].address + segs[i].size, word) && EndsIn(segs[i].newAddress + segs[i].size, word))
    && (forall i, j | 0 <= i < j < |segs| && segs[i].size > 0 && segs[j].size > 0 ::
          || segs[i].newAddress + segs[i].size <= segs[j].newAddress
          || segs[j].newAddress + segs[j].size <= segs[i].newAddress)
  }

  /** An end in the address space. The top itself is an end in 32 bits; in 64 bits it wraps to zero. */
  predicate EndsIn(end: nat, word: int) {
    end <= word && end < TWO64
  }

  /** A segment that ends at the top of the 64-bit address space is lost to the lookups, but for its first address. */
  lemma {:induction false} TopIsLost(seg: Segment, a: u64)
    requires seg.address + seg.size == TWO64
    ensures Slides(seg, a) <==> a == seg.address
    ensures MappedForVM([seg], a) == None
  {
    assert EndOf(seg) == 0;
  }

  predicate InAddressSpace(segs: seq<Segment>) {
    forall i | 0 <= i < |segs| :: segs[i].address + segs[i].size < TWO64
  }

  lemma {:induction false} MappedOfHolder(segs: seq<Segment>, a: u64)
    requires InAddressSpace(segs) && Holder(segs, a) < |segs|
    ensures var s := segs[Holder(segs, a)];
            s.address <= a < s.address + s.size && MappedForVM(segs, a) == Some(a - s.address + s.mappedAddress)
  {
    if !Slides(segs[0], a) {
      assert Holder(segs, a) == 1 + Holder(segs[1..], a);
      MappedOfHolder(segs[1..], a);
    }
  }

  lemma {:induction false} MappedOfNew(segs: seq<Segment>, word: int, j: nat, a: u64)
    requires Width(word) && GoodSegments(segs, word) && j < |segs|
    requires segs[j].newAddress <= a < segs[j].newAddress + segs[j].size
    ensures MappedForNew(segs, a) == Some(a - segs[j].newAddress + segs[j].mappedAddress)
  {
    if j > 0 {
      MappedOfNew(segs[1..], word, j - 1, a);
    }
  }

  lemma SlideWithin(address: nat, newAddress: nat, d: nat, word: int)
    requires Width(word) && address + d < word && newAddress + d < word
    ensures (address + d + (newAddress - address) % word) % word == newAddress + d
  {
    if newAddress >= address {
      assert (newAddress - address) % word == newAddress - address;
    } else {
      assert (newAddress - address) % word == newAddress - address + word;
    }
  }

  /** Where the segment a value points into has taken the byte. */
  function MovedAddress(segs: seq<Segment>, arch: Machine, v: u64): (a: nat)
    requires Sound(arch) && SlideAt(segs, v, arch.word).Some?
    ensures a < arch.word
  {
    (v + SlideAt(segs, v, arch.word).value) % arch.word
  }

  /** Where a byte of a segment goes. */
  lemma {:induction false} MovedWithin(segs: seq<Segment>, arch: Machine, v: u64)
    requires Sound(arch) && GoodSegments(segs, arch.word) && SlideAt(segs, v, arch.word).Some?
    ensures Holder(segs, v) < |segs|
    ensures var s := segs[Holder(segs, v)];
            && s.address <= v < s.address + s.size && MappedForVM(segs, v) == Some(v - s.address + s.mappedAddress)
            && MovedAddress(segs, arch, v) == s.newAddress + (v - s.address)
  {
    var s := segs[Holder(segs, v)];
    MappedOfHolder(segs, v);
    SlideWithin(s.address, s.newAddress, v - s.address, arch.word);
  }

  /** A pointer that is moved designates the same mapped byte as before. */
  lemma {:induction false} SameByte(segs: seq<Segment>, arch: Machine, v: u64)
    requires Sound(arch) && GoodSegments(segs, arch.word) && SlideAt(segs, v, arch.word).Some?
    ensures var w := (v + SlideAt(segs, v, arch.word).value) % arch.word;
            MappedForVM(segs, v).Some? && MappedForNew(segs, w) == MappedForVM(segs, v)
  {
    hide GoodSegments, MappedForVM, MappedForNew, SlideAt, Holder;
    MovedWithin(segs, arch, v);
    var s := segs[Holder(segs, v)];
    MappedOfNew(segs, arch.word, Holder(segs, v), s.newAddress + (v - s.address));
  }

  /** The mapped bytes of different segments are different bytes. */
  ghost predicate MappedApart(segs: seq<Segment>) {
    forall i, j | 0 <= i < j < |segs| && segs[i].size > 0 && segs[j].size > 0 ::
      || segs[i].mappedAddress + segs[i].size <= segs[j].mappedAddress
      || segs[j].mappedAddress + segs[j].size <= segs[i].mappedAddress
  }

  lemma GoodRest(segs: seq<Segment>, word: int)
    requires GoodSegments(segs, word) && segs != []
    ensures GoodSegments(segs[1..], word)
  {
  }

  /** A new address that designates a byte lies in a segment. */
  lemma {:induction false} InSomeSegment(segs: seq<Segment>, word: int, a: u64) returns (j: nat)
    requires Width(word) && GoodSegments(segs, word) && MappedForNew(segs, a).Some?
    ensures j < |segs| && segs[j].newAddress <= a < segs[j].newAddress + segs[j].size
    ensures MappedForNew(segs, a) == Some(a - segs[j].newAddress + segs[j].mappedAddress)
  {
    if segs[0].newAddress <= a < NewEndOf(segs[0]) {
      j := 0;
    } else {
      GoodRest(segs, word);
      hide GoodSegments;
      var i := InSomeSegment(segs[1..], word, a);
      j := i + 1;
      assert segs[j] == segs[1..][i];
    }
  }

  /** Different new addresses designate different bytes. */
  lemma {:induction false} NewInjective(segs: seq<Segment>, word: int, a: u64, b: u64)
    requires Width(word) && GoodSegments(segs, word) && MappedApart(segs)
    requires MappedForNew(segs, a).Some? && MappedForNew(segs, a) == MappedForNew(segs, b)
    ensures a == b
  {
    var i := InSomeSegment(segs, word, a);
    var j := InSomeSegment(segs, word, b);
  }

  /** A slot can hold the moved address: it is as wide as a pointer, or the address fits in its four bytes. */
  predicate Holdable(segs: seq<Segment>, arch: Machine, slot: Slot, v: u64)
    requires Sound(arch) && SlideAt(segs, v, arch.word).Some?
  {
    SlotSize(arch, slot.kind) == PointerSize(arch) || MovedAddress(segs, arch, v) < TWO32
  }

  lemma {:induction false} NarrowMoved(v: nat, slide: nat, size: nat, arch: Machine)
    requires Sound(arch) && (size == PointerSize(arch) || size == 4)
    ensures var w, moved := MovedValue(v, slide, size), (v + slide) % arch.word;
            w == moved % Pow256(size) && (size == PointerSize(arch) ==> w == moved)
    ensures Pow256(size) == if size == PointerSize(arch) then arch.word else TWO32
  {
    WordSizes();
    if size != PointerSize(arch) {
      ModOfMod(v + slide);
    }
  }

  lemma ModOfMod(x: nat)
    ensures x % TWO64 % TWO32 == x % TWO32
  {
    var q := x / TWO64;
    assert x == x % TWO64 + q * TWO32 * TWO32;
    assert (x % TWO64 + q * TWO32 * TWO32) % TWO32 == x % TWO64 % TWO32;
  }

  /**
    * After a run, a listed slot holds the moved address if and only if it can hold it, and then it designates through
    * the new addresses the byte it designated through the old ones. If it cannot, it designates that byte no more.
    */
  lemma {:induction false} MeaningPreserved(m: seq<byte>, segs: seq<Segment>, arch: Machine, slots: seq<Slot>, k: nat)
    requires Sound(arch) && AllPlaced(|m|, segs, arch, slots) && AllApart(segs, arch, slots)
    requires RebasedAll(m, segs, arch, slots).Some? && k < |slots| && GoodSegments(segs, arch.word)
    ensures var v, w :=
              ValueAt(m, segs, arch, slots[k]), ValueAt(RebasedAll(m, segs, arch, slots).value, segs, arch, slots[k]);
            && SlideAt(segs, v, arch.word).Some? && MappedForVM(segs, v).Some?
            && (w == MovedAddress(segs, arch, v) <==> Holdable(segs, arch, slots[k], v))
            && (Holdable(segs, arch, slots[k], v) ==> MappedForNew(segs, w) == MappedForVM(segs, v))
            && (MappedApart(segs) && !Holdable(segs, arch, slots[k], v) ==>
                  MappedForNew(segs, w) != MappedForVM(segs, v))
  {
    hide ValueAt, SlideAt, MappedForVM, MappedForNew, RebasedAll, GoodSegments, AllApart, AllPlaced, MappedApart,
         Pow256;
    PlacedOne(|m|, segs, arch, slots, k);
    ValueFits(m, segs, arch, slots[k]);
    EverySlotMoved(m, segs, arch, slots, k);
    WordSizes();
    var v, w := ValueAt(m, segs, arch, slots[k]), ValueAt(RebasedAll(m, segs, arch, slots).value, segs, arch, slots[k]);
    SameByte(segs, arch, v);
    NarrowMoved(v, SlideAt(segs, v, arch.word).value, SlotSize(arch, slots[k].kind), arch);
    if MappedApart(segs) && MappedForNew(segs, w) == MappedForVM(segs, v) {
      NewInjective(segs, arch.word, w, MovedAddress(segs, arch, v));
    }
  }

  lemma PlacedOne(n: nat, segs: seq<Segment>, arch: Machine, slots: seq<Slot>, k: nat)
    requires AllPlaced(n, segs, arch, slots) && k < |slots|
    ensures Placed(n, segs, arch, slots[k])
  {
  }

  /** A 64-bit machine with one segment, moved beyond the reach of 32 bits. */
  const FAR := [Segment(0, 0x1000, false, true, false, 0x1000, 0x7FFF_8000_3000, 0)]
  const M64 := Machine(TWO64, false)

  /** A 32-bit slot in it that points at the first byte, and after the run at nothing. */
  lemma {:induction false} NarrowSlot()
    ensures var m, slots := [0, 0, 0, 0], [Slot(0, 0, TEXT_ABSOLUTE32)];
            && AllPlaced(|m|, FAR, M64, slots) && AllApart(FAR, M64, slots) && GoodSegments(FAR, TWO64)
            && MappedApart(FAR) && RebasedAll(m, FAR, M64, slots).Some?
            && SlideAt(FAR, 0, TWO64).Some? && !Holdable(FAR, M64, slots[0], 0)
            && ValueAt(m, FAR, M64, slots[0]) == 0 && MappedForVM(FAR, 0) == Some(0)
            && MappedForNew(FAR, ValueAt(RebasedAll(m, FAR, M64, slots).value, FAR, M64, slots[0])) != Some(0)
  {
    var m: seq<byte>, slots := [0, 0, 0, 0], [Slot(0, 0, TEXT_ABSOLUTE32)];
    FarSegment();
    assert ValueAt(m, FAR, M64, slots[0]) == 0 by { ZeroBytes(m); }
    OneRebased(m, slots);
    MeaningPreserved(m, FAR, M64, slots, 0);
  }

  lemma {:induction false} OneRebased(m: seq<byte>, slots: seq<Slot>)
    requires |m| == 4 && slots == [Slot(0, 0, TEXT_ABSOLUTE32)] && AllPlaced(4, FAR, M64, slots)
    requires SlideAt(FAR, ValueAt(m, FAR, M64, slots[0]), TWO64).Some?
    ensures RebasedAll(m, FAR, M64, slots).Some?
  {
    hide SlideAt, Get, Put;
    assert slots[..0] == [];
    assert RebasedAll(m, FAR, M64, slots[..0]) == Some(m);
  }

  lemma {:induction false} ZeroBytes(m: seq<byte>)
    requires m == [0, 0, 0, 0]
    ensures Get(m[0..4], false) == 0
  {
    var z: seq<byte> := [];
    assert Get([0], false) == 0 && Get([0, 0], false) == 0 by {
      assert [0][1..] == z && [0, 0][1..] == [0];
    }
    assert m[0..4] == m && m[1..] == [0, 0, 0] && [0, 0, 0][1..] == [0, 0];
  }

  lemma {:induction false} FarSegment()
    ensures Slides(FAR[0], 0) && Holder(FAR, 0) == 0 && SlideAt(FAR, 0, TWO64) == Some(0x7FFF_8000_3000)
    ensures GoodSegments(FAR, TWO64) && MappedForVM(FAR, 0) == Some(0)
    ensures MovedAddress(FAR, M64, 0) == 0x7FFF_8000_3000
  {
  }

  /** A segment moved from 0x2000 to 0xA000_0000, and a pointer to its byte 0x10 in either byte order. */
  const MOVED := [Segment(0x2000, 0x1000, true, false, false, 0x1000, 0xA000_0000, 0)]

  lemma {:induction false} ByteOrders()
    ensures var slot, little, big := Slot(0, 0, POINTER_TYPE), Machine(TWO32, false), Machine(TWO32, true);
            && Placed(4, MOVED, little, slot) && Placed(4, MOVED, big, slot)
            && RebasedAt([0x10, 0x20, 0, 0], MOVED, little, slot) == Some([0x10, 0, 0, 0xA0])
            && RebasedAt([0, 0, 0x20, 0x10], MOVED, big, slot) == Some([0xA0, 0, 0, 0x10])
  {
    hide *;
    SlotAtStart(false);
    SlotAtStart(true);
    LittleDigits();
    BigDigits();
    FirstWord([0x10, 0x20, 0, 0], [0x10, 0, 0, 0xA0], false);
    FirstWord([0, 0, 0x20, 0x10], [0xA0, 0, 0, 0x10], true);
  }

  lemma SlotAtStart(big: bool)
    ensures Sound(Machine(TWO32, big)) && Placed(4, MOVED, Machine(TWO32, big), Slot(0, 0, POINTER_TYPE))
    ensures Width(TWO32)
  {
  }

  lemma LittleDigits()
    ensures Spells([0x10, 0x20, 0, 0], 0x2010, false) && Spells([0x10, 0, 0, 0xA0], 0xA000_0010, false)
  {
    FourDigits([0x10, 0x20, 0, 0], 0x2010, false);
    FourDigits([0x10, 0, 0, 0xA0], 0xA000_0010, false);
  }

  lemma BigDigits()
    ensures Spells([0, 0, 0x20, 0x10], 0x2010, true) && Spells([0xA0, 0, 0, 0x10], 0xA000_0010, true)
  {
    FourDigits([0, 0, 0x20, 0x10], 0x2010, true);
    FourDigits([0xA0, 0, 0, 0x10], 0xA000_0010, true);
  }

  /** Four digits, with their weights written out. */
  lemma FourDigits(b: seq<byte>, v: nat, big: bool)
    requires |b| == 4 && v < TWO32
    requires var c := if big then [b[3], b[2], b[1], b[0]] else b;
             c[0] == v % 0x100 && c[1] == v / 0x100 % 0x100 && c[2] == v / 0x1_0000 % 0x100 && c[3] == v / 0x100_0000
    ensures Spells(b, v, big)
  {
    SmallPowers();
    hide Pow256;
    forall i | 0 <= i < 4
      ensures !big ==> b[i] == v / Pow256(i) % 256
      ensures big ==> b[i] == v / Pow256(|b| - 1 - i) % 256
    {
      if i == 0 {
      } else if i == 1 {
      } else if i == 2 {
      } else {
        assert i == 3;
      }
    }
  }

  lemma FirstWord(m: seq<byte>, b: seq<byte>, big: bool)
    requires |m| == |b| == 4 && Spells(m, 0x2010, big) && Spells(b, 0xA000_0010, big)
    requires Sound(Machine(TWO32, big)) && Placed(4, MOVED, Machine(TWO32, big), Slot(0, 0, POINTER_TYPE))
    ensures RebasedAt(m, MOVED, Machine(TWO32, big), Slot(0, 0, POINTER_TYPE)) == Some(b)
  {
    hide Get, Put, Pow256, SlideAt, Spells, Store;
    WordSizes();
    MovedSlide();
    Reads(m, 0x2010, big);
    Writes(b, 0xA000_0010, big);
    WholeStore(m, b);
  }

  lemma SmallPowers()
    ensures Pow256(0) == 1 && Pow256(1) == 0x100 && Pow256(2) == 0x1_0000 && Pow256(3) == 0x100_0000
    ensures Pow256(4) == TWO32
  {
    WordSizes();
  }

  lemma {:induction false} MovedSlide()
    ensures SlideAt(MOVED, 0x2010, TWO32) == Some(0x9FFF_E000)
  {
    assert Slides(MOVED[0], 0x2010);
    assert Holder(MOVED, 0x2010) == 0;
  }

  lemma {:induction false} Reads(b: seq<byte>, v: nat, big: bool)
    requires |b| == 4 && Spells(b, v, big)
    ensures b[0..4] == b && Get(b[0..4], big) == v
  {
    assert b[0..4] == b;
    GetSpells(b, v, big);
  }

  lemma {:induction false} Writes(b: seq<byte>, v: nat, big: bool)
    requires |b| == 4 && Spells(b, v, big)
    ensures Put(v, 4, big) == b
  {
    GetSpells(b, v, big);
    PutGet(b, big);
  }

  lemma WholeStore(m: seq<byte>, b: seq<byte>)
    requires |m| == |b|
    ensures Store(m, 0, b) == b
  {
  }
}
