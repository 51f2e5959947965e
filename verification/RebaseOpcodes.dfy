/** The compressed rebase instructions: the table of slots they stand for, and the loop that carries them out. */
module RebaseOpcodes {
  import opened Bytes
  import opened Segments
  import opened Rebase
  import Uleb

  // ----- instructions and the slots they list

  datatype Op =
    | Done
    | SetType(kind: byte)
    | SetSegmentAndOffset(seg: byte, offset: u64)
    | AddAddr(delta: u64)
    | AddAddrScaled(count: byte)
    | DoTimes(count: byte)
    | DoTimesUleb(times: u64)
    | DoAddAddr(delta: u64)
    | DoTimesSkipping(times: u64, skip: u64)

  /** The registers of the interpreter. */
  datatype Registers = Registers(kind: byte, seg: nat, offset: u64)

  /** Slots at equal distances. */
  function Spread(r: Registers, n: nat, stride: nat): (slots: seq<Slot>)
    ensures |slots| == n
  {
    if n == 0 then [] else Spread(r, n - 1, stride) + [Slot(r.seg, (r.offset + (n - 1) * stride) % TWO64, r.kind)]
  }

  function Shifted(r: Registers, n: nat): Registers {
    r.(offset := (r.offset + n) % TWO64)
  }

  /** What one instruction lists. Counts and gaps are narrowed to 32 bits. */
  function Listed(op: Op, r: Registers, arch: Machine): seq<Slot> {
    match op
    case DoTimes(count) => Spread(r, count, PointerSize(arch))
    case DoTimesUleb(times) => Spread(r, times % TWO32, PointerSize(arch))
    case DoAddAddr(_) => Spread(r, 1, PointerSize(arch))
    case DoTimesSkipping(times, skip) => Spread(r, times % TWO32, skip % TWO32 + PointerSize(arch))
    case _ => []
  }

  /** How one instruction changes the registers. */
  function Next(op: Op, r: Registers, arch: Machine): Registers {
    match op
    case Done => r
    case SetType(kind) => r.(kind := kind)
    case SetSegmentAndOffset(seg, offset) => Registers(r.kind, seg, offset)
    case AddAddr(delta) => Shifted(r, delta)
    case AddAddrScaled(count) => Shifted(r, count * PointerSize(arch))
    case DoTimes(count) => Shifted(r, count * PointerSize(arch))
    case DoTimesUleb(times) => Shifted(r, times % TWO32 * PointerSize(arch))
    case DoAddAddr(delta) => Shifted(r, delta + PointerSize(arch))
    case DoTimesSkipping(times, skip) => Shifted(r, times % TWO32 * (skip % TWO32 + PointerSize(arch)))
  }

  /** The flat table a list of instructions stands for. */
  function Table(ops: seq<Op>, r: Registers, arch: Machine): seq<Slot> {
    if ops == [] || ops[0] == Done then []
    else Listed(ops[0], r, arch) + Table(ops[1..], Next(ops[0], r, arch), arch)
  }

  // ----- the byte form

  predicate Encodable(op: Op) {
    match op
    case SetType(kind) => kind < 16
    case SetSegmentAndOffset(seg, _) => seg < 16
    case AddAddrScaled(count) => count < 16
    case DoTimes(count) => count < 16
    case _ => true
  }

  function EncodeOp(op: Op): (code: seq<byte>)
    requires Encodable(op)
    ensures |code| >= 1
  {
    match op
    case Done => [0x00]
    case SetType(kind) => [0x10 + kind]
    case SetSegmentAndOffset(seg, offset) => [0x20 + seg] + Uleb.Encode(offset)
    case AddAddr(delta) => [0x30] + Uleb.Encode(delta)
    case AddAddrScaled(count) => [0x40 + count]
    case DoTimes(count) => [0x50 + count]
    case DoTimesUleb(times) => [0x60] + Uleb.Encode(times)
    case DoAddAddr(delta) => [0x70] + Uleb.Encode(delta)
    case DoTimesSkipping(times, skip) => [0x80] + Uleb.Encode(times) + Uleb.Encode(skip)
  }

  ghost predicate AllEncodable(ops: seq<Op>) {
    forall k | 0 <= k < |ops| :: Encodable(ops[k])
  }

  ghost function EncodeAll(ops: seq<Op>): seq<byte>
    requires AllEncodable(ops)
  {
    if ops == [] then [] else EncodeOp(ops[0]) + EncodeAll(ops[1..])
  }

  // ----- carrying them out

  lemma {:induction false} RebasedSnoc(m: seq<byte>, segs: seq<Segment>, arch: Machine, a: seq<Slot>, x: Slot)
    requires Sound(arch) && AllPlaced(|m|, segs, arch, a)
    requires Placed(|m|, segs, arch, x) && AllPlaced(|m|, segs, arch, a + [x])
    ensures RebasedAll(m, segs, arch, a + [x])
            == match RebasedAll(m, segs, arch, a) case None => None case Some(m') => RebasedAt(m', segs, arch, x)
  {
    hide RebasedAt, Placed;
    assert (a + [x])[..|a|] == a;
  }

  lemma {:induction false} RebasedNone(m: seq<byte>, segs: seq<Segment>, arch: Machine)
    requires Sound(arch)
    ensures RebasedAll(m, segs, arch, []) == Some(m)
  {
  }

  lemma {:induction false} RebasedConcat(m: seq<byte>, segs: seq<Segment>, arch: Machine, a: seq<Slot>, b: seq<Slot>)
    requires Sound(arch) && AllPlaced(|m|, segs, arch, a)
    requires AllPlaced(|m|, segs, arch, b) && AllPlaced(|m|, segs, arch, a + b)
    ensures RebasedAll(m, segs, arch, a + b)
            == match RebasedAll(m, segs, arch, a) case None => None case Some(m') => RebasedAll(m', segs, arch, b)
  {
    hide RebasedAt, RebasedAll, Placed;
    if b == [] {
      assert a + b == a;
      forall m': seq<byte>
        ensures RebasedAll(m', segs, arch, []) == Some(m')
      {
        RebasedNone(m', segs, arch);
      }
    } else {
      var n, x := |b| - 1, b[|b| - 1];
      assert b == b[..n] + [x] && a + b == (a + b[..n]) + [x];
      AllPlacedSplit(|m|, segs, arch, a + b[..n], [x]);
      AllPlacedSplit(|m|, segs, arch, b[..n], [x]);
      assert [x][0] == x;
      RebasedConcat(m, segs, arch, a, b[..n]);
      RebasedSnoc(m, segs, arch, a + b[..n], x);
      if RebasedAll(m, segs, arch, a).Some? {
        RebasedSnoc(RebasedAll(m, segs, arch, a).value, segs, arch, b[..n], x);
      }
    }
  }

  lemma AllPlacedSplit(n: nat, segs: seq<Segment>, arch: Machine, a: seq<Slot>, b: seq<Slot>)
    requires AllPlaced(n, segs, arch, a + b)
    ensures AllPlaced(n, segs, arch, a) && AllPlaced(n, segs, arch, b)
  {
    hide Placed;
    var c := a + b;
    forall k | 0 <= k < |a| ensures Placed(n, segs, arch, a[k]) {
      assert Placed(n, segs, arch, c[k]);
    }
    forall k | 0 <= k < |b| ensures Placed(n, segs, arch, b[k]) {
      assert Placed(n, segs, arch, c[|a| + k]);
    }
  }

  lemma SpreadNext(m: seq<byte>, segs: seq<Segment>, arch: Machine, r: Registers, n: nat, stride: nat)
    requires Sound(arch) && AllPlaced(|m|, segs, arch, Spread(r, n + 1, stride))
    ensures AllPlaced(|m|, segs, arch, Spread(r, n, stride))
    ensures Placed(|m|, segs, arch, Slot(r.seg, (r.offset + n * stride) % TWO64, r.kind))
    ensures RebasedAll(m, segs, arch, Spread(r, n + 1, stride))
            == match RebasedAll(m, segs, arch, Spread(r, n, stride))
               case None => None
               case Some(m') => RebasedAt(m', segs, arch, Slot(r.seg, (r.offset + n * stride) % TWO64, r.kind))
  {
    hide Placed, RebasedAt;
    var a, b := Spread(r, n, stride), Slot(r.seg, (r.offset + n * stride) % TWO64, r.kind);
    AllPlacedSplit(|m|, segs, arch, a, [b]);
    assert [b][0] == b;
    assert (a + [b])[..n] == a;
  }

  lemma {:induction false} SpreadPrefix(len: nat, segs: seq<Segment>, arch: Machine, r: Registers, i: nat, n: nat,
                                        stride: nat)
    requires i <= n && AllPlaced(len, segs, arch, Spread(r, n, stride))
    ensures AllPlaced(len, segs, arch, Spread(r, i, stride))
    decreases n - i
  {
    if i < n {
      hide Placed;
      AllPlacedSplit(len, segs, arch, Spread(r, n - 1, stride),
                     [Slot(r.seg, (r.offset + (n - 1) * stride) % TWO64, r.kind)]);
      SpreadPrefix(len, segs, arch, r, i, n - 1, stride);
    }
  }

  lemma {:induction false} SpreadFails(m: seq<byte>, segs: seq<Segment>, arch: Machine, r: Registers, i: nat, n: nat,
                                       stride: nat)
    requires Sound(arch) && i <= n && AllPlaced(|m|, segs, arch, Spread(r, n, stride))
    requires AllPlaced(|m|, segs, arch, Spread(r, i, stride)) && RebasedAll(m, segs, arch, Spread(r, i, stride)).None?
    ensures RebasedAll(m, segs, arch, Spread(r, n, stride)).None?
    decreases n - i
  {
    if i < n {
      hide RebasedAt, RebasedAll;
      SpreadPrefix(|m|, segs, arch, r, i + 1, n, stride);
      SpreadNext(m, segs, arch, r, i, stride);
      SpreadFails(m, segs, arch, r, i + 1, n, stride);
    }
  }

  lemma OffsetNext(offset: nat, i: nat, stride: nat)
    ensures ((offset + i * stride) % TWO64 + stride) % TWO64 == (offset + (i + 1) * stride) % TWO64
  {
    var a, b := offset + i * stride, offset + (i + 1) * stride;
    assert b == a + stride;
    ModShift(a, stride);
  }

  lemma ModShift(a: nat, k: nat)
    ensures (a % TWO64 + k) % TWO64 == (a + k) % TWO64
  {
  }

  /** The loops of the DO_REBASE instructions. */
  method RebaseRun(mem: array<byte>, segs: seq<Segment>, arch: Machine, r: Registers, n: nat, stride: nat)
    returns (ok: bool, segOffset: u64)
    requires Sound(arch) && AllPlaced(mem.Length, segs, arch, Spread(r, n, stride))
    modifies mem
    ensures ok == RebasedAll(old(mem[..]), segs, arch, Spread(r, n, stride)).Some?
    ensures ok ==> Some(mem[..]) == RebasedAll(old(mem[..]), segs, arch, Spread(r, n, stride))
    ensures ok ==> segOffset == (r.offset + n * stride) % TWO64
  {
    hide RebasedAt, RebasedAll, Spread, Placed;
    ghost var m := mem[..];
    segOffset := r.offset;
    RunStart(m, segs, arch, r, stride);
    for i := 0 to n
      invariant AllPlaced(|m|, segs, arch, Spread(r, i, stride))
      invariant RebasedAll(m, segs, arch, Spread(r, i, stride)) == Some(mem[..])
      invariant segOffset == (r.offset + i * stride) % TWO64
    {
      SpreadPrefix(|m|, segs, arch, r, i + 1, n, stride);
      SpreadNext(m, segs, arch, r, i, stride);
      ok := DoRebase(mem, segs, arch, r.seg, segOffset, r.kind);
      if !ok {
        SpreadFails(m, segs, arch, r, i + 1, n, stride);
        return;
      }
      OffsetNext(r.offset, i, stride);
      segOffset := (segOffset + stride) % TWO64;
    }
    ok := true;
  }

  lemma {:induction false} RunStart(m: seq<byte>, segs: seq<Segment>, arch: Machine, r: Registers, stride: nat)
    requires Sound(arch)
    ensures Spread(r, 0, stride) == [] && RebasedAll(m, segs, arch, []) == Some(m)
    ensures r.offset == (r.offset + 0 * stride) % TWO64
  {
  }

  // ----- reading the byte form

  /** The operand at a position, and what follows it. */
  method ReadOperand(code: seq<byte>, p: nat, ghost n: u64, ghost rest: seq<byte>) returns (value: u64, next: nat)
    requires p <= |code| && code[p..] == Uleb.Encode(n) + rest
    ensures value == n && next <= |code| && code[next..] == rest
  {
    Uleb.SizeIsLength(n);
    Uleb.EncodeIsGroup(n);
    Uleb.SizeOfWord(n);
    ghost var q := p + Uleb.Size(n);
    assert code[p..q] == code[p..][..Uleb.Size(n)] == Uleb.Encode(n);
    var r := Uleb.ReadUleb128(code, p, |code|);
    assert r == Uleb.Read(n, q);
    value, next := r.value, r.next;
    assert code[next..] == code[p..][Uleb.Size(n)..];
  }

  lemma Behind(code: seq<byte>, p: nat, b: byte, rest: seq<byte>)
    requires p < |code| && code[p..] == [b] + rest
    ensures code[p] == b && code[p + 1..] == rest
  {
    assert code[p] == code[p..][0];
    assert code[p + 1..] == code[p..][1..];
  }

  /** What one round of the loop works on: the instruction, the bytes behind it. */
  ghost predicate At(code: seq<byte>, p: nat, op: Op, rest: seq<byte>) {
    Encodable(op) && p <= |code| && code[p..] == EncodeOp(op) + rest
  }

  lemma Opcode(code: seq<byte>, p: nat, op: Op, rest: seq<byte>)
    requires At(code, p, op, rest)
    ensures p < |code| && code[p] == EncodeOp(op)[0] && code[p + 1..] == EncodeOp(op)[1..] + rest
  {
    var c := EncodeOp(op);
    assert c == [c[0]] + c[1..];
    assert c + rest == [c[0]] + (c[1..] + rest);
    Behind(code, p, c[0], c[1..] + rest);
  }

  /** The instructions that only change the registers. */
  method SetRegisters(code: seq<byte>, p: nat, r: Registers, arch: Machine, ghost op: Op, ghost rest: seq<byte>)
    returns (next: nat, r': Registers)
    requires At(code, p, op, rest)
    requires op.SetType? || op.SetSegmentAndOffset? || op.AddAddr? || op.AddAddrScaled?
    ensures r' == Next(op, r, arch) && next <= |code| && code[next..] == rest
  {
    Opcode(code, p, op, rest);
    var immediate, opcode := code[p] % 16, code[p] / 16;
    next := p + 1;
    if opcode == 1 {
      r' := r.(kind := immediate);
      assert [] + rest == rest;
    } else if opcode == 2 {
      var offset;
      offset, next := ReadOperand(code, next, op.offset, rest);
      r' := Registers(r.kind, immediate, offset);
    } else if opcode == 3 {
      var delta;
      delta, next := ReadOperand(code, next, op.delta, rest);
      r' := r.(offset := (r.offset + delta) % TWO64);
    } else {
      r' := r.(offset := (r.offset + immediate * PointerSize(arch)) % TWO64);
      assert [] + rest == rest;
    }
  }

  /** DO_REBASE_ADD_ADDR_ULEB: one slot, and then a gap. */
  method ExecuteAddAddr(code: seq<byte>, p: nat, mem: array<byte>, segs: seq<Segment>, r: Registers, arch: Machine,
                        ghost op: Op, ghost rest: seq<byte>)
    returns (ok: bool, next: nat, r': Registers)
    requires Sound(arch) && At(code, p, op, rest)
    requires AllPlaced(mem.Length, segs, arch, Listed(op, r, arch)) && op.DoAddAddr?
    modifies mem
    ensures ok == RebasedAll(old(mem[..]), segs, arch, Listed(op, r, arch)).Some?
    ensures ok ==> Some(mem[..]) == RebasedAll(old(mem[..]), segs, arch, Listed(op, r, arch))
    ensures ok ==> r' == Next(op, r, arch) && next <= |code| && code[next..] == rest
  {
    hide Spread, RebasedAll, AllPlaced, Uleb.Encode;
    Opcode(code, p, op, rest);
    next, r' := p + 1, r;
    var segOffset, delta;
    ok, segOffset := RebaseRun(mem, segs, arch, r, 1, PointerSize(arch));
    if ok {
      delta, next := ReadOperand(code, next, op.delta, rest);
      ModShift(r.offset + PointerSize(arch), delta);
      r' := r.(offset := (segOffset + delta) % TWO64);
    }
  }

  /** DO_REBASE_ULEB_TIMES_SKIPPING_ULEB: slots with gaps between them. */
  method ExecuteSkipping(code: seq<byte>, p: nat, mem: array<byte>, segs: seq<Segment>, r: Registers, arch: Machine,
                         ghost op: Op, ghost rest: seq<byte>)
    returns (ok: bool, next: nat, r': Registers)
    requires Sound(arch) && At(code, p, op, rest)
    requires AllPlaced(mem.Length, segs, arch, Listed(op, r, arch)) && op.DoTimesSkipping?
    modifies mem
    ensures ok == RebasedAll(old(mem[..]), segs, arch, Listed(op, r, arch)).Some?
    ensures ok ==> Some(mem[..]) == RebasedAll(old(mem[..]), segs, arch, Listed(op, r, arch))
    ensures ok ==> r' == Next(op, r, arch) && next <= |code| && code[next..] == rest
  {
    hide Spread, RebasedAll, AllPlaced, Uleb.Encode;
    Opcode(code, p, op, rest);
    var count, skip, segOffset;
    assert EncodeOp(op)[1..] + rest == Uleb.Encode(op.times) + (Uleb.Encode(op.skip) + rest);
    count, next := ReadOperand(code, p + 1, op.times, Uleb.Encode(op.skip) + rest);
    skip, next := ReadOperand(code, next, op.skip, rest);
    ok, segOffset := RebaseRun(mem, segs, arch, r, count % TWO32, skip % TWO32 + PointerSize(arch));
    r' := if ok then r.(offset := segOffset) else r;
  }

  /** The instructions that rebase. */
  method Execute(code: seq<byte>, p: nat, mem: array<byte>, segs: seq<Segment>, r: Registers, arch: Machine,
                 ghost op: Op, ghost rest: seq<byte>)
    returns (ok: bool, next: nat, r': Registers)
    requires Sound(arch) && At(code, p, op, rest) && AllPlaced(mem.Length, segs, arch, Listed(op, r, arch))
    requires op.DoTimes? || op.DoTimesUleb? || op.DoAddAddr? || op.DoTimesSkipping?
    modifies mem
    ensures ok == RebasedAll(old(mem[..]), segs, arch, Listed(op, r, arch)).Some?
    ensures ok ==> Some(mem[..]) == RebasedAll(old(mem[..]), segs, arch, Listed(op, r, arch))
    ensures ok ==> r' == Next(op, r, arch) && next <= |code| && code[next..] == rest
  {
    hide Spread, RebasedAll, AllPlaced, Uleb.Encode;
    Opcode(code, p, op, rest);
    var immediate, opcode, segOffset := code[p] % 16, code[p] / 16, r.offset;
    next := p + 1;
    if opcode == 5 {
      assert [] + rest == rest;
      ok, segOffset := RebaseRun(mem, segs, arch, r, immediate, PointerSize(arch));
    } else if opcode == 6 {
      var count;
      count, next := ReadOperand(code, next, op.times, rest);
      ok, segOffset := RebaseRun(mem, segs, arch, r, count % TWO32, PointerSize(arch));
    } else if opcode == 7 {
      ok, next, r' := ExecuteAddAddr(code, p, mem, segs, r, arch, op, rest);
      return;
    } else {
      ok, next, r' := ExecuteSkipping(code, p, mem, segs, r, arch, op, rest);
      return;
    }
    r' := if ok then r.(offset := segOffset) else r;
  }

  /** The bytes hold these instructions; whatever lies behind DONE is not looked at. */
  ghost predicate Holds(code: seq<byte>, p: nat, ops: seq<Op>) {
    && AllEncodable(ops) && p <= |code|
    && exists rest :: code[p..] == EncodeAll(ops) + rest && (rest == [] || Done in ops)
  }

  lemma HoldsNext(code: seq<byte>, p: nat, ops: seq<Op>) returns (rest: seq<byte>)
    requires Holds(code, p, ops) && ops != []
    ensures At(code, p, ops[0], rest)
    ensures ops[0] != Done ==> forall q: nat | q <= |code| && code[q..] == rest :: Holds(code, q, ops[1..])
  {
    hide EncodeOp;
    var z :| code[p..] == EncodeAll(ops) + z && (z == [] || Done in ops);
    rest := EncodeAll(ops[1..]) + z;
    assert EncodeAll(ops) + z == EncodeOp(ops[0]) + rest;
    assert ops == [ops[0]] + ops[1..];
  }

  lemma HoldsNothing(code: seq<byte>, p: nat, ops: seq<Op>)
    requires Holds(code, p, ops)
    ensures p == |code| ==> ops == []
    ensures ops == [] ==> p == |code|
  {
  }

  /** applyRebaseInfo: exactly the table of the instructions is rebased, in its order. Until an instruction sets the
      segment, the register holds whatever it happened to hold. */
  method ApplyRebaseInfo(code: seq<byte>, mem: array<byte>, segs: seq<Segment>, arch: Machine, uninitialized: nat,
                         ghost ops: seq<Op>)
    returns (ok: bool)
    requires Sound(arch) && Holds(code, 0, ops)
    requires AllPlaced(mem.Length, segs, arch, Table(ops, Registers(0, uninitialized, 0), arch))
    modifies mem
    ensures ok == RebasedAll(old(mem[..]), segs, arch, Table(ops, Registers(0, uninitialized, 0), arch)).Some?
    ensures ok ==>
              Some(mem[..]) == RebasedAll(old(mem[..]), segs, arch, Table(ops, Registers(0, uninitialized, 0), arch))
  {
    hide RebasedAll, AllPlaced, Listed, Next, Holds;
    var p: nat, r: Registers, done: bool := 0, Registers(0, uninitialized, 0), false;
    ghost var m, todo := mem[..], ops;
    ghost var table := Table(ops, r, arch);
    while !done && p < |code|
      invariant p <= |code| && Sound(arch)
      invariant !done ==> Holds(code, p, todo)
      invariant AllPlaced(mem.Length, segs, arch, if done then [] else Table(todo, r, arch))
      invariant RebasedAll(m, segs, arch, table)
                == RebasedAll(mem[..], segs, arch, if done then [] else Table(todo, r, arch))
      decreases !done, |todo|
    {
      HoldsNothing(code, p, todo);
      ghost var op := todo[0];
      ghost var rest := HoldsNext(code, p, todo);
      Opcode(code, p, op, rest);
      if code[p] / 16 == 0 {
        OpcodeKinds(op);
        done := true;
        p := p + 1;
      } else {
        OpcodeKinds(op);
        ghost var listed, later := Listed(op, r, arch), Table(todo[1..], Next(op, r, arch), arch);
        AllPlacedSplit(mem.Length, segs, arch, listed, later);
        RebasedConcat(mem[..], segs, arch, listed, later);
        if 1 <= code[p] / 16 <= 4 {
          ListsNothing(op, r, arch, later);
          p, r := SetRegisters(code, p, r, arch, op, rest);
        } else {
          ok, p, r := Execute(code, p, mem, segs, r, arch, op, rest);
          if !ok {
            return;
          }
        }
        todo := todo[1..];
      }
    }
    if !done {
      HoldsNothing(code, p, todo);
    }
    RebasedNone(mem[..], segs, arch);
    ok := true;
  }

  lemma OpcodeKinds(op: Op)
    requires Encodable(op)
    ensures EncodeOp(op)[0] / 16 == 0 <==> op.Done?
    ensures 1 <= EncodeOp(op)[0] / 16 <= 4
            <==> op.SetType? || op.SetSegmentAndOffset? || op.AddAddr? || op.AddAddrScaled?
  {
  }

  lemma ListsNothing(op: Op, r: Registers, arch: Machine, later: seq<Slot>)
    ensures op.SetType? || op.SetSegmentAndOffset? || op.AddAddr? || op.AddAddrScaled? ==>
              Listed(op, r, arch) + later == later
  {
  }
}
