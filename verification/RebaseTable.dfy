/** Writing rebase instructions for a given table of slots, and reading them back. */
module RebaseTable {
  import opened Bytes
  import opened Segments
  import opened Rebase
  import opened RebaseOpcodes
  import Uleb

  // ----- the instructions for a table, from the differences of its offsets

  /** Slots the instructions can name. */
  predicate Nameable(slots: seq<Slot>) {
    forall k | 0 <= k < |slots| :: slots[k].seg < 16 && slots[k].kind < 16 && slots[k].offset < TWO64
  }

  /** The slot lies `d` bytes behind another one. */
  predicate Behind(x: Slot, y: Slot, d: nat) {
    y == Slot(x.seg, x.offset + d, x.kind)
  }

  /** The first `n` slots lie at equal distances. */
  ghost predicate Even(slots: seq<Slot>, n: nat, stride: nat) {
    n <= |slots| && forall i | 0 <= i < n :: Behind(slots[0], slots[i], i * stride)
  }

  /** How many of the first slots do; counts are stored in 32 bits. */
  function RunLength(slots: seq<Slot>, stride: nat, n: nat): (m: nat)
    requires 0 < n <= |slots| && n < TWO32 && Even(slots, n, stride)
    ensures n <= m <= |slots| && m < TWO32 && Even(slots, m, stride)
    decreases |slots| - n
  {
    if n < |slots| && n + 1 < TWO32 && Behind(slots[0], slots[n], n * stride) then RunLength(slots, stride, n + 1)
    else n
  }

  /** A gap of up to fifteen pointers has a short form. */
  function Skip(gap: u64, pointerSize: nat): Op
    requires pointerSize > 0
  {
    if gap % pointerSize == 0 && gap / pointerSize < 16 then AddAddrScaled(gap / pointerSize) else AddAddr(gap)
  }

  /** From the registers to a slot. */
  function Approach(r: Registers, x: Slot, pointerSize: nat): seq<Op>
    requires pointerSize > 0 && x.seg < 16 && x.offset < TWO64
  {
    (if r.kind == x.kind then [] else [SetType(x.kind)])
    + if r.seg == x.seg && r.offset == x.offset then []
      else if r.seg == x.seg && r.offset < x.offset then [Skip(x.offset - r.offset, pointerSize)]
      else [SetSegmentAndOffset(x.seg, x.offset)]
  }

  /** One instruction for the first slots, how many they are, and how far it moves on. */
  datatype Emitted = Emitted(op: Op, count: nat, moved: nat)

  function Emit(slots: seq<Slot>, pointerSize: nat): (e: Emitted)
    requires slots != [] && Nameable(slots) && pointerSize > 0
    ensures 0 < e.count <= |slots|
  {
    assert Even(slots, 1, pointerSize);
    var n := RunLength(slots, pointerSize, 1);
    if n > 1 then Emitted(if n < 16 then DoTimes(n) else DoTimesUleb(n), n, n * pointerSize)
    else if |slots| > 1 && slots[1].seg == slots[0].seg && slots[1].kind == slots[0].kind
            && slots[0].offset + pointerSize <= slots[1].offset then
      var stride := slots[1].offset - slots[0].offset;
      assert Even(slots, 2, stride);
      var m := RunLength(slots, stride, 2);
      if m > 2 && stride - pointerSize < TWO32 then Emitted(DoTimesSkipping(m, stride - pointerSize), m, m * stride)
      else Emitted(DoAddAddr(stride - pointerSize), 1, stride)
    else Emitted(DoTimes(1), 1, pointerSize)
  }

  function Compile(slots: seq<Slot>, r: Registers, pointerSize: nat): (ops: seq<Op>)
    requires Nameable(slots) && pointerSize > 0
    decreases |slots|
  {
    if slots == [] then [Done]
    else
      var x, e := slots[0], Emit(slots, pointerSize);
      Approach(r, x, pointerSize) + [e.op]
      + Compile(slots[e.count..], Registers(x.kind, x.seg, (x.offset + e.moved) % TWO64), pointerSize)
  }

  /** For registers about which nothing is known but the type. */
  function CompileAll(slots: seq<Slot>, pointerSize: nat): (ops: seq<Op>)
    requires Nameable(slots) && pointerSize > 0
  {
    if slots == [] then [Done]
    else
      [SetSegmentAndOffset(slots[0].seg, slots[0].offset)]
      + Compile(slots, Registers(0, slots[0].seg, slots[0].offset), pointerSize)
  }

  // ----- what they list

  lemma {:induction false} TableStep(op: Op, rest: seq<Op>, r: Registers, arch: Machine)
    requires op != Done
    ensures Table([op] + rest, r, arch) == Listed(op, r, arch) + Table(rest, RebaseOpcodes.Next(op, r, arch), arch)
  {
    assert ([op] + rest)[1..] == rest;
  }

  lemma EvenAt(slots: seq<Slot>, n: nat, stride: nat, i: nat)
    requires i < n <= |slots| && Even(slots, n, stride)
    ensures Even(slots, i, stride) && slots[i] == Slot(slots[0].seg, slots[0].offset + i * stride, slots[0].kind)
  {
    assert Behind(slots[0], slots[i], i * stride);
  }

  lemma {:induction false} SpreadEven(slots: seq<Slot>, r: Registers, n: nat, stride: nat)
    requires n <= |slots| && slots != [] && Even(slots, n, stride) && Nameable(slots)
    requires r == Registers(slots[0].kind, slots[0].seg, slots[0].offset)
    ensures Spread(r, n, stride) == slots[..n]
  {
    hide Even, Spread;
    SpreadLast(r, n, stride);
    if n > 0 {
      EvenAt(slots, n, stride, n - 1);
      SpreadEven(slots, r, n - 1, stride);
      assert slots[..n] == slots[..n - 1] + [slots[n - 1]];
    }
  }

  lemma {:induction false} SpreadLast(r: Registers, n: nat, stride: nat)
    ensures Spread(r, n, stride) == if n == 0 then []
                                    else var d := (n - 1) * stride;
                                         Spread(r, n - 1, stride) + [Slot(r.seg, (r.offset + d) % TWO64, r.kind)]
  {
  }

  lemma GapScales(gap: u64, pointerSize: nat)
    requires pointerSize == 4 || pointerSize == 8
    ensures gap % pointerSize == 0 ==> gap / pointerSize * pointerSize == gap
  {
  }

  /** The approach lists nothing and ends at the slot. */
  lemma {:induction false} Approached(r: Registers, x: Slot, arch: Machine, rest: seq<Op>)
    requires x.seg < 16 && x.offset < TWO64
    ensures Table(Approach(r, x, Rebase.PointerSize(arch)) + rest, r, arch)
            == Table(rest, Registers(x.kind, x.seg, x.offset), arch)
  {
    hide Table;
    var ps := Rebase.PointerSize(arch);
    var r1 := r.(kind := x.kind);
    var second := Approach(r1, x, ps);
    if r.seg == x.seg && r.offset < x.offset {
      GapScales(x.offset - r.offset, ps);
      assert (r.offset + (x.offset - r.offset)) % TWO64 == x.offset;
    }
    if second == [] {
      assert second + rest == rest;
    } else {
      assert second + rest == [second[0]] + rest;
      TableStep(second[0], rest, r1, arch);
      Nothing(Table(rest, Registers(x.kind, x.seg, x.offset), arch));
    }
    if r.kind != x.kind {
      assert Approach(r, x, ps) + rest == [SetType(x.kind)] + (second + rest);
      TableStep(SetType(x.kind), second + rest, r, arch);
      Nothing(Table(second + rest, r1, arch));
    }
  }

  lemma Nothing(slots: seq<Slot>)
    ensures [] + slots == slots
  {
  }

  /** The four ways to list the first slots. */
  lemma EmitCases(slots: seq<Slot>, pointerSize: nat)
    requires slots != [] && Nameable(slots) && pointerSize > 0
    ensures var e := Emit(slots, pointerSize);
            match e.op
            case DoTimes(n) => n == e.count && e.moved == n * pointerSize && Even(slots, n, pointerSize)
            case DoTimesUleb(n) => n == e.count < TWO32 && e.moved == n * pointerSize && Even(slots, n, pointerSize)
            case DoTimesSkipping(n, skip) =>
              n == e.count < TWO32 && skip < TWO32 && e.moved == n * (skip + pointerSize)
              && Even(slots, n, skip + pointerSize)
            case DoAddAddr(delta) => e.count == 1 && e.moved == delta + pointerSize && Even(slots, 1, pointerSize)
            case _ => false
  {
    hide RunLength;
    assert Even(slots, 1, pointerSize);
  }

  ghost predicate Did(op: Op, r: Registers, arch: Machine, count: nat, stride: nat, moved: nat) {
    && Listed(op, r, arch) == Spread(r, count, stride)
    && RebaseOpcodes.Next(op, r, arch) == r.(offset := (r.offset + moved) % TWO64)
  }

  /** Counts and gaps below 2^32 are taken as they are. */
  lemma Unnarrowed(op: Op, r: Registers, arch: Machine)
    requires match op
             case DoTimesUleb(n) => n < TWO32
             case DoTimesSkipping(n, skip) => n < TWO32 && skip < TWO32
             case _ => true
    ensures var ps := Rebase.PointerSize(arch);
            match op
            case DoTimes(n) => Did(op, r, arch, n, ps, n * ps)
            case DoTimesUleb(n) => Did(op, r, arch, n, ps, n * ps)
            case DoTimesSkipping(n, skip) => Did(op, r, arch, n, skip + ps, n * (skip + ps))
            case DoAddAddr(delta) => Did(op, r, arch, 1, ps, delta + ps)
            case _ => true
  {
    hide Spread, Rebase.PointerSize;
  }

  /** One instruction lists the slots it was made for and moves on as far as was reckoned. */
  lemma {:induction false} EmittedListed(slots: seq<Slot>, arch: Machine)
    requires slots != [] && Nameable(slots)
    ensures var e, r := Emit(slots, Rebase.PointerSize(arch)), Registers(slots[0].kind, slots[0].seg, slots[0].offset);
            && e.op != Done && Listed(e.op, r, arch) == slots[..e.count]
            && RebaseOpcodes.Next(e.op, r, arch) == r.(offset := (r.offset + e.moved) % TWO64)
  {
    hide Spread, Emit, Even, Listed, RebaseOpcodes.Next;
    var ps := Rebase.PointerSize(arch);
    var e, r := Emit(slots, ps), Registers(slots[0].kind, slots[0].seg, slots[0].offset);
    EmitCases(slots, ps);
    Unnarrowed(e.op, r, arch);
    SpreadEven(slots, r, e.count, if e.op.DoTimesSkipping? then e.op.skip + ps else ps);
  }

  lemma {:induction false} CompileStep(slots: seq<Slot>, r: Registers, pointerSize: nat, rest: seq<Slot>, r': Registers)
    requires slots != [] && Nameable(slots) && pointerSize > 0
    requires rest == slots[Emit(slots, pointerSize).count..]
    requires r' == Registers(slots[0].kind, slots[0].seg,
                             (slots[0].offset + Emit(slots, pointerSize).moved) % TWO64)
    ensures Compile(slots, r, pointerSize)
            == Approach(r, slots[0], pointerSize)
               + ([Emit(slots, pointerSize).op] + Compile(rest, r', pointerSize))
  {
    hide Emit, Approach;
    var a, b, c := Approach(r, slots[0], pointerSize), [Emit(slots, pointerSize).op], Compile(rest, r', pointerSize);
    assert a + b + c == a + (b + c);
  }

  /** The instructions made for a table list exactly that table. */
  lemma {:induction false} CompiledTable(slots: seq<Slot>, r: Registers, arch: Machine)
    requires Nameable(slots)
    ensures Table(Compile(slots, r, Rebase.PointerSize(arch)), r, arch) == slots
    decreases |slots|
  {
    hide Emit, Table, Compile, Nameable;
    if slots == [] {
      NoTable(r, arch);
    } else {
      TableOfMore(slots, r, arch);
      var x, e := slots[0], Emit(slots, Rebase.PointerSize(arch));
      NameableLater(slots, e.count);
      CompiledTable(slots[e.count..], Registers(x.kind, x.seg, (x.offset + e.moved) % TWO64), arch);
      assert slots == slots[..e.count] + slots[e.count..];
    }
  }

  lemma {:induction false} NoTable(r: Registers, arch: Machine)
    ensures Nameable([]) && Table(Compile([], r, Rebase.PointerSize(arch)), r, arch) == []
  {
  }

  lemma {:induction false} TableOfMore(slots: seq<Slot>, r: Registers, arch: Machine)
    requires slots != [] && Nameable(slots)
    ensures var ps := Rebase.PointerSize(arch);
            var x, e := slots[0], Emit(slots, ps);
            var r' := Registers(x.kind, x.seg, (x.offset + e.moved) % TWO64);
            Table(Compile(slots, r, ps), r, arch)
            == slots[..e.count] + Table(Compile(slots[e.count..], r', ps), r', arch)
  {
    hide Table, Emit, Approach, Listed, RebaseOpcodes.Next, Compile, Nameable;
    var ps := Rebase.PointerSize(arch);
    NameableHere(slots);
    var x, e := slots[0], Emit(slots, ps);
    var r1, r2 := Registers(x.kind, x.seg, x.offset), Registers(x.kind, x.seg, (x.offset + e.moved) % TWO64);
    NameableLater(slots, e.count);
    var later := Compile(slots[e.count..], r2, ps);
    CompileStep(slots, r, ps, slots[e.count..], r2);
    Approached(r, x, arch, [e.op] + later);
    EmittedListed(slots, arch);
    TableStep(e.op, later, r1, arch);
  }

  lemma NameableHere(slots: seq<Slot>)
    requires slots != [] && Nameable(slots)
    ensures slots[0].seg < 16 && slots[0].kind < 16 && slots[0].offset < TWO64
  {
  }

  lemma NameableLater(slots: seq<Slot>, n: nat)
    requires n <= |slots| && Nameable(slots)
    ensures Nameable(slots[n..])
  {
  }

  /** Whatever the segment register held before. */
  lemma {:induction false} CompiledAll(slots: seq<Slot>, uninitialized: nat, arch: Machine)
    requires Nameable(slots)
    ensures Table(CompileAll(slots, Rebase.PointerSize(arch)), Registers(0, uninitialized, 0), arch) == slots
  {
    if slots != [] {
      hide Table, Compile;
      var x, ps := slots[0], Rebase.PointerSize(arch);
      var r := Registers(0, x.seg, x.offset);
      TableStep(SetSegmentAndOffset(x.seg, x.offset), Compile(slots, r, ps), Registers(0, uninitialized, 0), arch);
      CompiledTable(slots, r, arch);
      Nothing(slots);
    }
  }

  lemma EmitEncodable(slots: seq<Slot>, pointerSize: nat)
    requires slots != [] && Nameable(slots) && pointerSize > 0
    ensures Encodable(Emit(slots, pointerSize).op)
  {
    hide RunLength;
  }

  lemma ApproachEncodable(r: Registers, x: Slot, pointerSize: nat)
    requires pointerSize > 0 && x.seg < 16 && x.kind < 16 && x.offset < TWO64
    ensures AllEncodable(Approach(r, x, pointerSize))
  {
  }

  lemma {:induction false} CompiledEncodable(slots: seq<Slot>, r: Registers, pointerSize: nat)
    requires Nameable(slots) && pointerSize > 0
    ensures AllEncodable(Compile(slots, r, pointerSize))
    decreases |slots|
  {
    if slots != [] {
      var x, e := slots[0], Emit(slots, pointerSize);
      var r' := Registers(x.kind, x.seg, (x.offset + e.moved) % TWO64);
      CompiledEncodable(slots[e.count..], r', pointerSize);
      EncodableMore(slots, r, pointerSize);
    }
  }

  lemma {:induction false} EncodableMore(slots: seq<Slot>, r: Registers, pointerSize: nat)
    requires slots != [] && Nameable(slots) && pointerSize > 0
    requires var x, e := slots[0], Emit(slots, pointerSize);
             AllEncodable(Compile(slots[e.count..], Registers(x.kind, x.seg, (x.offset + e.moved) % TWO64),
                                  pointerSize))
    ensures AllEncodable(Compile(slots, r, pointerSize))
  {
    hide Emit, Approach, Compile, Encodable;
    var x, e := slots[0], Emit(slots, pointerSize);
    var r' := Registers(x.kind, x.seg, (x.offset + e.moved) % TWO64);
    EmitEncodable(slots, pointerSize);
    ApproachEncodable(r, x, pointerSize);
    CompileStep(slots, r, pointerSize, slots[e.count..], r');
  }

  lemma {:induction false} CompiledEnds(slots: seq<Slot>, r: Registers, pointerSize: nat)
    requires Nameable(slots) && pointerSize > 0
    ensures Done in Compile(slots, r, pointerSize)
    decreases |slots|
  {
    if slots != [] {
      hide Emit, Approach;
      var x, e := slots[0], Emit(slots, pointerSize);
      CompiledEnds(slots[e.count..], Registers(x.kind, x.seg, (x.offset + e.moved) % TWO64), pointerSize);
    }
  }

  lemma {:induction false} CompiledHeld(code: seq<byte>, slots: seq<Slot>, pointerSize: nat, rest: seq<byte>)
    requires Nameable(slots) && pointerSize > 0 && AllEncodable(CompileAll(slots, pointerSize))
    requires code == EncodeAll(CompileAll(slots, pointerSize)) + rest
    ensures RebaseOpcodes.Holds(code, 0, CompileAll(slots, pointerSize))
  {
    hide EncodeAll, Compile, AllEncodable;
    if slots != [] {
      CompiledEnds(slots, Registers(0, slots[0].seg, slots[0].offset), pointerSize);
    }
    assert code[0..] == code;
  }

  lemma CompiledAllEncodable(slots: seq<Slot>, pointerSize: nat)
    requires Nameable(slots) && pointerSize > 0
    ensures AllEncodable(CompileAll(slots, pointerSize))
  {
    if slots != [] {
      CompiledEncodable(slots, Registers(0, slots[0].seg, slots[0].offset), pointerSize);
    }
    hide Compile;
  }

  /** The interpreter on the bytes of these instructions, whatever follows them, rebases exactly the slots they were
      made for. */
  method ApplyCompiled(code: seq<byte>, mem: array<byte>, segs: seq<Segment>, arch: Machine, uninitialized: nat,
                       ghost slots: seq<Slot>, ghost rest: seq<byte>)
    returns (ok: bool)
    requires Sound(arch) && Nameable(slots) && AllPlaced(mem.Length, segs, arch, slots)
    requires AllEncodable(CompileAll(slots, Rebase.PointerSize(arch)))
    requires code == EncodeAll(CompileAll(slots, Rebase.PointerSize(arch))) + rest
    modifies mem
    ensures ok == RebasedAll(old(mem[..]), segs, arch, slots).Some?
    ensures ok ==> Some(mem[..]) == RebasedAll(old(mem[..]), segs, arch, slots)
  {
    hide *;
    SizeOfPointer(arch);
    CompiledHeld(code, slots, Rebase.PointerSize(arch), rest);
    CompiledAll(slots, uninitialized, arch);
    ok := ApplyRebaseInfo(code, mem, segs, arch, uninitialized, CompileAll(slots, Rebase.PointerSize(arch)));
  }

  lemma SizeOfPointer(arch: Machine)
    ensures Rebase.PointerSize(arch) > 0
  {
  }

  lemma {:induction false} OneListed(op: Op, r: Registers, arch: Machine)
    requires op != Done
    ensures Table([op], r, arch) == Listed(op, r, arch)
  {
    hide Listed, RebaseOpcodes.Next;
    assert [op][1..] == [];
    assert Table([], RebaseOpcodes.Next(op, r, arch), arch) == [];
  }

  /** Counts and gaps are narrowed to 32 bits: 2^32 more of either make no difference. */
  lemma {:induction false} CountsNarrowed(n: u32, skip: u32, r: Registers, arch: Machine)
    ensures Table([DoTimesUleb(TWO32 + n)], r, arch) == Table([DoTimesUleb(n)], r, arch)
    ensures Table([DoTimesSkipping(TWO32 + n, TWO32 + skip)], r, arch) == Table([DoTimesSkipping(n, skip)], r, arch)
    ensures |Table([DoTimesUleb(n)], r, arch)| == n && |Table([DoTimesSkipping(n, skip)], r, arch)| == n
  {
    hide Table, Spread;
    OneListed(DoTimesUleb(TWO32 + n), r, arch);
    OneListed(DoTimesUleb(n), r, arch);
    OneListed(DoTimesSkipping(TWO32 + n, TWO32 + skip), r, arch);
    OneListed(DoTimesSkipping(n, skip), r, arch);
  }

  // ----- every instruction, byte by byte

  /** A stream with every instruction, and the slots it stands for on a 64-bit machine. */
  const STREAM: seq<byte> :=
    [0x11, 0x21, 0x00, 0x41, 0x51, 0x30, 0x04, 0x60, 0x02, 0x70, 0x04, 0x80, 0x02, 0x08, 0x00]

  const STREAM_OPS :=
    [SetType(1), SetSegmentAndOffset(1, 0), AddAddrScaled(1), DoTimes(1), AddAddr(4), DoTimesUleb(2), DoAddAddr(4),
     DoTimesSkipping(2, 8), Done]

  const STREAM_SLOTS :=
    [Slot(1, 8, 1), Slot(1, 20, 1), Slot(1, 28, 1), Slot(1, 36, 1), Slot(1, 48, 1), Slot(1, 64, 1)]

  lemma {:induction false} Prepend(op: Op, head: seq<byte>, ops: seq<Op>, code: seq<byte>)
    requires Encodable(op) && EncodeOp(op) == head && AllEncodable(ops) && EncodeAll(ops) == code
    ensures AllEncodable([op] + ops) && EncodeAll([op] + ops) == head + code
  {
    hide EncodeOp;
    assert ([op] + ops)[1..] == ops;
  }

  lemma StreamHeads()
    ensures EncodeOp(SetType(1)) == [0x11] && EncodeOp(SetSegmentAndOffset(1, 0)) == [0x21, 0x00]
    ensures EncodeOp(AddAddrScaled(1)) == [0x41] && EncodeOp(DoTimes(1)) == [0x51]
    ensures EncodeOp(AddAddr(4)) == [0x30, 0x04] && EncodeOp(DoTimesUleb(2)) == [0x60, 0x02]
    ensures EncodeOp(DoAddAddr(4)) == [0x70, 0x04] && EncodeOp(DoTimesSkipping(2, 8)) == [0x80, 0x02, 0x08]
    ensures EncodeOp(Done) == [0x00]
  {
    SmallOperands();
    hide Uleb.Encode;
  }

  lemma SmallOperands()
    ensures Uleb.Encode(0) == [0] && Uleb.Encode(2) == [2] && Uleb.Encode(4) == [4] && Uleb.Encode(8) == [8]
  {
  }

  lemma NoCode()
    ensures AllEncodable([]) && EncodeAll([]) == []
  {
  }

  /** The last four instructions. */
  lemma {:induction false} StreamBytesEnd(ops: seq<Op>, code: seq<byte>)
    requires ops == [DoTimesUleb(2), DoAddAddr(4), DoTimesSkipping(2, 8), Done]
    requires code == [0x60, 0x02, 0x70, 0x04, 0x80, 0x02, 0x08, 0x00]
    ensures AllEncodable(ops) && EncodeAll(ops) == code
  {
    hide EncodeOp, EncodeAll, AllEncodable;
    StreamHeads();
    NoCode();
    Prepend(Done, [0x00], [], []);
    assert [Done] + [] == ops[3..] && [0x00] + [] == code[7..];
    Prepend(DoTimesSkipping(2, 8), [0x80, 0x02, 0x08], ops[3..], code[7..]);
    assert [DoTimesSkipping(2, 8)] + ops[3..] == ops[2..] && [0x80, 0x02, 0x08] + code[7..] == code[4..];
    Prepend(DoAddAddr(4), [0x70, 0x04], ops[2..], code[4..]);
    assert [DoAddAddr(4)] + ops[2..] == ops[1..] && [0x70, 0x04] + code[4..] == code[2..];
    Prepend(DoTimesUleb(2), [0x60, 0x02], ops[1..], code[2..]);
    assert [DoTimesUleb(2)] + ops[1..] == ops && [0x60, 0x02] + code[2..] == code;
  }

  lemma {:induction false} StreamBytes()
    ensures AllEncodable(STREAM_OPS) && EncodeAll(STREAM_OPS) == STREAM
  {
    hide EncodeOp, EncodeAll, AllEncodable;
    var ops, code := STREAM_OPS, STREAM;
    StreamHeads();
    StreamBytesEnd(ops[5..], code[7..]);
    Prepend(AddAddr(4), [0x30, 0x04], ops[5..], code[7..]);
    assert [AddAddr(4)] + ops[5..] == ops[4..] && [0x30, 0x04] + code[7..] == code[5..];
    Prepend(DoTimes(1), [0x51], ops[4..], code[5..]);
    assert [DoTimes(1)] + ops[4..] == ops[3..] && [0x51] + code[5..] == code[4..];
    Prepend(AddAddrScaled(1), [0x41], ops[3..], code[4..]);
    assert [AddAddrScaled(1)] + ops[3..] == ops[2..] && [0x41] + code[4..] == code[3..];
    Prepend(SetSegmentAndOffset(1, 0), [0x21, 0x00], ops[2..], code[3..]);
    assert [SetSegmentAndOffset(1, 0)] + ops[2..] == ops[1..] && [0x21, 0x00] + code[3..] == code[1..];
    Prepend(SetType(1), [0x11], ops[1..], code[1..]);
    assert [SetType(1)] + ops[1..] == ops && [0x11] + code[1..] == code;
  }

  lemma {:induction false} TablePrepend(op: Op, ops: seq<Op>, r: Registers, r': Registers, arch: Machine,
                                        listed: seq<Slot>, slots: seq<Slot>)
    requires op != Done && Listed(op, r, arch) == listed && RebaseOpcodes.Next(op, r, arch) == r'
    requires Table(ops, r', arch) == slots
    ensures Table([op] + ops, r, arch) == listed + slots
  {
    hide Listed, RebaseOpcodes.Next;
    TableStep(op, ops, r, arch);
  }

  lemma {:induction false} SpreadSmall(r: Registers, stride: nat)
    ensures Spread(r, 1, stride) == [Slot(r.seg, r.offset, r.kind)]
    ensures Spread(r, 2, stride)
            == [Slot(r.seg, r.offset, r.kind), Slot(r.seg, (r.offset + stride) % TWO64, r.kind)]
  {
    assert Spread(r, 0, stride) == [];
    assert Spread(r, 1, stride) == [Slot(r.seg, r.offset, r.kind)];
  }

  /** The last three instructions. */
  lemma {:induction false} StreamEnd(big: bool)
    ensures Table([DoTimesUleb(2), DoAddAddr(4), DoTimesSkipping(2, 8), Done], Registers(1, 1, 20), Machine(TWO64, big))
            == [Slot(1, 20, 1), Slot(1, 28, 1), Slot(1, 36, 1), Slot(1, 48, 1), Slot(1, 64, 1)]
  {
    hide Spread;
    var arch, r5, r6, r7 := Machine(TWO64, big), Registers(1, 1, 20), Registers(1, 1, 36), Registers(1, 1, 48);
    SpreadSmall(r5, 8);
    SpreadSmall(r6, 8);
    SpreadSmall(r7, 16);
    assert Table([Done], Registers(1, 1, 80), arch) == [];
    hide Table;
    TablePrepend(DoTimesSkipping(2, 8), [Done], r7, Registers(1, 1, 80), arch, [Slot(1, 48, 1), Slot(1, 64, 1)], []);
    var ops7 := [DoTimesSkipping(2, 8), Done];
    assert [DoTimesSkipping(2, 8)] + [Done] == ops7;
    TablePrepend(DoAddAddr(4), ops7, r6, r7, arch, [Slot(1, 36, 1)], [Slot(1, 48, 1), Slot(1, 64, 1)]);
    var ops6 := [DoAddAddr(4)] + ops7;
    TablePrepend(DoTimesUleb(2), ops6, r5, r6, arch, [Slot(1, 20, 1), Slot(1, 28, 1)],
                 [Slot(1, 36, 1)] + [Slot(1, 48, 1), Slot(1, 64, 1)]);
    assert [DoTimesUleb(2)] + ops6 == [DoTimesUleb(2), DoAddAddr(4), DoTimesSkipping(2, 8), Done];
  }

  lemma {:induction false} StreamTable(uninitialized: nat, big: bool)
    ensures Table(STREAM_OPS, Registers(0, uninitialized, 0), Machine(TWO64, big)) == STREAM_SLOTS
  {
    hide Spread, Table;
    var arch, r2, r3, r4 := Machine(TWO64, big), Registers(1, 1, 0), Registers(1, 1, 8), Registers(1, 1, 16);
    var ops5 := [DoTimesUleb(2), DoAddAddr(4), DoTimesSkipping(2, 8), Done];
    var slots5 := [Slot(1, 20, 1), Slot(1, 28, 1), Slot(1, 36, 1), Slot(1, 48, 1), Slot(1, 64, 1)];
    StreamEnd(big);
    SpreadSmall(r3, 8);
    Nothing(slots5);
    TablePrepend(AddAddr(4), ops5, r4, Registers(1, 1, 20), arch, [], slots5);
    TablePrepend(DoTimes(1), [AddAddr(4)] + ops5, r3, r4, arch, [Slot(1, 8, 1)], slots5);
    var ops3 := [DoTimes(1)] + ([AddAddr(4)] + ops5);
    Nothing(STREAM_SLOTS);
    assert [Slot(1, 8, 1)] + slots5 == STREAM_SLOTS;
    TablePrepend(AddAddrScaled(1), ops3, r2, r3, arch, [], STREAM_SLOTS);
    var ops2 := [AddAddrScaled(1)] + ops3;
    TablePrepend(SetSegmentAndOffset(1, 0), ops2, Registers(1, uninitialized, 0), r2, arch, [], STREAM_SLOTS);
    var ops1 := [SetSegmentAndOffset(1, 0)] + ops2;
    TablePrepend(SetType(1), ops1, Registers(0, uninitialized, 0), Registers(1, uninitialized, 0), arch, [],
                 STREAM_SLOTS);
    assert [SetType(1)] + ops1 == STREAM_OPS;
  }

  /** The interpreter on these bytes. */
  method EveryInstruction(mem: array<byte>, segs: seq<Segment>, uninitialized: nat, big: bool) returns (ok: bool)
    requires AllPlaced(mem.Length, segs, Machine(TWO64, big), STREAM_SLOTS)
    modifies mem
    ensures ok == RebasedAll(old(mem[..]), segs, Machine(TWO64, big), STREAM_SLOTS).Some?
    ensures ok ==> Some(mem[..]) == RebasedAll(old(mem[..]), segs, Machine(TWO64, big), STREAM_SLOTS)
  {
    hide RebasedAll, AllPlaced, Table, EncodeAll;
    StreamBytes();
    StreamTable(uninitialized, big);
    assert STREAM[0..] == EncodeAll(STREAM_OPS) + [];
    ok := ApplyRebaseInfo(STREAM, mem, segs, Machine(TWO64, big), uninitialized, STREAM_OPS);
  }
}
