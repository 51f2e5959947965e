/** Updating code that refers to data at a distance, after text and data were moved by different amounts. */
module CodeUpdate {
  import opened Bytes
  import opened Segments
  import opened CacheLayout
  import opened SharedCache
  import opened LayoutExact
  import opened Rebase
  import LinkEdit

  datatype Outcome = Updated | NotMultipleOf64K | AddressNotFound | InvalidKind

  /** The change of the distance between two segments. */
  function Delta(code: Segment, data: Segment): int {
    (data.newAddress - code.newAddress) - (data.address - code.address)
  }

  /** Whether a segment counts as data: writable, and not named __IMPORT. */
  predicate IsData(segs: seq<Segment>, imports: seq<bool>, i: nat)
    requires |imports| == |segs| && i < |segs|
  {
    segs[i].writable && !imports[i]
  }

  /** The last data segment, if there is one. */
  function LastData(segs: seq<Segment>, imports: seq<bool>, n: nat): (k: nat)
    requires |imports| == |segs| && n <= |segs|
    ensures k <= n && (k < n ==> IsData(segs, imports, k))
    ensures forall i | 0 <= i < n && IsData(segs, imports, i) :: k < n && i <= k
  {
    if n == 0 then 0
    else if IsData(segs, imports, n - 1) then n - 1
    else
      var k := LastData(segs, imports, n - 1);
      if k == n - 1 then n else k
  }

  /** By how much the distances from code to data change. */
  function DataDelta(segs: seq<Segment>, imports: seq<bool>): int
    requires segs != [] && |imports| == |segs|
  {
    var k := LastData(segs, imports, |segs|);
    if k < |segs| then Delta(segs[0], segs[k]) else 0
  }

  /** The last segment named __IMPORT, if there is one. */
  function LastImport(imports: seq<bool>, n: nat): (k: nat)
    requires n <= |imports|
    ensures k <= n && (k < n ==> imports[k])
    ensures forall i | 0 <= i < n && imports[i] :: k < n && i <= k
  {
    if n == 0 then 0
    else if imports[n - 1] then n - 1
    else
      var k := LastImport(imports, n - 1);
      if k == n - 1 then n else k
  }

  /** By how much the distances from code to imports change. */
  function ImportDelta(segs: seq<Segment>, imports: seq<bool>): int
    requires segs != [] && |imports| == |segs|
  {
    var k := LastImport(imports, |imports|);
    if k < |segs| then Delta(segs[0], segs[k]) else 0
  }

  lemma DataIs(segs: seq<Segment>, imports: seq<bool>, i: nat)
    requires |imports| == |segs| && i < |segs|
    ensures IsData(segs, imports, i) <==> segs[i].writable && !imports[i]
  {
  }

  /** The part of adjustCode that finds by how much the distances change: the last data segment decides, and the last
      one named __IMPORT. */
  method CodeToDeltas(segs: seq<Segment>, imports: seq<bool>) returns (codeToDataDelta: int, codeToImportDelta: int)
    requires segs != [] && |imports| == |segs|
    ensures forall k | 0 <= k < |segs| && IsData(segs, imports, k)
            && (forall i | k < i < |segs| :: !IsData(segs, imports, i)) ::
              codeToDataDelta == Delta(segs[0], segs[k])
    ensures (forall i | 0 <= i < |segs| :: !IsData(segs, imports, i)) ==> codeToDataDelta == 0
    ensures codeToDataDelta == DataDelta(segs, imports) && codeToImportDelta == ImportDelta(segs, imports)
  {
    hide IsData, Delta;
    codeToDataDelta, codeToImportDelta := 0, 0;
    for i := 0 to |segs|
      invariant var k := LastData(segs, imports, i);
                codeToDataDelta == if k < i then Delta(segs[0], segs[k]) else 0
      invariant var k := LastImport(imports, i);
                codeToImportDelta == if k < i then Delta(segs[0], segs[k]) else 0
    {
      DataIs(segs, imports, i);
      if imports[i] {
        codeToImportDelta := Delta(segs[0], segs[i]);
      } else if segs[i].writable {
        codeToDataDelta := Delta(segs[0], segs[i]);
      }
    }
  }

  // ----- whether there is anything to update

  /** How far a segment moves, in 64 bits. */
  function SlideOf64(seg: Segment): (d: nat)
    ensures d < TWO64
  {
    (seg.newAddress - seg.address) % TWO64
  }

  predicate Unequal(segs: seq<Segment>)
    requires segs != []
  {
    exists i | 0 <= i < |segs| :: SlideOf64(segs[i]) != SlideOf64(segs[0])
  }

  /** unequalSlides. */
  method UnequalSlides(segs: seq<Segment>) returns (unequal: bool)
    requires segs != []
    ensures unequal <==> Unequal(segs)
  {
    hide SlideOf64;
    for i := 0 to |segs|
      invariant forall k | 0 <= k < i :: SlideOf64(segs[k]) == SlideOf64(segs[0])
    {
      if SlideOf64(segs[i]) != SlideOf64(segs[0]) {
        return true;
      }
    }
    return false;
  }

  /** fSplittingSegments: only then is code updated. */
  predicate Splitting(lib: Dylib)
    requires lib.segs != []
  {
    lib.hasSplitSegInfo && Unequal(lib.segs)
  }

  lemma SameRemainder(a: int, b: int)
    ensures a % TWO64 == b % TWO64 <==> (a - b) % TWO64 == 0
  {
  }

  /** Code is updated if the dylib can be split and the distance of some segment to the first one changes. */
  lemma SplittingExactly(lib: Dylib)
    requires lib.segs != []
    ensures Splitting(lib) <==>
              lib.hasSplitSegInfo && exists i :: 0 <= i < |lib.segs| && Delta(lib.segs[0], lib.segs[i]) % TWO64 != 0
  {
    var segs := lib.segs;
    forall i | 0 <= i < |segs|
      ensures SlideOf64(segs[i]) != SlideOf64(segs[0]) <==> Delta(segs[0], segs[i]) % TWO64 != 0
    {
      SameRemainder(segs[i].newAddress - segs[i].address, segs[0].newAddress - segs[0].address);
      assert Delta(segs[0], segs[i])
          == segs[i].newAddress - segs[i].address - (segs[0].newAddress - segs[0].address);
    }
  }

  // ----- one update

  /** The word an update of some kind leaves. Kinds 1 and 4 are 32-bit pointers, 2 a 64-bit one; kind 3 is a ppc
      instruction whose low half holds the high half of a distance. */
  function NewWord(kind: byte, old_: nat, dataDelta: int, importDelta: int): (w: nat)
    requires 1 <= kind <= 4
    ensures w < if kind == 2 then TWO64 else TWO32
  {
    if kind == 1 then (old_ + dataDelta) % TWO32
    else if kind == 2 then (old_ + dataDelta) % TWO64
    else if kind == 3 then old_ % TWO32 / 0x10000 * 0x10000 + (old_ % 0x10000 + dataDelta / 0x10000) % 0x10000
    else (old_ + importDelta) % TWO32
  }

  function UpdateSize(kind: byte): (n: nat)
    ensures n == 4 || n == 8
  {
    if kind == 2 then 8 else 4
  }

  function UpdateBig(kind: byte, arch: Machine): bool {
    kind == 3 || arch.big
  }

  /** mappedAddressForVMAddress, whose parameter has the pointer width. */
  method MappedAddressForVMAddress(segs: seq<Segment>, vmaddress: u64, word: int) returns (mapped: Option<nat>)
    requires Width(word) && vmaddress < word
    ensures mapped == MappedForVM(segs, vmaddress)
  {
    var i := 0;
    assert segs[0..] == segs;
    while i < |segs|
      invariant i <= |segs| && MappedForVM(segs, vmaddress) == MappedForVM(segs[i..], vmaddress)
    {
      var seg := segs[i];
      assert segs[i..][1..] == segs[i + 1..];
      if seg.address <= vmaddress && vmaddress < (seg.address + seg.size) % TWO64 {
        return Some(vmaddress - seg.address + seg.mappedAddress);
      }
      i := i + 1;
    }
    return None;
  }

  /** The mapped byte an update names: its 64-bit address is narrowed on the way to the lookup. */
  function Target(segs: seq<Segment>, arch: Machine, address: u64): Option<nat>
    requires Sound(arch)
  {
    MappedForVM(segs, address % arch.word)
  }

  /** doCodeUpdate. */
  method DoCodeUpdate(mem: array<byte>, segs: seq<Segment>, arch: Machine, kind: byte, address: u64, dataDelta: int,
                      importDelta: int)
    returns (outcome: Outcome)
    requires Sound(arch)
    requires var at := Target(segs, arch, address); at.Some? ==> at.value + UpdateSize(kind) <= mem.Length
    modifies mem
    ensures outcome == InvalidKind <==> !(1 <= kind <= 4)
    ensures outcome == NotMultipleOf64K <==> kind == 3 && dataDelta % 0x10000 != 0
    ensures outcome == Updated <==>
              1 <= kind <= 4 && (kind == 3 ==> dataDelta % 0x10000 == 0) && Target(segs, arch, address).Some?
    ensures outcome == Updated ==>
              var p, n, big := Target(segs, arch, address).value, UpdateSize(kind), UpdateBig(kind, arch);
              mem[..] == Store(old(mem[..]), p,
                               Put(NewWord(kind, Get(old(mem[p..p + n]), big), dataDelta, importDelta), n, big))
    ensures outcome == Updated ==>
              MappedForVM(segs, address % arch.word).Some?
    ensures outcome == Updated ==>
              var p, n, big := MappedForVM(segs, address % arch.word).value, if kind == 2 then 8 else 4,
                               kind == 3 || arch.big;
              forall v: nat | Spells(old(mem[p..p + n]), v, big) ::
                Spells(mem[p..p + n], NewWord(kind, v, dataDelta, importDelta), big)
    ensures outcome != Updated ==> mem[..] == old(mem[..])
  {
    hide Get, Put, Store, NewWord, MappedForVM, Spells, Pow256;
    if !(1 <= kind <= 4) {
      return InvalidKind;
    }
    if kind == 3 && dataDelta % 0x10000 != 0 {
      return NotMultipleOf64K;
    }
    var at := MappedAddressForVMAddress(segs, address % arch.word, arch.word);
    if at == None {
      return AddressNotFound;
    }
    var p, n, big := at.value, UpdateSize(kind), UpdateBig(kind, arch);
    ghost var m, was := mem[..], mem[p..p + n];
    StoreBytes(mem, p, Put(NewWord(kind, Get(mem[p..p + n], big), dataDelta, importDelta), n, big));
    assert mem[p..p + n] == mem[..][p..p + n] && m[p..p + n] == was;
    WordReplaced(m, p, n, big, NewWord(kind, Get(m[p..p + n], big), dataDelta, importDelta));
    forall v: nat | Spells(was, v, big)
      ensures Get(was, big) == v
    {
      GetSpells(was, v, big);
    }
    return Updated;
  }

  lemma {:induction false} WordReplaced(m: seq<byte>, p: nat, n: nat, big: bool, w: nat)
    requires p + n <= |m| && (n == 4 || n == 8) && w < if n == 8 then TWO64 else TWO32
    ensures Spells(Store(m, p, Put(w, n, big))[p..p + n], w, big)
  {
    WordSizes();
    hide Pow256, Put, Spells;
    PutSpells(w, n, big);
    assert Store(m, p, Put(w, n, big))[p..p + n] == Put(w, n, big);
  }

  // ----- what it means on ppc

  /** The distance a pair of ppc instructions encodes: the high half from one, the signed low half from the other. */
  function Distance(high: int, low: int): int {
    (high % 0x10000 * 0x10000 + low) % TWO32
  }

  /** Updating the high half alone moves the whole distance, because the delta is a multiple of 64K. */
  lemma HighHalfMoves(instruction: nat, low: int, delta: int)
    requires instruction < TWO32 && delta % 0x10000 == 0
    ensures Distance(NewWord(3, instruction, delta, 0), low) == (Distance(instruction, low) + delta) % TWO32
    ensures NewWord(3, instruction, delta, 0) / 0x10000 == instruction / 0x10000
  {
    var h, q := instruction % 0x10000, delta / 0x10000;
    var top := instruction / 0x10000;
    var w := NewWord(3, instruction, delta, 0);
    assert w == top * 0x10000 + (h + q) % 0x10000;
    assert w % 0x10000 == (h + q) % 0x10000;
    var k := (h + q) / 0x10000;
    assert (h + q) % 0x10000 == h + q - k * 0x10000;
    var a, b := h * 0x10000 + low, delta;
    assert (h + q) % 0x10000 * 0x10000 + low == a + b - k * TWO32;
    Wraps(a, b, k);
  }

  lemma Wraps(a: int, b: int, k: int)
    ensures (a + b - k * TWO32) % TWO32 == (a % TWO32 + b) % TWO32
  {
    var j := a / TWO32;
    assert a % TWO32 == a - j * TWO32;
    Multiple(a + b - k * TWO32, a % TWO32 + b, j - k);
  }

  lemma Multiple(x: int, y: int, k: int)
    requires x == y + k * TWO32
    ensures x % TWO32 == y % TWO32
  {
  }

  // ----- what an updated reference designates

  /** The segment a reference of some kind may lead to: the last one named __IMPORT for kind 4, otherwise the last
      writable one of another name. */
  ghost predicate Refers(segs: seq<Segment>, imports: seq<bool>, kind: byte, k: nat)
    requires |imports| == |segs|
  {
    && k < |segs|
    && (if kind == 4 then imports[k] && forall i | k < i < |segs| :: !imports[i]
        else segs[k].writable && !imports[k] && forall i | k < i < |segs| :: segs[i].writable ==> imports[i])
  }

  /** Where code at an address goes. */
  function MovedCode(segs: seq<Segment>, c: int): int
    requires segs != []
  {
    c - segs[0].address + segs[0].newAddress
  }

  lemma {:induction false} ReferredIs(segs: seq<Segment>, imports: seq<bool>, kind: byte, k: nat)
    requires |imports| == |segs| && Refers(segs, imports, kind, k)
    ensures if kind == 4 then LastImport(imports, |imports|) == k else LastData(segs, imports, |segs|) == k
  {
    hide LastData, LastImport;
    if kind != 4 {
      assert IsData(segs, imports, k);
    }
  }

  /** The distance from the code to a byte changes by the delta. */
  lemma {:induction false} DistanceMoves(segs: seq<Segment>, imports: seq<bool>, arch: Machine, kind: byte, c: int,
                                         d: u64)
    requires segs != [] && |imports| == |segs| && Sound(arch) && GoodSegments(segs, arch.word)
    requires SlideAt(segs, d, arch.word).Some? && Refers(segs, imports, kind, Holder(segs, d))
    ensures MovedAddress(segs, arch, d) - MovedCode(segs, c)
            == d - c + if kind == 4 then ImportDelta(segs, imports) else DataDelta(segs, imports)
    ensures MappedForVM(segs, d).Some? && MappedForNew(segs, MovedAddress(segs, arch, d)) == MappedForVM(segs, d)
  {
    hide SlideAt, GoodSegments, MappedForVM, MappedForNew, LastData, LastImport, Holder;
    ReferredIs(segs, imports, kind, Holder(segs, d));
    MovedWithin(segs, arch, d);
    SameByte(segs, arch, d);
  }

  /** A reference as wide as a pointer, from code to a byte of the data segment or, for kind 4, of the import segment:
      if it leads there before the layout, the updated one leads from where the code went to the same byte. `bias` is
      the distance from the code to where the processor counts from. */
  lemma {:induction false} CodeReaches(segs: seq<Segment>, imports: seq<bool>, arch: Machine, kind: byte, c: int,
                                       bias: int, w: nat, d: u64)
    requires segs != [] && |imports| == |segs| && Sound(arch) && GoodSegments(segs, arch.word)
    requires if arch.word == TWO32 then kind == 1 || kind == 4 else kind == 2
    requires SlideAt(segs, d, arch.word).Some? && Refers(segs, imports, kind, Holder(segs, d))
    requires (c + bias + w) % arch.word == d
    ensures var w' := NewWord(kind, w, DataDelta(segs, imports), ImportDelta(segs, imports));
            && MappedForVM(segs, d).Some?
            && MappedForNew(segs, (MovedCode(segs, c) + bias + w') % arch.word) == MappedForVM(segs, d)
  {
    hide SlideAt, GoodSegments, MappedForVM, MappedForNew, DataDelta, ImportDelta, MovedCode, Holder, Refers,
         MovedAddress;
    DistanceMoves(segs, imports, arch, kind, c, d);
    var delta := if kind == 4 then ImportDelta(segs, imports) else DataDelta(segs, imports);
    var m, a := MovedCode(segs, c), MovedAddress(segs, arch, d);
    assert a < arch.word;
    if arch.word == TWO32 {
      Leads(c + bias, m + bias, w, d, a, delta, TWO32);
    } else {
      Leads(c + bias, m + bias, w, d, a, delta, TWO64);
    }
  }

  lemma Leads(c: int, m: int, w: nat, d: nat, a: nat, delta: int, word: int)
    requires Width(word) && (c + w) % word == d && a < word && a - m == d - c + delta
    ensures (m + (w + delta) % word) % word == a
  {
    var j, k := (c + w) / word, (w + delta) / word;
    if word == TWO32 {
      assert m + (w + delta) % TWO32 == a + (j - k) * TWO32;
      Multiple(m + (w + delta) % TWO32, a, j - k);
    } else {
      assert m + (w + delta) % TWO64 == a + (j - k) * TWO64;
      Multiple64(m + (w + delta) % TWO64, a, j - k);
    }
  }

  lemma Multiple64(x: int, y: int, k: int)
    requires x == y + k * TWO64
    ensures x % TWO64 == y % TWO64
  {
  }

  /** A signed 32-bit distance in 64-bit code, as long as it fits afterwards. */
  lemma {:induction false} NearReference(segs: seq<Segment>, imports: seq<bool>, arch: Machine, c: int, bias: int,
                                         w: u32, d: u64)
    requires segs != [] && |imports| == |segs| && Sound(arch) && GoodSegments(segs, arch.word)
    requires SlideAt(segs, d, arch.word).Some? && Refers(segs, imports, 1, Holder(segs, d))
    requires c + bias + LinkEdit.Signed(w) == d
    requires LinkEdit.Near(MovedAddress(segs, arch, d) - MovedCode(segs, c) - bias)
    ensures var w' := NewWord(1, w, DataDelta(segs, imports), ImportDelta(segs, imports));
            && MappedForVM(segs, d).Some?
            && MovedCode(segs, c) + bias + LinkEdit.Signed(w') == MovedAddress(segs, arch, d)
            && MappedForNew(segs, MovedAddress(segs, arch, d)) == MappedForVM(segs, d)
  {
    hide SlideAt, GoodSegments, MappedForVM, MappedForNew, DataDelta, ImportDelta, MovedCode, Holder, Refers,
         MovedAddress;
    DistanceMoves(segs, imports, arch, 1, c, d);
    var delta := DataDelta(segs, imports);
    var far := MovedAddress(segs, arch, d) - MovedCode(segs, c) - bias;
    assert far == LinkEdit.Signed(w) + delta;
    LinkEdit.Narrowing(far);
    Multiple(w + delta, far, if w < 0x8000_0000 then 0 else 1);
  }

  /** On ppc, a pair of instructions of which only the one with the high half is updated. */
  lemma {:induction false} PairReaches(segs: seq<Segment>, imports: seq<bool>, arch: Machine, c: int, bias: int,
                                       instruction: u32, low: int, d: u64)
    requires segs != [] && |imports| == |segs| && arch.word == TWO32 && GoodSegments(segs, arch.word)
    requires DataDelta(segs, imports) % 0x10000 == 0
    requires SlideAt(segs, d, arch.word).Some? && Refers(segs, imports, 3, Holder(segs, d))
    requires (c + bias + Distance(instruction, low)) % TWO32 == d
    ensures var i := NewWord(3, instruction, DataDelta(segs, imports), ImportDelta(segs, imports));
            && MappedForVM(segs, d).Some?
            && MappedForNew(segs, (MovedCode(segs, c) + bias + Distance(i, low)) % TWO32) == MappedForVM(segs, d)
  {
    hide SlideAt, GoodSegments, MappedForVM, MappedForNew, DataDelta, ImportDelta, MovedCode, Holder, Refers,
         MovedAddress;
    DistanceMoves(segs, imports, arch, 3, c, d);
    var delta, a := DataDelta(segs, imports), MovedAddress(segs, arch, d);
    HighHalfMoves(instruction, low, delta);
    assert a < TWO32;
    Leads(c + bias, MovedCode(segs, c) + bias, Distance(instruction, low), d, a, delta, TWO32);
  }

  /** A split dylib with one text segment, in front, and page-aligned segments. */
  ghost predicate TextInFront(segs: seq<Segment>) {
    && segs != [] && KindOf(segs[0], true) == Text
    && (forall i | 0 < i < |segs| :: KindOf(segs[i], true) != Text)
    && forall i | 0 <= i < |segs| :: segs[i].address % PAGE == 0
  }

  lemma PpcDeltaAccepted(segs: seq<Segment>, k: nat)
    requires InStep(segs, |segs|, Ppc, true) && TextInFront(segs) && k < |segs| && KindOf(segs[k], true) == Data
    ensures Delta(segs[0], segs[k]) % 0x10000 == 0
  {
    assert InStepAt(segs, k, true);
    assert LastText(segs, k, true) == 0;
    assert MovesAlike(segs[k], segs[0]);
    assert Delta(segs[0], segs[k]) == segs[k].newAddress - segs[k].address - (segs[0].newAddress - segs[0].address);
  }

  /** The last data segment was placed as data: it is not an executable one by some other name than __IMPORT. */
  predicate DataIsData(segs: seq<Segment>, imports: seq<bool>)
    requires |imports| == |segs|
  {
    var k := LastData(segs, imports, |segs|);
    k < |segs| ==> !segs[k].executable
  }

  lemma InStepAccepted(segs: seq<Segment>, imports: seq<bool>)
    requires InStep(segs, |segs|, Ppc, true) && TextInFront(segs) && |imports| == |segs| && DataIsData(segs, imports)
    ensures DataDelta(segs, imports) % 0x10000 == 0
  {
    var k := LastData(segs, imports, |segs|);
    if k < |segs| {
      PpcDeltaAccepted(segs, k);
    }
  }

  // ----- over everything the builder lays out

  /** The dylib is one of those before a ppc layout, and the layout is an outcome of the three passes. */
  ghost predicate PlacedAmong(lib: Dylib, before: seq<Dylib>, libs: seq<Dylib>, layout: Layout, l: nat) {
    && LaidOut(Ppc, before, libs, layout) && l < |before| == |libs|
    && before[l] == lib && |libs[l].segs| == |lib.segs|
  }

  /** Whatever stands before and after it in the cache, the update accepts the delta of the dylib. */
  ghost predicate AlwaysAccepted(lib: Dylib, imports: seq<bool>)
    requires lib.segs != [] && |imports| == |lib.segs|
  {
    forall before, libs: seq<Dylib>, layout, l: nat | PlacedAmong(lib, before, libs, layout, l) ::
      DataDelta(libs[l].segs, imports) % 0x10000 == 0
  }

  lemma PlacedDylib(lib: Dylib, before: seq<Dylib>, libs: seq<Dylib>, layout: Layout, l: nat)
    requires PlacedAmong(lib, before, libs, layout, l)
    ensures libs[l].hasSplitSegInfo == lib.hasSplitSegInfo
    ensures forall i | 0 <= i < |lib.segs| :: Relocated(lib.segs[i], libs[l].segs[i])
    ensures InStep(libs[l].segs, |libs[l].segs|, Ppc, lib.hasSplitSegInfo)
  {
    hide Relocated, InStep, HeaderPlaced, Assigned, Tight;
    assert SettledLib(Ppc, before[l], libs[l]);
  }

  lemma {:induction false} SameLastData(segs: seq<Segment>, placed: seq<Segment>, imports: seq<bool>)
    requires |imports| == |segs| == |placed| && forall i | 0 <= i < |segs| :: Relocated(segs[i], placed[i])
    ensures LastData(placed, imports, |placed|) == LastData(segs, imports, |segs|)
  {
    assert forall i | 0 <= i < |segs| :: IsData(placed, imports, i) <==> IsData(segs, imports, i);
  }

  lemma TextStaysInFront(segs: seq<Segment>, placed: seq<Segment>)
    requires TextInFront(segs) && |placed| == |segs| && forall i | 0 <= i < |segs| :: Relocated(segs[i], placed[i])
    ensures TextInFront(placed)
  {
    assert forall i | 0 <= i < |segs| :: KindOf(placed[i], true) == KindOf(segs[i], true);
  }

  /** If the last data segment is placed as data, the layout's 64K steps make the delta acceptable. */
  lemma LayoutAccepted(lib: Dylib, imports: seq<bool>, before: seq<Dylib>, libs: seq<Dylib>, layout: Layout, l: nat)
    requires lib.hasSplitSegInfo && TextInFront(lib.segs) && |imports| == |lib.segs| && DataIsData(lib.segs, imports)
    requires PlacedAmong(lib, before, libs, layout, l)
    ensures DataDelta(libs[l].segs, imports) % 0x10000 == 0
  {
    hide InStep, LaidOut, KindOf, LastData;
    PlacedDylib(lib, before, libs, layout, l);
    TextStaysInFront(lib.segs, libs[l].segs);
    SameLastData(lib.segs, libs[l].segs, imports);
    InStepAccepted(libs[l].segs, imports);
  }

  lemma MegabytesAligned(a: nat)
    ensures RoundUp2MB(a) % 0x10000 == 0
  {
    var q := (a + 0x200000 - 1) / 0x200000;
    assert q * 0x200000 == q * 32 * 0x10000;
  }

  /** What 64K leave of the delta if the last data segment is placed with the imports: it depends on the pages of text
      and imports before it. */
  ghost function Remainder(lib: Dylib, imports: seq<bool>, before: seq<Dylib>): nat
    requires lib.segs != [] && |imports| == |lib.segs| && LastData(lib.segs, imports, |lib.segs|) < |lib.segs|
  {
    var k := LastData(lib.segs, imports, |lib.segs|);
    (AllPages(before, Import) + Pages(lib.segs, k, lib.hasSplitSegInfo, Import) - HEADER_SIZE - AllPages(before, Text)
     - (lib.segs[k].address - lib.segs[0].address)) % 0x10000
  }

  lemma ImportPlaced(lib: Dylib, imports: seq<bool>, before: seq<Dylib>, libs: seq<Dylib>, layout: Layout, l: nat)
    requires lib.hasSplitSegInfo && TextInFront(lib.segs) && |imports| == |lib.segs| && !DataIsData(lib.segs, imports)
    requires PlacedAmong(lib, before, libs, layout, l)
    ensures DataDelta(libs[l].segs, imports) % 0x10000 == Remainder(lib, imports, before[..l])
  {
    hide LaidOut, LastData, AllPages, RoundUp2MB, InStep;
    var k, segs := LastData(lib.segs, imports, |lib.segs|), libs[l].segs;
    PlacedDylib(lib, before, libs, layout, l);
    SameLastData(lib.segs, segs, imports);
    PlacedExactly(Ppc, before, libs, layout, l, 0);
    PpcImport(before, libs, layout, l, k);
    MegabytesAligned(Last(layout.data));
    var import_ := RoundUp2MB(Last(layout.data));
    assert segs[0].newAddress == ReadOnlyStart(Ppc) + HEADER_SIZE + AllPages(before[..l], Text);
    var x := AllPages(before[..l], Import)
             + Pages(lib.segs, k, true, Import) - HEADER_SIZE - AllPages(before[..l], Text)
             - (lib.segs[k].address - lib.segs[0].address);
    assert DataDelta(segs, imports) == x + import_ - 0x9000_0000;
    WholeSteps(x, import_ - 0x9000_0000);
  }

  lemma WholeSteps(x: int, y: int)
    requires y % 0x10000 == 0
    ensures (x + y) % 0x10000 == x % 0x10000
  {
    var q := y / 0x10000;
    assert y == q * 0x10000;
  }

  /** A dylib of one import page. */
  const IMPORT_PAGE := Dylib(true, 0, [Segment(0, 0x1000, true, true, false, 0x1000, 0, 0)])

  /** Such a page in front moves the imports on. */
  lemma {:induction false} RemainderMoves(lib: Dylib, imports: seq<bool>)
    requires TextInFront(lib.segs) && |imports| == |lib.segs| && !DataIsData(lib.segs, imports)
    ensures Remainder(lib, imports, []) != Remainder(lib, imports, [IMPORT_PAGE])
  {
    hide Pages, LastData;
    assert [IMPORT_PAGE][..0] == [] && PageAlign(0x1000) == 0x1000;
    assert AllPages([IMPORT_PAGE], Text) == 0 && AllPages([IMPORT_PAGE], Import) == 0x1000 by {
      PageOfImports();
    }
    var k := LastData(lib.segs, imports, |lib.segs|);
    var x := Pages(lib.segs, k, lib.hasSplitSegInfo, Import) - HEADER_SIZE
             - (lib.segs[k].address - lib.segs[0].address);
    assert (x + 0x1000) % 0x10000 != x % 0x10000;
  }

  lemma {:induction false} PageOfImports()
    ensures AllPages([], Text) == 0 && AllPages([], Import) == 0
    ensures AllPages([IMPORT_PAGE], Text) == 0 && AllPages([IMPORT_PAGE], Import) == 0x1000
  {
    var segs := IMPORT_PAGE.segs;
    assert [IMPORT_PAGE][..0] == [] && PageAlign(0x1000) == 0x1000;
    assert Pages(segs, 0, true, Text) == 0 && Pages(segs, 0, true, Import) == 0;
    assert Pages(segs, 1, true, Text) == 0 && Pages(segs, 1, true, Import) == 0x1000;
  }

  lemma FrontSplits(lib: Dylib)
    requires TextInFront(lib.segs) && lib.hasSplitSegInfo
    ensures CanSplit(lib) && CanSplit(IMPORT_PAGE)
  {
    assert KindOf(lib.segs[0], true) == Text;
  }

  lemma {:induction false} RoomOfTwo(lib: Dylib)
    ensures AllRoom([lib]) == Room(lib.segs, |lib.segs|)
    ensures AllRoom([IMPORT_PAGE, lib]) == Room(lib.segs, |lib.segs|) + 0x13000
  {
    hide Room;
    assert [lib][..0] == [] && [IMPORT_PAGE, lib][..1] == [IMPORT_PAGE] && [IMPORT_PAGE][..0] == [];
    assert Room(IMPORT_PAGE.segs, 1) == 0x13000 by { RoomOfPage(); }
  }

  lemma RoomOfPage()
    ensures Room(IMPORT_PAGE.segs, 1) == 0x13000
  {
    assert Room(IMPORT_PAGE.segs, 0) == 0;
  }

  lemma PlacedIs(lib: Dylib, before: seq<Dylib>, libs: seq<Dylib>, layout: Layout, l: nat)
    requires LaidOut(Ppc, before, libs, layout) && l < |before| && before[l] == lib
    ensures PlacedAmong(lib, before, libs, layout, l)
  {
    hide InStep, HeaderPlaced, Assigned, Tight;
    assert SettledLib(Ppc, before[l], libs[l]);
  }

  /** The builder is run on some dylibs. */
  method LayOut(before: seq<Dylib>) returns (libs: seq<Dylib>, ghost layout: Layout)
    requires AllRoom(before) < 0x100_0000_0000_0000 && AllSplittable(before, |before|)
    ensures LaidOut(Ppc, before, libs, layout)
  {
    hide AllRoom, AllSplittable, Settled, Assigned, Tight;
    var ok, e, w, ws, we, le, r;
    ok, libs, e, w, ws, we, le, r, layout := ThreePasses(Ppc, before);
  }

  /**
    * The update accepts the delta of a dylib wherever the builder places it if and only if its last data segment is
    * placed as data. An executable one that is not named __IMPORT is placed with the import segments, by pages, and
    * then one of two runs of the builder, alone or with an import page of another dylib in front, is out of step.
    */
  method AcceptedExactly(lib: Dylib, imports: seq<bool>)
    returns (accepted: bool, ghost before: seq<Dylib>, ghost libs: seq<Dylib>, ghost layout: Layout, ghost l: nat)
    requires lib.hasSplitSegInfo && TextInFront(lib.segs) && |imports| == |lib.segs|
    requires Room(lib.segs, |lib.segs|) + 0x13000 < 0x100_0000_0000_0000
    ensures accepted <==> DataIsData(lib.segs, imports)
    ensures accepted <==> AlwaysAccepted(lib, imports)
    ensures !accepted ==>
              PlacedAmong(lib, before, libs, layout, l) && DataDelta(libs[l].segs, imports) % 0x10000 != 0
  {
    hide LastData, DataDelta, AllRoom, AllSplittable, CanSplit, Room, LaidOut, TextInFront, DataIsData, Remainder;
    before, libs, layout, l := [lib], [], Layout([], [], [], [], []), 0;
    accepted := DataIsData(lib.segs, imports);
    if accepted {
      AcceptedWherever(lib, imports);
    } else {
      RoomOfTwo(lib);
      FrontSplits(lib);
      TwoSplit(lib);
      var alone, behind; ghost var first, second;
      alone, first := LayOut([lib]);
      behind, second := LayOut([IMPORT_PAGE, lib]);
      PlacedIs(lib, [lib], alone, first, 0);
      PlacedIs(lib, [IMPORT_PAGE, lib], behind, second, 1);
      ImportPlaced(lib, imports, [lib], alone, first, 0);
      ImportPlaced(lib, imports, [IMPORT_PAGE, lib], behind, second, 1);
      assert [lib][..0] == [] && [IMPORT_PAGE, lib][..1] == [IMPORT_PAGE];
      RemainderMoves(lib, imports);
      if DataDelta(alone[0].segs, imports) % 0x10000 != 0 {
        libs, layout := alone, first;
      } else {
        before, libs, layout, l := [IMPORT_PAGE, lib], behind, second, 1;
      }
    }
  }

  lemma TwoSplit(lib: Dylib)
    requires CanSplit(lib) && CanSplit(IMPORT_PAGE)
    ensures AllSplittable([lib], 1) && AllSplittable([IMPORT_PAGE, lib], 2)
  {
  }

  lemma AcceptedWherever(lib: Dylib, imports: seq<bool>)
    requires lib.hasSplitSegInfo && TextInFront(lib.segs) && |imports| == |lib.segs| && DataIsData(lib.segs, imports)
    ensures AlwaysAccepted(lib, imports)
  {
    hide LastData, DataDelta, LaidOut, KindOf, DataIsData;
    forall before, libs: seq<Dylib>, layout, l: nat | PlacedAmong(lib, before, libs, layout, l)
      ensures DataDelta(libs[l].segs, imports) % 0x10000 == 0
    {
      LayoutAccepted(lib, imports, before, libs, layout, l);
    }
  }

  /** One page of text and one of executable data. */
  const TEXT_AND_DATA := Dylib(true, 0, [Segment(0, 0x1000, false, true, false, 0x1000, 0, 0),
                                         Segment(0x1000, 0x1000, true, true, false, 0x1000, 0, 0x1000)])

  /** The builder is run on that dylib alone: its delta is rejected. */
  method OutOfStep() returns (libs: seq<Dylib>, codeToDataDelta: int, ghost layout: Layout)
    ensures LaidOut(Ppc, [TEXT_AND_DATA], libs, layout) && |libs| == 1 && |libs[0].segs| == 2
    ensures codeToDataDelta == Delta(libs[0].segs[0], libs[0].segs[1]) && codeToDataDelta % 0x10000 == 0xC000
  {
    hide AllRoom, AllSplittable, CanSplit, Room, LaidOut, LastData, Remainder;
    RoomOfTwo(TEXT_AND_DATA);
    RoomOfPages();
    TextAndData();
    FrontSplits(TEXT_AND_DATA);
    TwoSplit(TEXT_AND_DATA);
    libs, layout := LayOut([TEXT_AND_DATA]);
    PlacedIs(TEXT_AND_DATA, [TEXT_AND_DATA], libs, layout, 0);
    PlacedDylib(TEXT_AND_DATA, [TEXT_AND_DATA], libs, layout, 0);
    SameLastData(TEXT_AND_DATA.segs, libs[0].segs, [false, false]);
    ImportPlaced(TEXT_AND_DATA, [false, false], [TEXT_AND_DATA], libs, layout, 0);
    assert [TEXT_AND_DATA][..0] == [];
    var i;
    codeToDataDelta, i := CodeToDeltas(libs[0].segs, [false, false]);
  }

  lemma RoomOfPages()
    ensures Room(TEXT_AND_DATA.segs, 2) == 0x26000
  {
    assert Room(TEXT_AND_DATA.segs, 0) == 0;
    assert Room(TEXT_AND_DATA.segs, 1) == 0x13000;
  }

  lemma {:induction false} TextAndData()
    ensures TextInFront(TEXT_AND_DATA.segs) && LastData(TEXT_AND_DATA.segs, [false, false], 2) == 1
    ensures !DataIsData(TEXT_AND_DATA.segs, [false, false])
    ensures Remainder(TEXT_AND_DATA, [false, false], []) == 0xC000
  {
    var segs := TEXT_AND_DATA.segs;
    assert LastData(segs, [false, false], 2) == 1;
    assert Pages(segs, 0, true, Import) == 0 && Pages(segs, 1, true, Import) == 0;
    assert AllPages([], Import) == 0 && AllPages([], Text) == 0;
  }

  // ----- all updates of a dylib

  /** The addresses to update, by kind. */
  datatype Update = Update(kind: byte, address: u64)

  /** By how much data and imports move away from the code. */
  datatype Deltas = Deltas(data: int, imports: int)

  /** The word to update lies in the mapped bytes, if the address is found at all. */
  predicate Fits(n: nat, segs: seq<Segment>, arch: Machine, u: Update)
    requires Sound(arch)
  {
    var at := Target(segs, arch, u.address); at.Some? ==> at.value + UpdateSize(u.kind) <= n
  }

  predicate Accepted(segs: seq<Segment>, arch: Machine, ds: Deltas, u: Update)
    requires Sound(arch)
  {
    1 <= u.kind <= 4 && (u.kind == 3 ==> ds.data % 0x10000 == 0) && Target(segs, arch, u.address).Some?
  }

  /** The memory after one update. */
  ghost function UpdatedBy(m: seq<byte>, segs: seq<Segment>, arch: Machine, ds: Deltas, u: Update): (r: seq<byte>)
    requires Sound(arch) && Fits(|m|, segs, arch, u) && Accepted(segs, arch, ds, u)
    ensures |r| == |m|
  {
    var p, n, big := Target(segs, arch, u.address).value, UpdateSize(u.kind), UpdateBig(u.kind, arch);
    Store(m, p, Put(NewWord(u.kind, Get(m[p..p + n], big), ds.data, ds.imports), n, big))
  }

  ghost predicate AllAccepted(n: nat, segs: seq<Segment>, arch: Machine, ds: Deltas, updates: seq<Update>)
    requires Sound(arch)
  {
    forall i | 0 <= i < |updates| :: Fits(n, segs, arch, updates[i]) && Accepted(segs, arch, ds, updates[i])
  }

  /** And after all of them, one after the other. */
  ghost function UpdatedAll(m: seq<byte>, segs: seq<Segment>, arch: Machine, ds: Deltas, updates: seq<Update>)
    : (r: seq<byte>)
    requires Sound(arch) && AllAccepted(|m|, segs, arch, ds, updates)
    ensures |r| == |m|
  {
    if updates == [] then m
    else
      var n := |updates| - 1;
      assert Fits(|m|, segs, arch, updates[n]);
      UpdatedBy(UpdatedAll(m, segs, arch, ds, updates[..n]), segs, arch, ds, updates[n])
  }

  lemma {:induction false} UpdatedNext(m: seq<byte>, segs: seq<Segment>, arch: Machine, ds: Deltas,
                                       updates: seq<Update>, i: nat)
    requires Sound(arch) && i < |updates| && AllAccepted(|m|, segs, arch, ds, updates[..i])
    requires Fits(|m|, segs, arch, updates[i]) && Accepted(segs, arch, ds, updates[i])
    ensures AllAccepted(|m|, segs, arch, ds, updates[..i + 1])
    ensures UpdatedAll(m, segs, arch, ds, updates[..i + 1])
         == UpdatedBy(UpdatedAll(m, segs, arch, ds, updates[..i]), segs, arch, ds, updates[i])
  {
    hide UpdatedBy, Fits, Accepted;
    assert updates[..i + 1][..i] == updates[..i];
  }

  lemma {:induction false} UpdatedNone(m: seq<byte>, segs: seq<Segment>, arch: Machine, ds: Deltas,
                                       updates: seq<Update>)
    requires Sound(arch)
    ensures AllAccepted(|m|, segs, arch, ds, updates[..0]) && UpdatedAll(m, segs, arch, ds, updates[..0]) == m
  {
  }

  /** One update, by its kind and address. */
  method UpdateOne(mem: array<byte>, segs: seq<Segment>, arch: Machine, ds: Deltas, u: Update)
    returns (outcome: Outcome)
    requires Sound(arch) && Fits(mem.Length, segs, arch, u)
    modifies mem
    ensures outcome == Updated <==> Accepted(segs, arch, ds, u)
    ensures outcome == NotMultipleOf64K <==> u.kind == 3 && ds.data % 0x10000 != 0
    ensures outcome == Updated ==> mem[..] == UpdatedBy(old(mem[..]), segs, arch, ds, u)
    ensures outcome != Updated ==> mem[..] == old(mem[..])
  {
    hide Store, Put, Get, NewWord;
    outcome := DoCodeUpdate(mem, segs, arch, u.kind, u.address, ds.data, ds.imports);
  }

  function DeltasOf(segs: seq<Segment>, imports: seq<bool>): Deltas
    requires segs != [] && |imports| == |segs|
  {
    Deltas(DataDelta(segs, imports), ImportDelta(segs, imports))
  }

  /** The loop over the updates: up to the first that fails. */
  method UpdateEach(mem: array<byte>, segs: seq<Segment>, arch: Machine, ds: Deltas, updates: seq<Update>)
    returns (outcome: Outcome)
    requires Sound(arch) && forall i | 0 <= i < |updates| :: Fits(mem.Length, segs, arch, updates[i])
    modifies mem
    ensures outcome == NotMultipleOf64K ==>
              ds.data % 0x10000 != 0 && exists i :: 0 <= i < |updates| && updates[i].kind == 3
    ensures outcome == Updated <==> AllAccepted(mem.Length, segs, arch, ds, updates)
    ensures outcome == Updated ==> mem[..] == UpdatedAll(old(mem[..]), segs, arch, ds, updates)
  {
    hide MappedForVM, UpdatedBy, UpdatedAll, Fits, Accepted;
    ghost var was := mem[..];
    outcome := Updated;
    var i := 0;
    UpdatedNone(was, segs, arch, ds, updates);
    while i < |updates|
      invariant i <= |updates| && outcome == Updated && AllAccepted(|was|, segs, arch, ds, updates[..i])
      invariant mem[..] == UpdatedAll(was, segs, arch, ds, updates[..i])
    {
      outcome := UpdateOne(mem, segs, arch, ds, updates[i]);
      if outcome != Updated {
        return;
      }
      UpdatedNext(was, segs, arch, ds, updates, i);
      i := i + 1;
    }
    assert updates[..i] == updates;
  }

  /** adjustCode: nothing is done unless the dylib is being split; then the updates are made with the deltas found as
      above. On ppc the 64K rejection does not occur if the last data segment was placed as data. */
  method AdjustCode(mem: array<byte>, lib: Dylib, imports: seq<bool>, arch: Machine, updates: seq<Update>)
    returns (outcome: Outcome)
    requires Sound(arch) && lib.segs != [] && |imports| == |lib.segs|
    requires Splitting(lib) ==> forall i | 0 <= i < |updates| :: Fits(mem.Length, lib.segs, arch, updates[i])
    modifies mem
    ensures !Splitting(lib) ==> outcome == Updated && mem[..] == old(mem[..])
    ensures InStep(lib.segs, |lib.segs|, Ppc, true) && TextInFront(lib.segs) && DataIsData(lib.segs, imports) ==>
              outcome != NotMultipleOf64K
    ensures outcome == NotMultipleOf64K ==>
              DataDelta(lib.segs, imports) % 0x10000 != 0 && exists i :: 0 <= i < |updates| && updates[i].kind == 3
    ensures Splitting(lib) ==>
              && (outcome == Updated <==>
                    AllAccepted(mem.Length, lib.segs, arch, DeltasOf(lib.segs, imports), updates))
              && (outcome == Updated ==>
                    mem[..] == UpdatedAll(old(mem[..]), lib.segs, arch, DeltasOf(lib.segs, imports), updates))
  {
    hide MappedForVM, InStep, DataDelta, ImportDelta, UpdatedAll, AllAccepted, Unequal;
    var segs := lib.segs;
    var unequal := UnequalSlides(segs);
    if !(lib.hasSplitSegInfo && unequal) {
      return Updated;
    }
    var codeToDataDelta, codeToImportDelta := CodeToDeltas(segs, imports);
    if InStep(segs, |segs|, Ppc, true) && TextInFront(segs) && DataIsData(segs, imports) {
      InStepAccepted(segs, imports);
    }
    outcome := UpdateEach(mem, segs, arch, Deltas(codeToDataDelta, codeToImportDelta), updates);
  }

  // ----- what the guard skips

  /** Where all segments move alike, both deltas vanish. */
  lemma AlikeDeltas(segs: seq<Segment>, imports: seq<bool>)
    requires segs != [] && |imports| == |segs| && !Unequal(segs)
    ensures DataDelta(segs, imports) % TWO64 == 0 && ImportDelta(segs, imports) % TWO64 == 0
  {
    hide LastData, LastImport;
    forall k | 0 <= k < |segs|
      ensures Delta(segs[0], segs[k]) % TWO64 == 0
    {
      AlikeDelta(segs[0], segs[k]);
    }
  }

  lemma AlikeDelta(a: Segment, b: Segment)
    requires SlideOf64(a) == SlideOf64(b)
    ensures Delta(a, b) % TWO64 == 0
  {
    var i, j := (a.newAddress - a.address) / TWO64, (b.newAddress - b.address) / TWO64;
    assert Delta(a, b) == (j - i) * TWO64;
  }

  lemma WordStays(kind: byte, old_: nat, ds: Deltas)
    requires 1 <= kind <= 4 && old_ < (if kind == 2 then TWO64 else TWO32)
    requires ds.data % TWO64 == 0 && ds.imports % TWO64 == 0
    ensures NewWord(kind, old_, ds.data, ds.imports) == old_
  {
    var p, q := ds.data / TWO64, ds.imports / TWO64;
    if kind == 3 {
      HighStays(old_, ds.data, p);
    } else if kind == 2 {
      Multiple64(old_ + ds.data, old_, p);
    } else {
      Multiple(old_ + ds.data, old_, p * TWO32);
      Multiple(old_ + ds.imports, old_, q * TWO32);
    }
  }

  lemma HighStays(old_: nat, delta: int, p: int)
    requires old_ < TWO32 && delta == p * TWO64
    ensures NewWord(3, old_, delta, 0) == old_
  {
    assert delta / 0x10000 == p * TWO32 * 0x10000;
    HalfStays(old_ % 0x10000, p * TWO32);
  }

  lemma HalfStays(h: nat, k: int)
    requires h < 0x10000
    ensures (h + k * 0x10000) % 0x10000 == h
  {
  }

  /** What is read and written back leaves the memory as it was. */
  lemma UpdateStays(m: seq<byte>, segs: seq<Segment>, arch: Machine, ds: Deltas, u: Update)
    requires Sound(arch) && Fits(|m|, segs, arch, u) && Accepted(segs, arch, ds, u)
    requires ds.data % TWO64 == 0 && ds.imports % TWO64 == 0
    ensures UpdatedBy(m, segs, arch, ds, u) == m
  {
    hide NewWord, Get, Put, Pow256, MappedForVM;
    var p, n, big := Target(segs, arch, u.address).value, UpdateSize(u.kind), UpdateBig(u.kind, arch);
    WordSizes();
    GetBound(m[p..p + n], big);
    WordStays(u.kind, Get(m[p..p + n], big), ds);
    PutGet(m[p..p + n], big);
  }

  lemma {:induction false} UpdatesStay(m: seq<byte>, segs: seq<Segment>, arch: Machine, ds: Deltas,
                                       updates: seq<Update>)
    requires Sound(arch) && AllAccepted(|m|, segs, arch, ds, updates)
    requires ds.data % TWO64 == 0 && ds.imports % TWO64 == 0
    ensures UpdatedAll(m, segs, arch, ds, updates) == m
  {
    if updates != [] {
      hide UpdatedBy, Fits, Accepted;
      var n := |updates| - 1;
      UpdatesStay(m, segs, arch, ds, updates[..n]);
      UpdateStays(m, segs, arch, ds, updates[n]);
    }
  }

  /** The guard loses nothing: where all segments move alike, the updates it skips would leave the memory as it is. */
  lemma {:induction false} SkippedUpdates(m: seq<byte>, segs: seq<Segment>, imports: seq<bool>, arch: Machine,
                                          updates: seq<Update>)
    requires Sound(arch) && segs != [] && |imports| == |segs| && !Unequal(segs)
    requires AllAccepted(|m|, segs, arch, DeltasOf(segs, imports), updates)
    ensures UpdatedAll(m, segs, arch, DeltasOf(segs, imports), updates) == m
  {
    hide UpdatedAll, AllAccepted, Unequal, DataDelta, ImportDelta;
    AlikeDeltas(segs, imports);
    UpdatesStay(m, segs, arch, DeltasOf(segs, imports), updates);
  }
}
