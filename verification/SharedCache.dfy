/** The layout of the whole cache: the three passes, the mappings, the file offset of an address. */
module SharedCache {
  import opened Bytes
  import opened Segments
  import opened CacheLayout

  // ----- the segments of one kind, over all dylibs

  ghost predicate LibStacked(lib: Dylib, kind: Kind, lo: nat, hi: nat) {
    Stacked(lib.segs, |lib.segs|, lib.hasSplitSegInfo, kind, lo, hi)
  }

  /** Dylib after dylib, the segments of one kind lie between consecutive marks. */
  ghost predicate Tower(libs: seq<Dylib>, kind: Kind, marks: seq<nat>) {
    |marks| == |libs| + 1 && forall l | 0 <= l < |libs| :: LibStacked(libs[l], kind, marks[l], marks[l + 1])
  }

  function First(marks: seq<nat>): nat
    requires marks != []
  {
    marks[0]
  }

  function AllPages(libs: seq<Dylib>, kind: Kind): nat {
    if libs == [] then 0
    else
      var lib := libs[|libs| - 1];
      AllPages(libs[..|libs| - 1], kind) + Pages(lib.segs, |lib.segs|, lib.hasSplitSegInfo, kind)
  }

  function AllRoom(libs: seq<Dylib>): nat {
    if libs == [] then 0
    else AllRoom(libs[..|libs| - 1]) + Room(libs[|libs| - 1].segs, |libs[|libs| - 1].segs|)
  }

  lemma {:induction false} TowerMonotone(libs: seq<Dylib>, kind: Kind, marks: seq<nat>, l: nat, m: nat)
    requires Tower(libs, kind, marks) && l <= m <= |libs|
    ensures marks[l] <= marks[m]
    decreases m - l
  {
    if l < m {
      TowerMonotone(libs, kind, marks, l, m - 1);
      assert LibStacked(libs[m - 1], kind, marks[m - 1], marks[m]);
    }
  }

  lemma TowerNext(libs: seq<Dylib>, kind: Kind, marks: seq<nat>, lib: Dylib, hi: nat)
    requires Tower(libs, kind, marks) && LibStacked(lib, kind, Last(marks), hi)
    ensures Tower(libs + [lib], kind, marks + [hi])
  {
    hide LibStacked;
    var libs', marks' := libs + [lib], marks + [hi];
    forall l | 0 <= l < |libs'|
      ensures LibStacked(libs'[l], kind, marks'[l], marks'[l + 1])
    {
      if l < |libs| {
        assert libs'[l] == libs[l];
      }
    }
  }

  lemma TowerKept(a: seq<Dylib>, b: seq<Dylib>, kinds: set<Kind>, kind: Kind, marks: seq<nat>)
    requires Tower(a, kind, marks) && |a| == |b| && kind !in kinds
    requires forall l | 0 <= l < |a| :: OnlyMoved(a[l], b[l], kinds) && ResetSizes(a[l])
    ensures Tower(b, kind, marks)
  {
    forall l | 0 <= l < |a|
      ensures LibStacked(b[l], kind, marks[l], marks[l + 1])
    {
      assert LibStacked(a[l], kind, marks[l], marks[l + 1]);
      StackedKept(a[l], b[l], kinds, kind, marks[l], marks[l + 1]);
    }
  }

  // ----- the mappings

  datatype Mapping = Mapping(address: nat, size: nat, fileOffset: nat)

  predicate Maps(m: Mapping, a: nat) {
    m.address <= a < m.address + m.size
  }

  /** The first mapping that holds an address. */
  function MappingOf(ms: seq<Mapping>, a: nat): (j: nat)
    ensures j <= |ms| && (forall i | 0 <= i < j :: !Maps(ms[i], a)) && (j < |ms| ==> Maps(ms[j], a))
  {
    if ms == [] || Maps(ms[0], a) then 0 else 1 + MappingOf(ms[1..], a)
  }

  /** Where the bytes of an address lie in the cache file. */
  function FileOffset(ms: seq<Mapping>, a: nat): Option<nat> {
    var j := MappingOf(ms, a);
    if j < |ms| then Some(ms[j].fileOffset + a - ms[j].address) else None
  }

  /** The reader's lookup in the mappings of a cache file; None stands for its null pointer. */
  method MappedAddress(mappings: seq<Mapping>, addr: nat) returns (offset: Option<nat>)
    ensures offset == FileOffset(mappings, addr)
  {
    for i := 0 to |mappings|
      invariant forall k | 0 <= k < i :: !Maps(mappings[k], addr)
    {
      if mappings[i].address <= addr && addr < mappings[i].address + mappings[i].size {
        return Some(mappings[i].fileOffset + addr - mappings[i].address);
      }
    }
    return None;
  }

  function RoundUp2MB(a: nat): (r: nat)
    ensures a <= r < a + 0x200000 && r % 0x200000 == 0 && r % PAGE == 0
  {
    var q := (a + 0x200000 - 1) / 0x200000;
    assert q * 0x200000 == q * 512 * PAGE;
    q * 0x200000
  }

  /** Where each region of the cache begins and ends. */
  datatype Layout = Layout(text: seq<nat>, data: seq<nat>, import_: seq<nat>, readOnly: seq<nat>, linkEdit: seq<nat>)

  function MarksOf(layout: Layout, kind: Kind): seq<nat> {
    match kind
    case Text => layout.text
    case Data => layout.data
    case Import => layout.import_
    case ReadOnly => layout.readOnly
    case LinkEdit => layout.linkEdit
  }

  ghost predicate Towers(libs: seq<Dylib>, layout: Layout) {
    && Tower(libs, Text, layout.text) && Tower(libs, Data, layout.data) && Tower(libs, Import, layout.import_)
    && Tower(libs, ReadOnly, layout.readOnly) && Tower(libs, LinkEdit, layout.linkEdit)
  }

  lemma TowersHave(libs: seq<Dylib>, layout: Layout, kind: Kind)
    requires Towers(libs, layout)
    ensures Tower(libs, kind, MarksOf(layout, kind))
  {
  }

  predicate Ordered(arch: Arch, layout: Layout) {
    && layout.text != [] && layout.data != [] && layout.import_ != [] && layout.readOnly != [] && layout.linkEdit != []
    && ReadOnlyStart(arch) + HEADER_SIZE <= Last(layout.text) <= Last(layout.readOnly) <= Last(layout.linkEdit)
    && WritableStart(arch) <= Last(layout.data) <= First(layout.import_) <= Last(layout.import_)
  }

  /** Every kind in its region, the regions one behind the other. */
  ghost predicate Assigned(arch: Arch, libs: seq<Dylib>, layout: Layout) {
    && Towers(libs, layout) && Ordered(arch, layout)
    && First(layout.text) == ReadOnlyStart(arch) + HEADER_SIZE
    && First(layout.readOnly) == Last(layout.text) && First(layout.linkEdit) == Last(layout.readOnly)
    && First(layout.data) == WritableStart(arch) && First(layout.import_) == RoundUp2MB(Last(layout.data))
    && (forall l | 0 <= l < |libs| :: ResetSizes(libs[l]))
  }

  /** No page is wasted, except for the 64K steps of ppc. */
  ghost predicate Tight(arch: Arch, libs: seq<Dylib>, layout: Layout)
    requires Towers(libs, layout)
  {
    && Last(layout.text) == First(layout.text) + AllPages(libs, Text)
    && (arch != Ppc ==> Last(layout.data) == First(layout.data) + AllPages(libs, Data))
    && Last(layout.import_) == First(layout.import_) + AllPages(libs, Import)
    && Last(layout.readOnly) == First(layout.readOnly) + AllPages(libs, ReadOnly)
    && Last(layout.linkEdit) == First(layout.linkEdit) + AllPages(libs, LinkEdit)
  }

  /** The mappings of a cache with these regions: text with the header before it, data, imports if there are any, and
      last the read-only data. Without any text the cache is empty, and only its header is mapped. */
  function LayoutMappings(arch: Arch, layout: Layout): seq<Mapping>
    requires Ordered(arch, layout)
  {
    if Last(layout.text) > ReadOnlyStart(arch) + HEADER_SIZE then
      var text := Mapping(ReadOnlyStart(arch), Last(layout.text) - ReadOnlyStart(arch), 0);
      var data := Mapping(WritableStart(arch), Last(layout.data) - WritableStart(arch), text.size);
      var importSize := Last(layout.import_) - First(layout.import_);
      var imports := if importSize > 0 then [Mapping(First(layout.import_), importSize, text.size + data.size)] else [];
      var readOnly := Mapping(Last(layout.text), Last(layout.linkEdit) - Last(layout.text),
                              text.size + data.size + importSize);
      [text, data] + imports + [readOnly]
    else [Mapping(WritableStart(arch), HEADER_SIZE, 0)]
  }

  /** The mappings tile the file: the first begins at 0 and each begins where the one before it ends. */
  ghost predicate TileFile(ms: seq<Mapping>) {
    && (ms != [] ==> ms[0].fileOffset == 0)
    && forall i, j | 0 <= i && j == i + 1 < |ms| :: ms[j].fileOffset == ms[i].fileOffset + ms[i].size
  }

  lemma MappingsTile(arch: Arch, layout: Layout)
    requires Ordered(arch, layout)
    ensures TileFile(LayoutMappings(arch, layout)) && LayoutMappings(arch, layout) != []
  {
    hide ReadOnlyStart, WritableStart;
  }

  // ----- the three passes over all dylibs

  ghost predicate AllMoved(a: seq<Dylib>, b: seq<Dylib>, n: nat, kinds: set<Kind>) {
    n <= |a| == |b| && forall l | 0 <= l < n :: OnlyMoved(a[l], b[l], kinds) && ResetSizes(b[l])
  }

  predicate CanSplit(lib: Dylib) {
    Splittable(lib.segs, |lib.segs|, lib.hasSplitSegInfo)
  }

  predicate AllSplittable(libs: seq<Dylib>, n: nat)
    requires n <= |libs|
  {
    forall l | 0 <= l < n :: CanSplit(libs[l])
  }

  /** On ppc, every data segment moved like the text before it, up to multiples of 64K; and where the headers are. */
  ghost predicate AllInStep(arch: Arch, a: seq<Dylib>, b: seq<Dylib>, n: nat)
    requires n <= |a| == |b|
  {
    forall l | 0 <= l < n :: InStep(b[l].segs, |b[l].segs|, arch, b[l].hasSplitSegInfo) && HeaderPlaced(a[l], b[l])
  }

  ghost predicate HeaderPlaced(a: Dylib, b: Dylib) {
    |a.segs| == |b.segs| && HeaderAt(a, b.segs, |a.segs|, b.address)
  }

  /** What the first pass has established when `n` dylibs are through it. */
  ghost predicate FirstDone(arch: Arch, a: seq<Dylib>, b: seq<Dylib>, n: nat, text: seq<nat>, data: seq<nat>) {
    && n <= |a| == |b| && b[n..] == a[n..]
    && AllMoved(a[..n], b[..n], n, {Text, Data}) && AllInStep(arch, a[..n], b[..n], n)
    && Tower(b[..n], Text, text) && Tower(b[..n], Data, data) && text != [] && data != []
    && First(text) == ReadOnlyStart(arch) + HEADER_SIZE && First(data) == WritableStart(arch)
    && Last(text) % PAGE == 0 && Last(data) % PAGE == 0 && First(text) <= Last(text)
    && Last(text) + Last(data) <= First(text) + First(data) + AllRoom(a[..n])
    && Last(text) == First(text) + AllPages(a[..n], Text)
    && (arch != Ppc ==> Last(data) == First(data) + AllPages(a[..n], Data))
  }

  lemma PlacedMoved(arch: Arch, lib: Dylib, placed: Dylib, e0: nat, w0: nat, e: nat, w: nat)
    requires placed.hasSplitSegInfo == lib.hasSplitSegInfo && |placed.segs| == |lib.segs|
    requires Placing(arch, lib, placed.segs, |lib.segs|, e0, w0, e, w)
    ensures OnlyMoved(lib, placed, {Text, Data}) && ResetSizes(placed)
    ensures LibStacked(placed, Text, e0, e) && LibStacked(placed, Data, w0, w)
    ensures e % PAGE == 0 && w % PAGE == 0 && e0 <= e && e + w <= e0 + w0 + Room(lib.segs, |lib.segs|)
    ensures e == e0 + Pages(lib.segs, |lib.segs|, lib.hasSplitSegInfo, Text)
    ensures arch != Ppc ==> w == w0 + Pages(lib.segs, |lib.segs|, lib.hasSplitSegInfo, Data)
    ensures InStep(placed.segs, |placed.segs|, arch, placed.hasSplitSegInfo)
  {
    hide PageAlign, InStep, Room, Pages;
    forall i | 0 <= i < |lib.segs|
      ensures Relocated(lib.segs[i], placed.segs[i]) && placed.segs[i].size == placed.segs[i].origSize
      ensures KindOf(lib.segs[i], lib.hasSplitSegInfo) !in {Text, Data} ==>
                placed.segs[i].newAddress == lib.segs[i].newAddress
    {
      assert CacheLayout.Reassigned(lib.segs[i], placed.segs[i], lib.hasSplitSegInfo);
    }
  }

  lemma PrefixNext<T>(a: seq<T>, n: nat, x: T)
    requires n < |a|
    ensures a[n := x][..n + 1] == a[..n] + [x] && a[n := x][n + 1..] == a[n + 1..]
    ensures a[..n + 1] == a[..n] + [a[n]] && a[n] == a[n..][0] && a[n + 1..] == a[n..][1..]
  {
  }

  lemma {:induction false} SumsNext(libs: seq<Dylib>, lib: Dylib, kind: Kind)
    ensures AllPages(libs + [lib], kind)
            == AllPages(libs, kind) + Pages(lib.segs, |lib.segs|, lib.hasSplitSegInfo, kind)
    ensures AllRoom(libs + [lib]) == AllRoom(libs) + Room(lib.segs, |lib.segs|)
  {
    assert (libs + [lib])[..|libs|] == libs;
  }

  lemma AllMovedNext(a: seq<Dylib>, b: seq<Dylib>, x: Dylib, y: Dylib, kinds: set<Kind>)
    requires AllMoved(a, b, |a|, kinds) && OnlyMoved(x, y, kinds) && ResetSizes(y)
    ensures AllMoved(a + [x], b + [y], |a| + 1, kinds)
  {
    hide OnlyMoved, ResetSizes;
  }

  lemma AllInStepNext(arch: Arch, a: seq<Dylib>, b: seq<Dylib>, x: Dylib, y: Dylib)
    requires |a| == |b| && AllInStep(arch, a, b, |a|)
    requires InStep(y.segs, |y.segs|, arch, y.hasSplitSegInfo) && HeaderPlaced(x, y)
    ensures AllInStep(arch, a + [x], b + [y], |a| + 1)
  {
    hide InStep, HeaderPlaced;
  }

  lemma FirstNext(arch: Arch, a: seq<Dylib>, b: seq<Dylib>, n: nat, text: seq<nat>, data: seq<nat>, placed: Dylib,
                  e: nat, w: nat)
    requires FirstDone(arch, a, b, n, text, data) && n < |a|
    requires placed.hasSplitSegInfo == a[n].hasSplitSegInfo && HeaderPlaced(a[n], placed)
    requires Placing(arch, a[n], placed.segs, |a[n].segs|, Last(text), Last(data), e, w)
    ensures FirstDone(arch, a, b[n := placed], n + 1, text + [e], data + [w])
  {
    hide Placing, Tower, AllPages, AllRoom, LibStacked, OnlyMoved, ResetSizes, AllInStep, AllMoved, InStep, Room, Pages,
         HeaderPlaced;
    PrefixNext(a, n, a[n]);
    PrefixNext(b, n, placed);
    UnplaceHeader(a[n], placed);
    PlacedMoved(arch, a[n], placed, Last(text), Last(data), e, w);
    AllMovedNext(a[..n], b[..n], a[n], placed, {Text, Data});
    AllInStepNext(arch, a[..n], b[..n], a[n], placed);
    TowerNext(b[..n], Text, text, placed, e);
    TowerNext(b[..n], Data, data, placed, w);
    SumsNext(a[..n], a[n], Text);
    SumsNext(a[..n], a[n], Data);
  }

  lemma UnplaceHeader(a: Dylib, b: Dylib)
    requires HeaderPlaced(a, b)
    ensures |a.segs| == |b.segs|
  {
  }

  lemma {:induction false} AllRoomGrows(libs: seq<Dylib>, n: nat)
    requires n < |libs|
    ensures AllRoom(libs[..n]) + Room(libs[n].segs, |libs[n].segs|) <= AllRoom(libs)
    decreases |libs|
  {
    var k := |libs| - 1;
    if n < k {
      AllRoomGrows(libs[..k], n);
      assert libs[..k][..n] == libs[..n];
    }
  }

  lemma FirstStart(arch: Arch, libs: seq<Dylib>)
    ensures FirstDone(arch, libs, libs, 0, [ReadOnlyStart(arch) + HEADER_SIZE], [WritableStart(arch)])
  {
  }

  lemma {:induction false} FirstRoom(arch: Arch, a: seq<Dylib>, b: seq<Dylib>, n: nat, text: seq<nat>, data: seq<nat>)
    requires FirstDone(arch, a, b, n, text, data) && n < |a|
    ensures a[n] == b[n] && 0 < Last(text) && Last(text) % PAGE == 0 && Last(data) % PAGE == 0
    ensures Last(text) + Last(data) + Room(a[n].segs, |a[n].segs|)
            <= ReadOnlyStart(arch) + HEADER_SIZE + WritableStart(arch) + AllRoom(a)
  {
    hide Tower, AllMoved, AllInStep, Room, AllPages;
    AllRoomGrows(a, n);
    assert b[n] == b[n..][0] && a[n] == a[n..][0];
  }

  /** The first pass. */
  method FirstPass(arch: Arch, libs: seq<Dylib>)
    returns (ok: bool, placed: seq<Dylib>, execute: u64, writable: u64, ghost text: seq<nat>, ghost data: seq<nat>)
    requires ReadOnlyStart(arch) + HEADER_SIZE + WritableStart(arch) + AllRoom(libs) < LIMIT
    ensures ok <==> AllSplittable(libs, |libs|)
    ensures ok ==> FirstDone(arch, libs, placed, |libs|, text, data) && execute == Last(text) && writable == Last(data)
  {
    hide FirstDone, AllRoom, CanSplit, ReadOnlyStart, WritableStart, Room, Placing, HeaderAt;
    placed, execute, writable := libs, StartOf(arch), WritableStart(arch);
    text, data := [execute as nat], [writable as nat];
    FirstStart(arch, libs);
    var n := 0;
    while n < |placed|
      invariant n <= |placed| == |libs| && AllSplittable(libs, n)
      invariant text != [] && data != [] && execute == Last(text) && writable == Last(data)
      invariant FirstDone(arch, libs, placed, n, text, data)
    {
      FirstRoom(arch, libs, placed, n, text, data);
      var lib, e, w;
      ok, lib, e, w := PlaceTextAndData(arch, placed[n], execute, writable);
      assert ok <==> CanSplit(libs[n]) by { CanSplitIs(libs[n]); }
      if !ok {
        return;
      }
      FirstNext(arch, libs, placed, n, text, data, lib, e, w);
      placed := placed[n := lib];
      text, data := text + [e as nat], data + [w as nat];
      execute, writable := e, w;
      n := n + 1;
    }
    ok := true;
  }

  lemma CanSplitIs(lib: Dylib)
    ensures CanSplit(lib) <==> Splittable(lib.segs, |lib.segs|, lib.hasSplitSegInfo)
  {
  }

  function StartOf(arch: Arch): (a: u64)
    ensures a == ReadOnlyStart(arch) + HEADER_SIZE && a > 0
  {
    ReadOnlyStart(arch) + HEADER_SIZE
  }

  /** What a later pass has established, for one of the kinds it places. */
  ghost predicate LaterDone(a: seq<Dylib>, b: seq<Dylib>, n: nat, kinds: set<Kind>) {
    && n <= |a| == |b| && b[n..] == a[n..] && AllMoved(a[..n], b[..n], n, kinds)
    && forall l | 0 <= l < n :: b[l].address == a[l].address
  }

  ghost predicate Packing(a: seq<Dylib>, b: seq<Dylib>, n: nat, kind: Kind, lo: nat, marks: seq<nat>) {
    && n <= |a| == |b| && Tower(b[..n], kind, marks) && marks != [] && First(marks) == lo && Last(marks) % PAGE == 0
    && Last(marks) == lo + AllPages(a[..n], kind)
  }

  lemma ThroughMoved(lib: Dylib, placed: Dylib, kinds: set<Kind>)
    requires ResetSizes(lib) && placed.hasSplitSegInfo == lib.hasSplitSegInfo
    requires Through(lib, placed.segs, |lib.segs|, kinds)
    ensures OnlyMoved(lib, placed, kinds) && ResetSizes(placed)
  {
    forall i | 0 <= i < |lib.segs|
      ensures Relocated(lib.segs[i], placed.segs[i]) && placed.segs[i].size == placed.segs[i].origSize
      ensures KindOf(lib.segs[i], lib.hasSplitSegInfo) !in kinds ==> placed.segs[i].newAddress == lib.segs[i].newAddress
    {
      assert MovedOnly(lib.segs[i], placed.segs[i], lib.hasSplitSegInfo, kinds);
    }
  }

  lemma LaterNext(a: seq<Dylib>, b: seq<Dylib>, n: nat, kinds: set<Kind>, placed: Dylib)
    requires LaterDone(a, b, n, kinds) && n < |a| && ResetSizes(a[n])
    requires placed == a[n].(segs := placed.segs) && Through(a[n], placed.segs, |a[n].segs|, kinds)
    ensures LaterDone(a, b[n := placed], n + 1, kinds)
  {
    hide Through, ResetSizes, OnlyMoved;
    ThroughMoved(a[n], placed, kinds);
    PrefixNext(a, n, a[n]);
    PrefixNext(b, n, placed);
    AllMovedNext(a[..n], b[..n], a[n], placed, kinds);
    assert forall l | 0 <= l < n :: b[n := placed][l] == b[l];
  }

  lemma PackingNext(a: seq<Dylib>, b: seq<Dylib>, n: nat, kind: Kind, lo: nat, marks: seq<nat>, placed: Dylib, hi: nat)
    requires Packing(a, b, n, kind, lo, marks) && n < |a|
    requires placed == a[n].(segs := placed.segs) && |placed.segs| == |a[n].segs|
    requires Packed(a[n], placed.segs, |a[n].segs|, kind, Last(marks), hi)
    ensures Packing(a, b[n := placed], n + 1, kind, lo, marks + [hi])
  {
    hide Tower, AllPages, Stacked, Pages;
    PrefixNext(a, n, a[n]);
    PrefixNext(b, n, placed);
    TowerNext(b[..n], kind, marks, placed, hi);
    SumsNext(a[..n], a[n], kind);
  }

  lemma LaterStart(a: seq<Dylib>, kinds: set<Kind>, kind: Kind, lo: nat)
    requires lo % PAGE == 0
    ensures LaterDone(a, a, 0, kinds) && Packing(a, a, 0, kind, lo, [lo])
  {
  }

  lemma LaterAt(a: seq<Dylib>, b: seq<Dylib>, n: nat, kinds: set<Kind>)
    requires LaterDone(a, b, n, kinds) && n < |a|
    ensures b[n] == a[n]
  {
    assert b[n] == b[n..][0] && a[n] == a[n..][0];
  }

  lemma {:induction false} AllPagesInRoom(libs: seq<Dylib>, a: Kind, b: Kind)
    requires a != b
    ensures AllPages(libs, a) + AllPages(libs, b) <= AllRoom(libs)
  {
    if libs != [] {
      var lib := libs[|libs| - 1];
      AllPagesInRoom(libs[..|libs| - 1], a, b);
      PagesInRoom(lib.segs, |lib.segs|, lib.hasSplitSegInfo, a, b);
    }
  }

  /** Two kinds together never take more than the room there is. */
  lemma {:induction false} PackingRoom(a: seq<Dylib>, b: seq<Dylib>, n: nat, k1: Kind, lo1: nat, m1: seq<nat>,
                                       k2: Kind, lo2: nat, m2: seq<nat>)
    requires k1 != k2 && n < |a| && Packing(a, b, n, k1, lo1, m1) && Packing(a, b, n, k2, lo2, m2)
    ensures Last(m1) + Last(m2) + Room(a[n].segs, |a[n].segs|) <= lo1 + lo2 + AllRoom(a)
    ensures Last(m1) % PAGE == 0 && Last(m2) % PAGE == 0
  {
    hide Tower, AllPages, Room;
    AllPagesInRoom(a[..n], k1, k2);
    AllRoomGrows(a, n);
  }

  /** The second pass. */
  method SecondPass(libs: seq<Dylib>, readOnlyStart: u64, importStart: u64)
    returns (placed: seq<Dylib>, readOnly: u64, writableExecutable: u64, ghost ro: seq<nat>, ghost im: seq<nat>)
    requires readOnlyStart % PAGE == 0 && importStart % PAGE == 0
    requires readOnlyStart + importStart + AllRoom(libs) < LIMIT && forall l | 0 <= l < |libs| :: ResetSizes(libs[l])
    ensures LaterDone(libs, placed, |libs|, {ReadOnly, Import})
    ensures Packing(libs, placed, |libs|, ReadOnly, readOnlyStart, ro) && readOnly == Last(ro)
    ensures Packing(libs, placed, |libs|, Import, importStart, im) && writableExecutable == Last(im)
  {
    hide LaterDone, Packing, AllRoom, Room, ResetSizes, Packed, Through;
    placed, readOnly, writableExecutable := libs, readOnlyStart, importStart;
    ro, im := [readOnlyStart as nat], [importStart as nat];
    LaterStart(libs, {ReadOnly, Import}, ReadOnly, readOnlyStart);
    LaterStart(libs, {ReadOnly, Import}, Import, importStart);
    var n := 0;
    while n < |placed|
      invariant n <= |placed| == |libs| && ro != [] && im != []
      invariant readOnly == Last(ro) && writableExecutable == Last(im)
      invariant LaterDone(libs, placed, n, {ReadOnly, Import})
      invariant Packing(libs, placed, n, ReadOnly, readOnlyStart, ro)
      invariant Packing(libs, placed, n, Import, importStart, im)
    {
      LaterAt(libs, placed, n, {ReadOnly, Import});
      PackingRoom(libs, placed, n, ReadOnly, readOnlyStart, ro, Import, importStart, im);
      var lib, r, x := PlaceReadOnlyAndImport(placed[n], readOnly, writableExecutable);
      ThroughLength(libs[n], lib.segs, {ReadOnly, Import});
      LaterNext(libs, placed, n, {ReadOnly, Import}, lib);
      PackingNext(libs, placed, n, ReadOnly, readOnlyStart, ro, lib, r);
      PackingNext(libs, placed, n, Import, importStart, im, lib, x);
      placed := placed[n := lib];
      ro, im := ro + [r as nat], im + [x as nat];
      readOnly, writableExecutable := r, x;
      n := n + 1;
    }
  }

  lemma ThroughLength(lib: Dylib, segs: seq<Segment>, kinds: set<Kind>)
    requires Through(lib, segs, |lib.segs|, kinds)
    ensures |segs| == |lib.segs|
  {
  }

  /** The third pass. */
  method ThirdPass(libs: seq<Dylib>, readOnlyStart: u64) returns (placed: seq<Dylib>, readOnly: u64, ghost le: seq<nat>)
    requires readOnlyStart % PAGE == 0
    requires readOnlyStart + AllRoom(libs) < LIMIT && forall l | 0 <= l < |libs| :: ResetSizes(libs[l])
    ensures LaterDone(libs, placed, |libs|, {LinkEdit})
    ensures Packing(libs, placed, |libs|, LinkEdit, readOnlyStart, le) && readOnly == Last(le)
  {
    hide LaterDone, Packing, AllRoom, Room, ResetSizes, Packed, Through;
    placed, readOnly := libs, readOnlyStart;
    le := [readOnlyStart as nat];
    LaterStart(libs, {LinkEdit}, LinkEdit, readOnlyStart);
    var n := 0;
    while n < |placed|
      invariant n <= |placed| == |libs| && le != [] && readOnly == Last(le)
      invariant LaterDone(libs, placed, n, {LinkEdit})
      invariant Packing(libs, placed, n, LinkEdit, readOnlyStart, le)
    {
      LaterAt(libs, placed, n, {LinkEdit});
      PackingOne(libs, placed, n, LinkEdit, readOnlyStart, le);
      var lib, r := PlaceLinkEdit(placed[n], readOnly);
      ThroughLength(libs[n], lib.segs, {LinkEdit});
      LaterNext(libs, placed, n, {LinkEdit}, lib);
      PackingNext(libs, placed, n, LinkEdit, readOnlyStart, le, lib, r);
      placed := placed[n := lib];
      le := le + [r as nat];
      readOnly := r;
      n := n + 1;
    }
  }

  lemma {:induction false} PackingOne(a: seq<Dylib>, b: seq<Dylib>, n: nat, kind: Kind, lo: nat, marks: seq<nat>)
    requires n < |a| && Packing(a, b, n, kind, lo, marks)
    ensures Last(marks) + Room(a[n].segs, |a[n].segs|) <= lo + AllRoom(a) && Last(marks) % PAGE == 0
  {
    hide Tower, AllPages, Room;
    AllPagesInRoom(a[..n], kind, if kind == Text then Data else Text);
    AllRoomGrows(a, n);
  }

  // ----- the passes together

  lemma {:induction false} SumsKept(a: seq<Dylib>, b: seq<Dylib>, kinds: set<Kind>, kind: Kind)
    requires AllMoved(a, b, |a|, kinds)
    ensures AllPages(a, kind) == AllPages(b, kind) && AllRoom(a) == AllRoom(b)
  {
    if a != [] {
      var n := |a| - 1;
      SumsKept(a[..n], b[..n], kinds, kind);
      PagesKept(a[n], b[n], kinds, |a[n].segs|, kind);
    }
  }

  lemma {:induction false} PagesKept(a: Dylib, b: Dylib, kinds: set<Kind>, n: nat, kind: Kind)
    requires OnlyMoved(a, b, kinds) && n <= |a.segs|
    ensures Pages(a.segs, n, a.hasSplitSegInfo, kind) == Pages(b.segs, n, b.hasSplitSegInfo, kind)
    ensures Room(a.segs, n) == Room(b.segs, n)
  {
    if n > 0 { PagesKept(a, b, kinds, n - 1, kind); }
  }

  /** Later passes do not disturb what the first one established for ppc, nor the headers. */
  lemma InStepKept(arch: Arch, o: Dylib, a: Dylib, b: Dylib, kinds: set<Kind>)
    requires OnlyMoved(a, b, kinds) && Text !in kinds && Data !in kinds && ResetSizes(a) && b.address == a.address
    requires |o.segs| == |a.segs| && o.hasSplitSegInfo == a.hasSplitSegInfo
    requires forall i | 0 <= i < |o.segs| :: Relocated(o.segs[i], a.segs[i])
    requires InStep(a.segs, |a.segs|, arch, a.hasSplitSegInfo) && HeaderPlaced(o, a)
    ensures InStep(b.segs, |b.segs|, arch, b.hasSplitSegInfo) && HeaderPlaced(o, b)
  {
    forall i | 0 <= i < |b.segs|
      ensures KindOf(a.segs[i], a.hasSplitSegInfo) == KindOf(b.segs[i], b.hasSplitSegInfo)
      ensures KindOf(b.segs[i], b.hasSplitSegInfo) !in kinds ==> b.segs[i] == a.segs[i]
      ensures KindOf(o.segs[i], o.hasSplitSegInfo) == KindOf(a.segs[i], a.hasSplitSegInfo)
    {
      assert Relocated(a.segs[i], b.segs[i]) && Relocated(o.segs[i], a.segs[i]);
    }
    if arch == Ppc && a.hasSplitSegInfo {
      forall i | 0 <= i < |b.segs|
        ensures InStepAt(b.segs, i, b.hasSplitSegInfo)
      {
        assert InStepAt(a.segs, i, a.hasSplitSegInfo);
        LastTextAgrees(a.segs, b.segs, i, a.hasSplitSegInfo);
      }
    }
  }

  /** From before the passes to after them. */
  ghost predicate Settled(arch: Arch, a: seq<Dylib>, b: seq<Dylib>) {
    |a| == |b| && forall l | 0 <= l < |a| :: SettledLib(arch, a[l], b[l])
  }

  ghost predicate SettledLib(arch: Arch, a: Dylib, b: Dylib) {
    && b.hasSplitSegInfo == a.hasSplitSegInfo && |b.segs| == |a.segs|
    && (forall i | 0 <= i < |a.segs| :: Relocated(a.segs[i], b.segs[i]))
    && InStep(b.segs, |b.segs|, arch, b.hasSplitSegInfo) && HeaderPlaced(a, b)
  }

  lemma SettledThrough(arch: Arch, a: Dylib, b: Dylib, c: Dylib, d: Dylib)
    requires OnlyMoved(a, b, {Text, Data}) && ResetSizes(b)
    requires InStep(b.segs, |b.segs|, arch, b.hasSplitSegInfo) && HeaderPlaced(a, b)
    requires OnlyMoved(b, c, {ReadOnly, Import}) && ResetSizes(c) && c.address == b.address
    requires OnlyMoved(c, d, {LinkEdit}) && d.address == c.address
    ensures SettledLib(arch, a, d)
  {
    hide HeaderPlaced, InStep;
    forall i | 0 <= i < |a.segs|
      ensures Relocated(a.segs[i], b.segs[i]) && Relocated(a.segs[i], c.segs[i]) && Relocated(a.segs[i], d.segs[i])
    {
      assert Relocated(a.segs[i], b.segs[i]) && Relocated(b.segs[i], c.segs[i]) && Relocated(c.segs[i], d.segs[i]);
    }
    InStepKept(arch, a, b, c, {ReadOnly, Import});
    InStepKept(arch, a, c, d, {LinkEdit});
  }

  lemma Whole<T>(a: seq<T>)
    ensures a[..|a|] == a
  {
  }

  lemma {:induction false} FirstGives(arch: Arch, a: seq<Dylib>, b: seq<Dylib>, text: seq<nat>, data: seq<nat>)
    requires FirstDone(arch, a, b, |a|, text, data)
    ensures |a| == |b| && AllMoved(a, b, |a|, {Text, Data}) && AllInStep(arch, a, b, |a|)
    ensures Tower(b, Text, text) && Tower(b, Data, data) && text != [] && data != []
    ensures First(text) == ReadOnlyStart(arch) + HEADER_SIZE && First(data) == WritableStart(arch)
    ensures Last(text) % PAGE == 0 && Last(data) % PAGE == 0 && First(text) <= Last(text)
    ensures Last(text) + Last(data) <= First(text) + First(data) + AllRoom(a)
    ensures Last(text) == First(text) + AllPages(a, Text)
    ensures arch != Ppc ==> Last(data) == First(data) + AllPages(a, Data)
    ensures AllRoom(b) == AllRoom(a)
  {
    hide AllMoved, AllInStep, Tower, AllPages, AllRoom;
    Whole(a);
    Whole(b);
    SumsKept(a, b, {Text, Data}, Text);
  }

  lemma {:induction false} LaterGives(a: seq<Dylib>, b: seq<Dylib>, kinds: set<Kind>)
    requires LaterDone(a, b, |a|, kinds)
    ensures |a| == |b| && AllMoved(a, b, |a|, kinds) && AllRoom(b) == AllRoom(a)
    ensures forall l | 0 <= l < |a| :: b[l].address == a[l].address
  {
    hide AllMoved, AllRoom;
    Whole(a);
    Whole(b);
    SumsKept(a, b, kinds, Text);
  }

  lemma {:induction false} PackingGives(a: seq<Dylib>, b: seq<Dylib>, kind: Kind, lo: nat, marks: seq<nat>)
    requires Packing(a, b, |a|, kind, lo, marks)
    ensures marks != [] && Tower(b, kind, marks) && First(marks) == lo && Last(marks) % PAGE == 0
    ensures Last(marks) == lo + AllPages(a, kind)
    ensures AllPages(a, kind) <= AllRoom(a)
  {
    hide Tower, AllPages, AllRoom;
    Whole(a);
    Whole(b);
    AllPagesInRoom(a, kind, if kind == Text then Data else Text);
  }

  lemma ResetsOf(a: seq<Dylib>, b: seq<Dylib>, kinds: set<Kind>)
    requires AllMoved(a, b, |a|, kinds)
    ensures |a| == |b| && forall l | 0 <= l < |b| :: ResetSizes(b[l])
  {
    hide ResetSizes, OnlyMoved;
  }

  lemma {:induction false} TowerMoved(a: seq<Dylib>, b: seq<Dylib>, kinds: set<Kind>, kind: Kind, marks: seq<nat>)
    requires Tower(a, kind, marks) && AllMoved(a, b, |a|, kinds)
    requires kind !in kinds && forall l | 0 <= l < |a| :: ResetSizes(a[l])
    ensures Tower(b, kind, marks) && AllPages(a, kind) == AllPages(b, kind)
  {
    hide Tower, AllPages, ResetSizes, OnlyMoved;
    TowerKept(a, b, kinds, kind, marks);
    SumsKept(a, b, kinds, kind);
  }

  lemma AlignedAlready(a: nat, b: nat)
    requires b <= a && a % PAGE == 0 && b % PAGE == 0
    ensures PageAlign(a - b) == a - b
  {
    AlignedDifference(a, b);
  }

  lemma PassesAssign(arch: Arch, l0: seq<Dylib>, l1: seq<Dylib>, l2: seq<Dylib>, l3: seq<Dylib>, layout: Layout)
    requires FirstDone(arch, l0, l1, |l0|, layout.text, layout.data)
    requires |l0| == |l1| == |l2| == |l3| && layout.text != []
    requires layout.data != [] && layout.readOnly != [] && layout.import_ != []
    requires AllMoved(l1, l2, |l0|, {ReadOnly, Import}) && AllMoved(l2, l3, |l0|, {LinkEdit})
    requires Packing(l1, l2, |l0|, ReadOnly, Last(layout.text), layout.readOnly)
    requires Packing(l1, l2, |l0|, Import, RoundUp2MB(Last(layout.data)), layout.import_)
    requires Packing(l2, l3, |l0|, LinkEdit, Last(layout.readOnly), layout.linkEdit)
    ensures Assigned(arch, l3, layout) && Tight(arch, l3, layout)
  {
    hide AllMoved, Tower, AllPages, ResetSizes, FirstDone, Packing;
    FirstGives(arch, l0, l1, layout.text, layout.data);
    PackingGives(l1, l2, ReadOnly, Last(layout.text), layout.readOnly);
    PackingGives(l1, l2, Import, RoundUp2MB(Last(layout.data)), layout.import_);
    PackingGives(l2, l3, LinkEdit, Last(layout.readOnly), layout.linkEdit);
    ResetsOf(l0, l1, {Text, Data});
    ResetsOf(l1, l2, {ReadOnly, Import});
    ResetsOf(l2, l3, {LinkEdit});
    SumsKept(l0, l1, {Text, Data}, Text);
    SumsKept(l0, l1, {Text, Data}, Data);
    TowerMoved(l1, l2, {ReadOnly, Import}, Text, layout.text);
    TowerMoved(l2, l3, {LinkEdit}, Text, layout.text);
    TowerMoved(l1, l2, {ReadOnly, Import}, Data, layout.data);
    TowerMoved(l2, l3, {LinkEdit}, Data, layout.data);
    SumsKept(l1, l2, {ReadOnly, Import}, ReadOnly);
    SumsKept(l1, l2, {ReadOnly, Import}, Import);
    TowerMoved(l2, l3, {LinkEdit}, ReadOnly, layout.readOnly);
    TowerMoved(l2, l3, {LinkEdit}, Import, layout.import_);
    SumsKept(l2, l3, {LinkEdit}, LinkEdit);
    TowerSize(l1, Data, layout.data);
    TowerMonotone(l1, Data, layout.data, 0, |l1|);
  }

  lemma TowerSize(libs: seq<Dylib>, kind: Kind, marks: seq<nat>)
    requires Tower(libs, kind, marks)
    ensures |marks| == |libs| + 1
  {
  }

  /** What the three passes establish together. */
  lemma PassesSettle(arch: Arch, l0: seq<Dylib>, l1: seq<Dylib>, l2: seq<Dylib>, l3: seq<Dylib>)
    requires |l0| == |l1| == |l2| == |l3|
    requires AllMoved(l0, l1, |l0|, {Text, Data}) && AllInStep(arch, l0, l1, |l0|)
    requires AllMoved(l1, l2, |l0|, {ReadOnly, Import}) && AllMoved(l2, l3, |l0|, {LinkEdit})
    requires forall l | 0 <= l < |l0| :: l2[l].address == l1[l].address && l3[l].address == l2[l].address
    ensures Settled(arch, l0, l3)
  {
    hide OnlyMoved, ResetSizes, InStep, HeaderPlaced, SettledLib;
    forall l | 0 <= l < |l0|
      ensures SettledLib(arch, l0[l], l3[l])
    {
      SettledThrough(arch, l0[l], l1[l], l2[l], l3[l]);
    }
  }

  lemma AssignedOrder(arch: Arch, libs: seq<Dylib>, layout: Layout)
    requires Assigned(arch, libs, layout)
    ensures Ordered(arch, layout) && Towers(libs, layout)
  {
  }

  /** The three passes, with the counters they end at. */
  method ThreePasses(arch: Arch, libs0: seq<Dylib>)
    returns (ok: bool, libs: seq<Dylib>, currentExecute: u64, currentWritable: u64, startWritableExecutable: u64,
             currentWritableExecutable: u64, linkEditsStart: u64, currentReadOnly: u64, ghost layout: Layout)
    requires AllRoom(libs0) < 0x100_0000_0000_0000
    ensures ok <==> AllSplittable(libs0, |libs0|)
    ensures ok ==> Settled(arch, libs0, libs) && Assigned(arch, libs, layout) && Tight(arch, libs, layout)
    ensures ok ==> currentExecute == Last(layout.text) && currentWritable == Last(layout.data)
    ensures ok ==> startWritableExecutable == First(layout.import_) && currentWritableExecutable == Last(layout.import_)
    ensures ok ==> linkEditsStart == First(layout.linkEdit) && currentReadOnly == Last(layout.linkEdit)
    ensures ok ==>
              linkEditsStart <= currentReadOnly
              && PageAlign(currentReadOnly - linkEditsStart) == currentReadOnly - linkEditsStart
  {
    hide AllRoom, AllSplittable, Settled, Assigned, Tight, FirstDone, LaterDone, Packing, AllMoved, AllInStep, Tower,
         AllPages;
    hide ResetSizes, RoundUp2MB, PageAlign, ReadOnlyStart, WritableStart;
    StartsSmall(arch);
    libs, startWritableExecutable, currentWritableExecutable, linkEditsStart, currentReadOnly := [], 0, 0, 0, 0;
    layout := Layout([], [], [], [], []);
    var libs1, libs2; ghost var text, data, ro, im, le;
    ok, libs1, currentExecute, currentWritable, text, data := FirstPass(arch, libs0);
    if !ok {
      return;
    }
    FirstGives(arch, libs0, libs1, text, data);
    ResetsOf(libs0, libs1, {Text, Data});
    startWritableExecutable := RoundUp2MB(currentWritable);
    libs2, linkEditsStart, currentWritableExecutable, ro, im :=
      SecondPass(libs1, currentExecute, startWritableExecutable);
    LaterGives(libs1, libs2, {ReadOnly, Import});
    PackingGives(libs1, libs2, ReadOnly, currentExecute, ro);
    PackingGives(libs1, libs2, Import, startWritableExecutable, im);
    ResetsOf(libs1, libs2, {ReadOnly, Import});
    libs, currentReadOnly, le := ThirdPass(libs2, linkEditsStart);
    LaterGives(libs2, libs, {LinkEdit});
    PackingGives(libs2, libs, LinkEdit, linkEditsStart, le);
    layout := Layout(text, data, im, ro, le);
    PassesSettle(arch, libs0, libs1, libs2, libs);
    PassesAssign(arch, libs0, libs1, libs2, libs, layout);
    AlignedAlready(currentReadOnly, linkEditsStart);
  }

  class Cache {
    const arch: Arch
    var fDylibs: seq<Dylib>
    var fMappings: seq<Mapping>
    var fLinkEditsStartAddress: u64
    var fLinkEditsTotalUnoptimizedSize: u64

    constructor (arch: Arch, dylibs: seq<Dylib>)
      ensures this.arch == arch && fDylibs == dylibs && fMappings == []
    {
      this.arch, fDylibs, fMappings := arch, dylibs, [];
      fLinkEditsStartAddress, fLinkEditsTotalUnoptimizedSize := 0, 0;
    }

    /** assignNewBaseAddresses. It fails exactly if a dylib with split-segment information has data before any text. */
    method AssignNewBaseAddresses() returns (ok: bool, ghost layout: Layout)
      requires fMappings == [] && AllRoom(fDylibs) < 0x100_0000_0000_0000
      modifies this
      ensures ok <==> AllSplittable(old(fDylibs), |old(fDylibs)|)
      ensures ok ==> Settled(arch, old(fDylibs), fDylibs)
      ensures ok ==> Assigned(arch, fDylibs, layout) && Tight(arch, fDylibs, layout)
      ensures ok ==> fMappings == LayoutMappings(arch, layout) && TileFile(fMappings)
      ensures ok ==> fLinkEditsStartAddress == First(layout.linkEdit)
                     && fLinkEditsTotalUnoptimizedSize == Last(layout.linkEdit) - First(layout.linkEdit)
    {
      hide AllRoom, AllSplittable, Settled, Assigned, Tight, LayoutMappings, Ordered, TileFile;
      var libs, e, w, ws, we, le, r;
      ok, libs, e, w, ws, we, le, r, layout := ThreePasses(arch, fDylibs);
      if !ok {
        return;
      }
      AssignedOrder(arch, libs, layout);
      MappingsTile(arch, layout);
      fDylibs, fLinkEditsStartAddress, fLinkEditsTotalUnoptimizedSize := libs, le, PageAlign(r - le);
      PopulateMappings(e, w, ws, we, r, layout);
    }

    /** The last part of assignNewBaseAddresses. */
    method PopulateMappings(currentExecute: u64, currentWritable: u64, startWritableExecutable: u64,
                            currentWritableExecutable: u64, currentReadOnly: u64, ghost layout: Layout)
      requires fMappings == [] && Ordered(arch, layout)
      requires currentExecute == Last(layout.text) && currentWritable == Last(layout.data)
      requires startWritableExecutable == First(layout.import_) && currentWritableExecutable == Last(layout.import_)
      requires currentReadOnly == Last(layout.linkEdit)
      modifies this`fMappings
      ensures fMappings == LayoutMappings(arch, layout)
    {
      var cacheFileOffset := 0;
      if currentExecute > ReadOnlyStart(arch) + HEADER_SIZE {
        var text := Mapping(ReadOnlyStart(arch), currentExecute - ReadOnlyStart(arch), cacheFileOffset);
        fMappings := fMappings + [text];
        cacheFileOffset := cacheFileOffset + text.size;
        var data := Mapping(WritableStart(arch), currentWritable - WritableStart(arch), cacheFileOffset);
        fMappings := fMappings + [data];
        cacheFileOffset := cacheFileOffset + data.size;
        if currentWritableExecutable > startWritableExecutable {
          var imports := Mapping(startWritableExecutable, currentWritableExecutable - startWritableExecutable,
                                 cacheFileOffset);
          fMappings := fMappings + [imports];
          cacheFileOffset := cacheFileOffset + imports.size;
        }
        fMappings := fMappings + [Mapping(currentExecute, currentReadOnly - currentExecute, cacheFileOffset)];
      } else {
        fMappings := fMappings + [Mapping(WritableStart(arch), HEADER_SIZE, cacheFileOffset)];
      }
    }

    /** cacheFileOffsetForAddress; None stands for the exception. */
    method CacheFileOffsetForAddress(addr: nat) returns (offset: Option<nat>)
      ensures offset == FileOffset(fMappings, addr)
    {
      for i := 0 to |fMappings|
        invariant forall k | 0 <= k < i :: !Maps(fMappings[k], addr)
      {
        var it := fMappings[i];
        if it.address <= addr && addr < it.address + it.size {
          return Some(it.fileOffset + addr - it.address);
        }
      }
      return None;
    }
  }

  lemma StartsSmall(arch: Arch)
    ensures ReadOnlyStart(arch) + HEADER_SIZE + WritableStart(arch) < 0x2_0000_0000_0000
    ensures ReadOnlyStart(arch) % PAGE == 0 && WritableStart(arch) % PAGE == 0
  {
  }
}
