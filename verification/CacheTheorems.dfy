/** What the layout guarantees: segments keep apart in memory and in the file, and the reader finds them. */
module CacheTheorems {
  import opened Bytes
  import opened Segments
  import opened CacheLayout
  import opened SharedCache
  import opened LayoutExact
  import Rebase

  function KindAt(libs: seq<Dylib>, l: nat, i: nat): Kind
    requires l < |libs| && i < |libs[l].segs|
  {
    KindOf(libs[l].segs[i], libs[l].hasSplitSegInfo)
  }

  function RegionStart(layout: Layout, kind: Kind): nat
    requires MarksOf(layout, kind) != []
  {
    First(MarksOf(layout, kind))
  }

  function RegionEnd(layout: Layout, kind: Kind): nat
    requires MarksOf(layout, kind) != []
  {
    Last(MarksOf(layout, kind))
  }

  predicate Marked(layout: Layout) {
    layout.text != [] && layout.data != [] && layout.import_ != [] && layout.readOnly != [] && layout.linkEdit != []
  }

  /** The read-only and the writable region do not run into each other. */
  predicate Apart(arch: Arch, layout: Layout)
    requires Marked(layout)
  {
    || Last(layout.linkEdit) <= WritableStart(arch)
    || (Last(layout.data) <= ReadOnlyStart(arch)
        && (Last(layout.import_) == First(layout.import_) || Last(layout.import_) <= ReadOnlyStart(arch)))
  }

  /**
    * What a caller can see before: the region that comes first in memory has room for everything that goes into it.
    * That is the read-only one, except on x86_64.
    */
  predicate RegionsFit(arch: Arch, libs: seq<Dylib>) {
    if ReadOnlyStart(arch) < WritableStart(arch) then
      HEADER_SIZE + AllPages(libs, Text) + AllPages(libs, ReadOnly) + AllPages(libs, LinkEdit)
      <= WritableStart(arch) - ReadOnlyStart(arch)
    else
      var data := WritableStart(arch) + AllPages(libs, Data);
      data <= ReadOnlyStart(arch)
      && (AllPages(libs, Import) == 0 || RoundUp2MB(data) + AllPages(libs, Import) <= ReadOnlyStart(arch))
  }

  /** The regions keep apart if and only if the first one has the room, by the sizes of the segments before the
      layout. */
  lemma ApartExactly(arch: Arch, before: seq<Dylib>, libs: seq<Dylib>, layout: Layout)
    requires Settled(arch, before, libs) && Assigned(arch, libs, layout) && Tight(arch, libs, layout) && Marked(layout)
    ensures Apart(arch, layout) <==> RegionsFit(arch, before)
  {
    hide Settled, Towers, AllPages, ResetSizes;
    SettledPages(arch, before, libs, Text);
    SettledPages(arch, before, libs, Data);
    SettledPages(arch, before, libs, Import);
    SettledPages(arch, before, libs, ReadOnly);
    SettledPages(arch, before, libs, LinkEdit);
  }

  /** Some text was placed: the cache is not empty. */
  predicate HasText(arch: Arch, layout: Layout)
    requires Marked(layout)
  {
    Last(layout.text) > ReadOnlyStart(arch) + HEADER_SIZE
  }

  /** Every segment lies in the region of its kind, between the marks of its dylib. */
  lemma InRegion(arch: Arch, libs: seq<Dylib>, layout: Layout, l: nat, i: nat)
    requires Assigned(arch, libs, layout) && l < |libs| && i < |libs[l].segs|
    ensures Marked(layout)
    ensures var s, kind := libs[l].segs[i], KindAt(libs, l, i);
            var marks := MarksOf(layout, kind);
            && |marks| == |libs| + 1
            && First(marks) <= marks[l] <= s.newAddress
            && s.newAddress + PageAlign(s.size) <= marks[l + 1] <= Last(marks)
  {
    hide PageAlign;
    var kind := KindAt(libs, l, i);
    var marks := MarksOf(layout, kind);
    TowersHave(libs, layout, kind);
    TowerMonotone(libs, kind, marks, 0, l);
    TowerMonotone(libs, kind, marks, l + 1, |libs|);
    assert LibStacked(libs[l], kind, marks[l], marks[l + 1]);
  }

  /** In terms of their protections: code is placed in the text region, writable segments in the data region, but for
      executable ones of split dylibs, which come behind it with the imports, and the others behind the text. */
  lemma ByProtection(arch: Arch, libs: seq<Dylib>, layout: Layout, l: nat, i: nat)
    requires Assigned(arch, libs, layout) && l < |libs| && i < |libs[l].segs|
    ensures Marked(layout)
    ensures var s, split := libs[l].segs[i], libs[l].hasSplitSegInfo;
            var a, end := s.newAddress, s.newAddress + PageAlign(s.size);
            && (!s.writable && s.executable ==> ReadOnlyStart(arch) + HEADER_SIZE <= a && end <= Last(layout.text))
            && (!s.writable && !s.executable && !s.linkEdit ==> Last(layout.text) <= a && end <= Last(layout.readOnly))
            && (!s.writable && !s.executable && s.linkEdit ==>
                  Last(layout.readOnly) <= a && end <= Last(layout.linkEdit))
            && (s.writable && !(s.executable && split) ==> WritableStart(arch) <= a && end <= Last(layout.data))
            && (s.writable && s.executable && split ==>
                  RoundUp2MB(Last(layout.data)) <= a && end <= Last(layout.import_))
  {
    hide PageAlign, Towers, ResetSizes, RoundUp2MB;
    InRegion(arch, libs, layout, l, i);
  }

  predicate Disjoint(a: nat, n: nat, b: nat, m: nat) {
    a + n <= b || b + m <= a
  }

  /** Two segments of the same kind. */
  lemma SameKindApart(arch: Arch, libs: seq<Dylib>, layout: Layout, l: nat, i: nat, m: nat, j: nat)
    requires Assigned(arch, libs, layout) && l <= m < |libs| && i < |libs[l].segs| && j < |libs[m].segs|
    requires (l, i) != (m, j) && (l == m ==> i < j) && KindAt(libs, l, i) == KindAt(libs, m, j)
    ensures libs[l].segs[i].newAddress + libs[l].segs[i].size <= libs[m].segs[j].newAddress
  {
    hide Assigned;
    InRegion(arch, libs, layout, l, i);
    InRegion(arch, libs, layout, m, j);
    var kind := KindAt(libs, l, i);
    var marks := MarksOf(layout, kind);
    AssignedOrder(arch, libs, layout);
    TowersHave(libs, layout, kind);
    if l == m {
      assert LibStacked(libs[l], kind, marks[l], marks[l + 1]);
    } else {
      TowerMonotone(libs, kind, marks, l + 1, m);
    }
  }

  /** The regions of two kinds have no byte in common: one is empty, or one ends before the other begins. */
  predicate Clear(layout: Layout, a: Kind, b: Kind)
    requires Marked(layout)
  {
    || RegionEnd(layout, a) <= RegionStart(layout, a)
    || RegionEnd(layout, b) <= RegionStart(layout, b)
    || RegionEnd(layout, a) <= RegionStart(layout, b)
    || RegionEnd(layout, b) <= RegionStart(layout, a)
  }

  ghost predicate Separate(layout: Layout)
    requires Marked(layout)
  {
    forall a: Kind, b: Kind | a != b :: Clear(layout, a, b)
  }

  /** It is enough that the read-only and the writable region keep apart. */
  lemma ApartSeparates(arch: Arch, libs: seq<Dylib>, layout: Layout)
    requires Assigned(arch, libs, layout) && Marked(layout) && Apart(arch, layout)
    ensures Separate(layout)
  {
    hide Towers, ResetSizes;
  }

  /** No two segments of the cache overlap. */
  lemma SegmentsDisjoint(arch: Arch, libs: seq<Dylib>, layout: Layout, l: nat, i: nat, m: nat, j: nat)
    requires Assigned(arch, libs, layout) && Marked(layout) && Separate(layout)
    requires l < |libs| && i < |libs[l].segs| && m < |libs| && j < |libs[m].segs| && (l, i) != (m, j)
    requires libs[l].segs[i].size > 0 && libs[m].segs[j].size > 0
    ensures Disjoint(libs[l].segs[i].newAddress, libs[l].segs[i].size, libs[m].segs[j].newAddress, libs[m].segs[j].size)
  {
    hide Assigned, KindAt, Separate;
    InRegion(arch, libs, layout, l, i);
    InRegion(arch, libs, layout, m, j);
    if KindAt(libs, l, i) == KindAt(libs, m, j) {
      if l < m || (l == m && i < j) {
        SameKindApart(arch, libs, layout, l, i, m, j);
      } else {
        SameKindApart(arch, libs, layout, m, j, l, i);
      }
    } else {
      SeparateKinds(layout, KindAt(libs, l, i), KindAt(libs, m, j));
    }
  }

  lemma SeparateKinds(layout: Layout, a: Kind, b: Kind)
    requires Marked(layout) && Separate(layout) && a != b
    ensures Clear(layout, a, b)
  {
  }

  // ----- the converse: regions without gaps that meet have segments that meet

  /** A page of a region without gaps, counted from its start, belongs to some dylib. */
  lemma {:induction false} DylibAt(libs: seq<Dylib>, kind: Kind, d: nat) returns (l: nat)
    requires d < AllPages(libs, kind)
    ensures l < |libs| && AllPages(libs[..l], kind) <= d
    ensures d < AllPages(libs[..l], kind) + Pages(libs[l].segs, |libs[l].segs|, libs[l].hasSplitSegInfo, kind)
  {
    hide Pages;
    var n := |libs| - 1;
    if d < AllPages(libs[..n], kind) {
      l := DylibAt(libs[..n], kind, d);
      assert libs[..n][..l] == libs[..l];
    } else {
      l := n;
    }
  }

  /** And to some segment of it. */
  lemma {:induction false} SegmentAt(segs: seq<Segment>, n: nat, split: bool, kind: Kind, d: nat) returns (i: nat)
    requires n <= |segs| && d < Pages(segs, n, split, kind)
    ensures i < n && KindOf(segs[i], split) == kind && Pages(segs, i, split, kind) <= d
    ensures d < Pages(segs, i, split, kind) + PageAlign(segs[i].origSize)
  {
    hide PageAlign;
    if d < Pages(segs, n - 1, split, kind) {
      i := SegmentAt(segs, n - 1, split, kind, d);
    } else {
      i := n - 1;
    }
  }

  /** The first byte of a page that a segment needs is the segment's own. */
  lemma PageStart(a: nat, n: nat, p: nat)
    requires a % PAGE == 0 && p % PAGE == 0 && a <= p < a + PageAlign(n)
    ensures p < a + n
  {
    var x, y := a / PAGE, p / PAGE;
    assert p == y * PAGE && a == x * PAGE;
    assert PageAlign(n) == (n + 4095) / PAGE * PAGE;
    assert y - x < (n + 4095) / PAGE;
  }

  predicate SegmentHolds(libs: seq<Dylib>, l: nat, i: nat, p: nat) {
    l < |libs| && i < |libs[l].segs|
    && libs[l].segs[i].newAddress <= p < libs[l].segs[i].newAddress + libs[l].segs[i].size
  }

  /** So the first byte of every page of a region without gaps belongs to a segment of its kind. */
  lemma PageHeld(arch: Arch, libs: seq<Dylib>, layout: Layout, kind: Kind, p: nat) returns (l: nat, i: nat)
    requires Assigned(arch, libs, layout) && Marked(layout)
    requires RegionEnd(layout, kind) == RegionStart(layout, kind) + AllPages(libs, kind)
    requires RegionStart(layout, kind) <= p < RegionEnd(layout, kind) && p % PAGE == 0
    ensures SegmentHolds(libs, l, i, p) && KindAt(libs, l, i) == kind
  {
    hide Pages, AllPages, Tower, PageAlign;
    var d := p - RegionStart(layout, kind);
    l := DylibAt(libs, kind, d);
    var lib := libs[l];
    i := SegmentAt(lib.segs, |lib.segs|, lib.hasSplitSegInfo, kind, d - AllPages(libs[..l], kind));
    TowersHave(libs, layout, kind);
    ExactAddress(libs, kind, MarksOf(layout, kind), l, i);
    SegmentAligned(libs, kind, MarksOf(layout, kind), l, i);
    assert lib.segs[i].size == lib.segs[i].origSize;
    PageStart(lib.segs[i].newAddress, lib.segs[i].size, p);
  }

  lemma SegmentAligned(libs: seq<Dylib>, kind: Kind, marks: seq<nat>, l: nat, i: nat)
    requires Tower(libs, kind, marks) && l < |libs| && i < |libs[l].segs| && KindAt(libs, l, i) == kind
    ensures libs[l].segs[i].newAddress % PAGE == 0
  {
    assert LibStacked(libs[l], kind, marks[l], marks[l + 1]);
  }

  /** Two segments have a byte in common. */
  ghost predicate Overlap(libs: seq<Dylib>) {
    exists l: nat, i: nat, m: nat, j: nat, p: nat ::
      (l, i) != (m, j) && SegmentHolds(libs, l, i, p) && SegmentHolds(libs, m, j, p)
  }

  lemma {:induction false} RegionTight(arch: Arch, libs: seq<Dylib>, layout: Layout, kind: Kind)
    requires Assigned(arch, libs, layout) && Marked(layout) && Tight(arch, libs, layout) && arch != Ppc
    ensures RegionEnd(layout, kind) == RegionStart(layout, kind) + AllPages(libs, kind)
  {
    hide Towers, ResetSizes, AllPages, RoundUp2MB, ReadOnlyStart, WritableStart;
  }

  lemma SumAligned(a: nat, b: nat)
    requires a % PAGE == 0 && b % PAGE == 0
    ensures (a + b) % PAGE == 0
  {
  }

  lemma RegionAligned(arch: Arch, libs: seq<Dylib>, layout: Layout, kind: Kind)
    requires Assigned(arch, libs, layout) && Marked(layout) && Tight(arch, libs, layout) && arch != Ppc
    ensures RegionStart(layout, kind) % PAGE == 0
  {
    hide Towers, ResetSizes, AllPages, RoundUp2MB, ReadOnlyStart, WritableStart;
    StartsSmall(arch);
    SumAligned(ReadOnlyStart(arch), HEADER_SIZE);
    PagesAligned(libs, Text);
    PagesAligned(libs, ReadOnly);
    SumAligned(First(layout.text), AllPages(libs, Text));
    SumAligned(First(layout.readOnly), AllPages(libs, ReadOnly));
  }

  lemma {:induction false} PagesAligned(libs: seq<Dylib>, kind: Kind)
    ensures AllPages(libs, kind) % PAGE == 0
  {
    if libs != [] {
      hide Pages;
      var lib := libs[|libs| - 1];
      PagesAligned(libs[..|libs| - 1], kind);
      SegmentPagesAligned(lib.segs, |lib.segs|, lib.hasSplitSegInfo, kind);
    }
  }

  lemma {:induction false} SegmentPagesAligned(segs: seq<Segment>, n: nat, split: bool, kind: Kind)
    requires n <= |segs|
    ensures Pages(segs, n, split, kind) % PAGE == 0
  {
    if n > 0 {
      hide PageAlign;
      SegmentPagesAligned(segs, n - 1, split, kind);
    }
  }

  lemma RegionsMeet(arch: Arch, libs: seq<Dylib>, layout: Layout, a: Kind, b: Kind)
    requires Assigned(arch, libs, layout) && Marked(layout) && Tight(arch, libs, layout) && arch != Ppc
    requires a != b && !Clear(layout, a, b)
    ensures Overlap(libs)
  {
    hide Assigned, Tight, AllPages;
    RegionAligned(arch, libs, layout, a);
    RegionAligned(arch, libs, layout, b);
    RegionTight(arch, libs, layout, a);
    RegionTight(arch, libs, layout, b);
    var x, y := RegionStart(layout, a), RegionStart(layout, b);
    var p := if x < y then y else x;
    var l, i := PageHeld(arch, libs, layout, a, p);
    var m, j := PageHeld(arch, libs, layout, b, p);
    assert (l, i) != (m, j);
  }

  /** Where no 64K steps leave gaps, segments overlap exactly if the regions of two kinds do. */
  lemma OverlapExactly(arch: Arch, libs: seq<Dylib>, layout: Layout)
    requires Assigned(arch, libs, layout) && Marked(layout) && Tight(arch, libs, layout) && arch != Ppc
    ensures Overlap(libs) <==> !Separate(layout)
  {
    hide Assigned, Tight, Clear;
    if !Separate(layout) {
      var a: Kind, b: Kind :| a != b && !Clear(layout, a, b);
      RegionsMeet(arch, libs, layout, a, b);
    } else if Overlap(libs) {
      var l: nat, i: nat, m: nat, j: nat, p: nat :|
        (l, i) != (m, j) && SegmentHolds(libs, l, i, p) && SegmentHolds(libs, m, j, p);
      SegmentsDisjoint(arch, libs, layout, l, i, m, j);
    }
  }

  /** By the sizes before the layout, the segments of a kind end here. */
  function RegionLimit(arch: Arch, libs: seq<Dylib>, kind: Kind): nat {
    RegionBase(arch, libs, kind) + AllPages(libs, kind)
  }

  /** What a caller can see of two kinds before the layout. */
  predicate ClearBefore(arch: Arch, libs: seq<Dylib>, a: Kind, b: Kind) {
    || AllPages(libs, a) == 0
    || AllPages(libs, b) == 0
    || RegionLimit(arch, libs, a) <= RegionBase(arch, libs, b)
    || RegionLimit(arch, libs, b) <= RegionBase(arch, libs, a)
  }

  lemma RegionBefore(arch: Arch, before: seq<Dylib>, libs: seq<Dylib>, layout: Layout, kind: Kind)
    requires LaidOut(arch, before, libs, layout) && Marked(layout) && arch != Ppc
    ensures RegionStart(layout, kind) == RegionBase(arch, before, kind)
    ensures RegionEnd(layout, kind) == RegionLimit(arch, before, kind)
  {
    hide Settled, Towers, AllPages, ResetSizes, RoundUp2MB;
    SettledPages(arch, before, libs, Text);
    SettledPages(arch, before, libs, Data);
    SettledPages(arch, before, libs, Import);
    SettledPages(arch, before, libs, ReadOnly);
    SettledPages(arch, before, libs, LinkEdit);
  }

  /** Whether segments will overlap can be told from the sizes before the layout. */
  lemma OverlapForeseen(arch: Arch, before: seq<Dylib>, libs: seq<Dylib>, layout: Layout)
    requires LaidOut(arch, before, libs, layout) && Marked(layout) && arch != Ppc
    ensures Overlap(libs) <==> exists a: Kind, b: Kind | a != b :: !ClearBefore(arch, before, a, b)
  {
    hide Settled, Assigned, Tight, AllPages, Overlap, RegionBase, RoundUp2MB;
    OverlapExactly(arch, libs, layout);
    forall a: Kind, b: Kind
      ensures Clear(layout, a, b) <==> ClearBefore(arch, before, a, b)
    {
      RegionBefore(arch, before, libs, layout, a);
      RegionBefore(arch, before, libs, layout, b);
    }
  }

  // ----- the file

  /** The mapping a kind of segment lies in. */
  function Home(layout: Layout, kind: Kind): nat
    requires Marked(layout)
  {
    match kind
    case Text => 0
    case Data => 1
    case Import => 2
    case ReadOnly => if First(layout.import_) < Last(layout.import_) then 3 else 2
    case LinkEdit => if First(layout.import_) < Last(layout.import_) then 3 else 2
  }

  /** Mappings neither overlap in memory nor in the file. */
  predicate MappingsApart(ms: seq<Mapping>) {
    forall i, j | 0 <= i < j < |ms| ::
      && Disjoint(ms[i].address, ms[i].size, ms[j].address, ms[j].size)
      && Disjoint(ms[i].fileOffset, ms[i].size, ms[j].fileOffset, ms[j].size)
  }

  lemma LayoutMappingsApart(arch: Arch, libs: seq<Dylib>, layout: Layout)
    requires Assigned(arch, libs, layout) && Marked(layout) && Apart(arch, layout) && HasText(arch, layout)
    ensures MappingsApart(LayoutMappings(arch, layout))
  {
    hide Towers, ResetSizes;
  }

  /** Where mappings keep apart, the one that holds an address is found. */
  lemma {:induction false} FoundIn(ms: seq<Mapping>, k: nat, a: nat)
    requires MappingsApart(ms) && k < |ms| && Maps(ms[k], a)
    ensures MappingOf(ms, a) == k && FileOffset(ms, a) == Some(ms[k].fileOffset + (a - ms[k].address))
  {
    var j := MappingOf(ms, a);
    assert !(j < k) && !(k < j);
  }

  /** A segment lies inside one mapping, behind the header. */
  lemma InMapping(arch: Arch, libs: seq<Dylib>, layout: Layout, l: nat, i: nat)
    requires Assigned(arch, libs, layout) && Marked(layout) && HasText(arch, layout)
    requires l < |libs| && i < |libs[l].segs| && libs[l].segs[i].size > 0
    ensures var s, k := libs[l].segs[i], Home(layout, KindAt(libs, l, i));
            && k < |LayoutMappings(arch, layout)|
            && var m := LayoutMappings(arch, layout)[k];
               && m.address <= s.newAddress && s.newAddress + s.size <= m.address + m.size
               && m.fileOffset + (s.newAddress - m.address) >= HEADER_SIZE
  {
    hide Towers, ResetSizes;
    InRegion(arch, libs, layout, l, i);
  }

  /** Exactly the header, the text and what follows it, the data and the imports are mapped. */
  lemma MappedExactly(arch: Arch, libs: seq<Dylib>, layout: Layout, a: nat)
    requires Assigned(arch, libs, layout) && Marked(layout) && HasText(arch, layout)
    ensures FileOffset(LayoutMappings(arch, layout), a).Some?
            <==> || ReadOnlyStart(arch) <= a < Last(layout.linkEdit)
                 || WritableStart(arch) <= a < Last(layout.data)
                 || First(layout.import_) <= a < Last(layout.import_)
  {
    hide Towers, ResetSizes, ReadOnlyStart, WritableStart, MappingOf;
    var ms := LayoutMappings(arch, layout);
    var j := MappingOf(ms, a);
    assert |ms| == 3 || |ms| == 4;
    if j == |ms| {
      assert !Maps(ms[0], a) && !Maps(ms[1], a) && !Maps(ms[2], a) && (|ms| == 4 ==> !Maps(ms[3], a));
    }
  }

  /** The bytes of a segment are contiguous in the file, behind the header, and both builder and reader find them. */
  lemma SegmentInFile(arch: Arch, libs: seq<Dylib>, layout: Layout, l: nat, i: nat, d: nat)
    requires Assigned(arch, libs, layout) && Marked(layout) && Apart(arch, layout) && HasText(arch, layout)
    requires l < |libs| && i < |libs[l].segs| && d < libs[l].segs[i].size
    ensures var ms, s := LayoutMappings(arch, layout), libs[l].segs[i];
            && FileOffset(ms, s.newAddress).Some? && FileOffset(ms, s.newAddress).value >= HEADER_SIZE
            && FileOffset(ms, s.newAddress + d) == Some(FileOffset(ms, s.newAddress).value + d)
            && MappingOf(ms, s.newAddress + d) == MappingOf(ms, s.newAddress)
  {
    hide Assigned, Apart, HasText, LayoutMappings, FileOffset, MappingsApart;
    AssignedOrder(arch, libs, layout);
    InMapping(arch, libs, layout, l, i);
    LayoutMappingsApart(arch, libs, layout);
    var ms, s, k := LayoutMappings(arch, layout), libs[l].segs[i], Home(layout, KindAt(libs, l, i));
    FoundIn(ms, k, s.newAddress);
    FoundIn(ms, k, s.newAddress + d);
  }

  /** No two mapped addresses share a byte of the file. */
  lemma FileInjective(ms: seq<Mapping>, a: nat, b: nat)
    requires MappingsApart(ms) && FileOffset(ms, a).Some? && FileOffset(ms, a) == FileOffset(ms, b)
    ensures a == b
  {
    var i, j := MappingOf(ms, a), MappingOf(ms, b);
    assert forall x, y | 0 <= x < y < |ms| :: Disjoint(ms[x].fileOffset, ms[x].size, ms[y].fileOffset, ms[y].size);
    assert i == j;
  }

  /** Segments keep apart in the file, too. */
  lemma FilesDisjoint(arch: Arch, libs: seq<Dylib>, layout: Layout, l: nat, i: nat, m: nat, j: nat, d: nat, e: nat)
    requires Assigned(arch, libs, layout) && Marked(layout) && Apart(arch, layout) && HasText(arch, layout)
    requires l < |libs| && i < |libs[l].segs| && m < |libs| && j < |libs[m].segs| && (l, i) != (m, j)
    requires d < libs[l].segs[i].size && e < libs[m].segs[j].size
    ensures var ms := LayoutMappings(arch, layout);
            FileOffset(ms, libs[l].segs[i].newAddress + d) != FileOffset(ms, libs[m].segs[j].newAddress + e)
  {
    hide Assigned, Apart, HasText, LayoutMappings, FileOffset, MappingsApart, Separate;
    AssignedOrder(arch, libs, layout);
    ApartSeparates(arch, libs, layout);
    SegmentsDisjoint(arch, libs, layout, l, i, m, j);
    SegmentInFile(arch, libs, layout, l, i, d);
    LayoutMappingsApart(arch, libs, layout);
    var ms := LayoutMappings(arch, layout);
    if FileOffset(ms, libs[l].segs[i].newAddress + d) == FileOffset(ms, libs[m].segs[j].newAddress + e) {
      FileInjective(ms, libs[l].segs[i].newAddress + d, libs[m].segs[j].newAddress + e);
    }
  }

  // ----- when the cache is empty

  predicate TextAt(libs: seq<Dylib>, l: nat, i: nat) {
    l < |libs| && i < |libs[l].segs| && KindAt(libs, l, i) == Text && libs[l].segs[i].origSize > 0
  }

  lemma {:induction false} SomePages(segs: seq<Segment>, n: nat, split: bool)
    requires n <= |segs|
    ensures Pages(segs, n, split, Text) > 0
            <==> exists i | 0 <= i < n :: KindOf(segs[i], split) == Text && segs[i].origSize > 0
  {
    if n > 0 {
      SomePages(segs, n - 1, split);
      assert PageAlign(segs[n - 1].origSize) > 0 <==> segs[n - 1].origSize > 0;
    }
  }

  lemma {:induction false} SomeText(libs: seq<Dylib>)
    ensures AllPages(libs, Text) > 0 <==> exists l: nat, i: nat :: TextAt(libs, l, i)
  {
    if libs != [] {
      var n := |libs| - 1;
      SomeText(libs[..n]);
      SomePages(libs[n].segs, |libs[n].segs|, libs[n].hasSplitSegInfo);
      if i: nat :| 0 <= i < |libs[n].segs| && KindAt(libs, n, i) == Text && libs[n].segs[i].origSize > 0 {
        assert TextAt(libs, n, i);
      }
      if l: nat, i: nat :| TextAt(libs[..n], l, i) {
        assert TextAt(libs, l, i);
      }
      if l: nat, i: nat :| TextAt(libs, l, i) {
        assert l < n ==> TextAt(libs[..n], l, i);
      }
    }
  }

  /** The cache has text mappings exactly if some dylib has a text segment that is not empty. */
  lemma EmptyExactly(arch: Arch, libs: seq<Dylib>, layout: Layout)
    requires Assigned(arch, libs, layout) && Marked(layout) && Tight(arch, libs, layout)
    ensures HasText(arch, layout) <==> exists l: nat, i: nat :: TextAt(libs, l, i)
    ensures !HasText(arch, layout) ==> LayoutMappings(arch, layout) == [Mapping(WritableStart(arch), HEADER_SIZE, 0)]
  {
    hide Towers, ResetSizes, TextAt, AllPages;
    SomeText(libs);
  }

  /** The address that the image list of the cache records for a dylib is where its first text segment went, which is
      where its header is; an address given before is kept, and a dylib without text has none. */
  lemma {:induction false} HeaderRecorded(arch: Arch, a: seq<Dylib>, b: seq<Dylib>, l: nat, i: nat)
    requires Settled(arch, a, b) && l < |a| && i <= |a[l].segs|
    requires forall j | 0 <= j < i :: a[l].segs[j].writable || !a[l].segs[j].executable
    requires i < |a[l].segs| ==> !a[l].segs[i].writable && a[l].segs[i].executable
    ensures |b| == |a| && |b[l].segs| == |a[l].segs|
    ensures b[l].address == if a[l].address != 0 then a[l].address
                            else if i < |a[l].segs| then b[l].segs[i].newAddress
                            else 0
  {
    assert SettledLib(arch, a[l], b[l]) && HeaderPlaced(a[l], b[l]);
    var split, n := a[l].hasSplitSegInfo, |a[l].segs|;
    var first := FirstText(a[l].segs, n, split);
    assert i < n ==> KindOf(a[l].segs[i], split) == Text;
    assert forall j | 0 <= j < i :: KindOf(a[l].segs[j], split) != Text;
  }

  // ----- what the rebaser needs

  /** The layout gives every dylib segments that the rebaser can translate pointers between. */
  lemma LayoutSuitsRebasing(arch: Arch, libs: seq<Dylib>, layout: Layout, l: nat, word: int)
    requires Assigned(arch, libs, layout) && Marked(layout) && Separate(layout) && l < |libs|
    requires forall i | 0 <= i < |libs[l].segs| ::
               && Rebase.EndsIn(libs[l].segs[i].address + libs[l].segs[i].size, word)
               && Rebase.EndsIn(libs[l].segs[i].newAddress + libs[l].segs[i].size, word)
    ensures Rebase.GoodSegments(libs[l].segs, word)
  {
    hide Assigned, Separate;
    var segs := libs[l].segs;
    forall i, j | 0 <= i < j < |segs| && segs[i].size > 0 && segs[j].size > 0
      ensures segs[i].newAddress + segs[i].size <= segs[j].newAddress
              || segs[j].newAddress + segs[j].size <= segs[i].newAddress
    {
      SegmentsDisjoint(arch, libs, layout, l, i, l, j);
    }
  }

  /** On x86_64 every segment lands beyond the reach of 32 bits. */
  lemma AllFar(libs: seq<Dylib>, layout: Layout, l: nat, i: nat)
    requires Assigned(X86_64, libs, layout) && l < |libs| && i < |libs[l].segs|
    ensures libs[l].segs[i].newAddress >= 0x7FFF_7000_0000
  {
    hide Towers, ResetSizes;
    InRegion(X86_64, libs, layout, l, i);
  }

  /** So after the layout no 32-bit slot can hold the address it is to be given, wherever it points. */
  lemma NoneHoldable(libs: seq<Dylib>, layout: Layout, l: nat, slot: Rebase.Slot, big: bool, v: u64)
    requires Assigned(X86_64, libs, layout) && l < |libs| && Rebase.GoodSegments(libs[l].segs, TWO64)
    requires slot.kind == Rebase.TEXT_ABSOLUTE32 && SlideAt(libs[l].segs, v, TWO64).Some?
    ensures !Rebase.Holdable(libs[l].segs, Rebase.Machine(TWO64, big), slot, v)
  {
    hide Assigned, SlideAt, Rebase.GoodSegments;
    var segs, arch := libs[l].segs, Rebase.Machine(TWO64, big);
    Rebase.MovedWithin(segs, arch, v);
    HolderInside(segs, v);
    AllFar(libs, layout, l, Holder(segs, v));
  }

  lemma {:induction false} HolderInside(segs: seq<Segment>, v: u64)
    requires SlideAt(segs, v, TWO64).Some?
    ensures Holder(segs, v) < |segs|
  {
  }
}
