/** Where the layout puts a segment, in closed form: without gaps, everything is where the sizes before it say. */
module LayoutExact {
  import opened Bytes
  import opened Segments
  import opened CacheLayout
  import opened SharedCache

  // ----- the segments of one dylib

  /** What lies above the segments of one kind among the first `n` lies above all their pages. */
  lemma {:induction false} StackHeight(segs: seq<Segment>, n: nat, split: bool, kind: Kind, lo: nat, hi: nat, m: nat,
                                       x: nat)
    requires m <= n <= |segs| && lo <= x && Stacked(segs, n, split, kind, lo, hi)
    requires forall i | 0 <= i < n :: segs[i].size == segs[i].origSize
    requires forall i | 0 <= i < m && KindOf(segs[i], split) == kind ::
               segs[i].newAddress + PageAlign(segs[i].size) <= x
    ensures lo + Pages(segs, m, split, kind) <= x
  {
    hide PageAlign;
    if m > 0 {
      if KindOf(segs[m - 1], split) == kind {
        StackHeight(segs, n, split, kind, lo, hi, m - 1, segs[m - 1].newAddress);
      } else {
        StackHeight(segs, n, split, kind, lo, hi, m - 1, x);
      }
    }
  }

  /** What lies below the others leaves room for all of theirs. */
  lemma {:induction false} StackDepth(segs: seq<Segment>, n: nat, split: bool, kind: Kind, lo: nat, hi: nat, m: nat,
                                      y: nat)
    requires m <= n <= |segs| && y <= hi && Stacked(segs, n, split, kind, lo, hi)
    requires forall i | 0 <= i < n :: segs[i].size == segs[i].origSize
    requires forall i | m <= i < n && KindOf(segs[i], split) == kind :: y <= segs[i].newAddress
    ensures y + Pages(segs, n, split, kind) <= hi + Pages(segs, m, split, kind)
    decreases n - m
  {
    hide PageAlign;
    if m < n {
      if KindOf(segs[m], split) == kind {
        StackDepth(segs, n, split, kind, lo, hi, m + 1, segs[m].newAddress + PageAlign(segs[m].size));
      } else {
        StackDepth(segs, n, split, kind, lo, hi, m + 1, y);
      }
    }
  }

  lemma {:induction false} LibHeight(lib: Dylib, kind: Kind, lo: nat, hi: nat)
    requires LibStacked(lib, kind, lo, hi) && ResetSizes(lib)
    ensures lo + Pages(lib.segs, |lib.segs|, lib.hasSplitSegInfo, kind) <= hi
  {
    hide PageAlign, Pages;
    StackHeight(lib.segs, |lib.segs|, lib.hasSplitSegInfo, kind, lo, hi, |lib.segs|, hi);
  }

  /** A segment of a dylib whose segments of the kind fill their stretch. */
  lemma {:induction false} PackedAddress(lib: Dylib, kind: Kind, lo: nat, hi: nat, i: nat)
    requires LibStacked(lib, kind, lo, hi) && ResetSizes(lib) && i < |lib.segs|
    requires hi <= lo + Pages(lib.segs, |lib.segs|, lib.hasSplitSegInfo, kind)
    requires KindOf(lib.segs[i], lib.hasSplitSegInfo) == kind
    ensures lib.segs[i].newAddress == lo + Pages(lib.segs, i, lib.hasSplitSegInfo, kind)
  {
    hide PageAlign, Pages;
    var n, split, a := |lib.segs|, lib.hasSplitSegInfo, lib.segs[i].newAddress;
    StackHeight(lib.segs, n, split, kind, lo, hi, i, a);
    StackDepth(lib.segs, n, split, kind, lo, hi, i, a);
  }

  // ----- all dylibs

  lemma {:induction false} TowerHeight(libs: seq<Dylib>, kind: Kind, marks: seq<nat>, l: nat)
    requires Tower(libs, kind, marks) && l <= |libs| && forall k | 0 <= k < |libs| :: ResetSizes(libs[k])
    ensures First(marks) + AllPages(libs[..l], kind) <= marks[l]
  {
    hide LibStacked, ResetSizes, Pages;
    if l > 0 {
      TowerHeight(libs, kind, marks, l - 1);
      LibHeight(libs[l - 1], kind, marks[l - 1], marks[l]);
      assert libs[..l][..l - 1] == libs[..l - 1];
    }
  }

  lemma {:induction false} TowerDepth(libs: seq<Dylib>, kind: Kind, marks: seq<nat>, l: nat)
    requires Tower(libs, kind, marks) && l <= |libs| && forall k | 0 <= k < |libs| :: ResetSizes(libs[k])
    ensures marks[l] + AllPages(libs, kind) <= Last(marks) + AllPages(libs[..l], kind)
    decreases |libs| - l
  {
    hide LibStacked, ResetSizes, Pages;
    if l < |libs| {
      TowerDepth(libs, kind, marks, l + 1);
      LibHeight(libs[l], kind, marks[l], marks[l + 1]);
      assert libs[..l + 1][..l] == libs[..l];
    } else {
      assert libs[..l] == libs;
    }
  }

  /** In a region without gaps a segment lies behind the pages of its kind of the dylibs before, and of its own dylib's
      segments before it. */
  lemma {:induction false} ExactAddress(libs: seq<Dylib>, kind: Kind, marks: seq<nat>, l: nat, i: nat)
    requires Tower(libs, kind, marks) && forall k | 0 <= k < |libs| :: ResetSizes(libs[k])
    requires Last(marks) == First(marks) + AllPages(libs, kind)
    requires l < |libs| && i < |libs[l].segs| && KindOf(libs[l].segs[i], libs[l].hasSplitSegInfo) == kind
    ensures libs[l].segs[i].newAddress
            == First(marks) + AllPages(libs[..l], kind) + Pages(libs[l].segs, i, libs[l].hasSplitSegInfo, kind)
  {
    hide LibStacked, ResetSizes, Pages;
    TowerHeight(libs, kind, marks, l);
    TowerDepth(libs, kind, marks, l + 1);
    assert libs[..l + 1][..l] == libs[..l];
    LibHeight(libs[l], kind, marks[l], marks[l + 1]);
    PackedAddress(libs[l], kind, marks[l], marks[l + 1], i);
  }

  // ----- from the dylibs before the layout

  /** The outcome of the three passes. */
  ghost predicate LaidOut(arch: Arch, before: seq<Dylib>, libs: seq<Dylib>, layout: Layout) {
    Settled(arch, before, libs) && Assigned(arch, libs, layout) && Tight(arch, libs, layout)
  }

  const ALL_KINDS := {Text, Data, Import, ReadOnly, LinkEdit}

  lemma SettledMoved(arch: Arch, a: Dylib, b: Dylib)
    requires SettledLib(arch, a, b)
    ensures OnlyMoved(a, b, ALL_KINDS) && ResetSizes(b)
  {
    hide HeaderPlaced, InStep;
    assert forall i | 0 <= i < |a.segs| :: Relocated(a.segs[i], b.segs[i]);
  }

  lemma {:induction false} SettledPages(arch: Arch, a: seq<Dylib>, b: seq<Dylib>, kind: Kind)
    requires Settled(arch, a, b)
    ensures AllPages(a, kind) == AllPages(b, kind)
  {
    hide SettledLib, OnlyMoved, ResetSizes;
    forall l | 0 <= l < |a|
      ensures OnlyMoved(a[l], b[l], ALL_KINDS) && ResetSizes(b[l])
    {
      SettledMoved(arch, a[l], b[l]);
    }
    SumsKept(a, b, ALL_KINDS, kind);
  }

  /** Where the segments of a kind begin, by the sizes of all segments. On ppc the 64K steps of the data decide where
      its imports begin. */
  function RegionBase(arch: Arch, libs: seq<Dylib>, kind: Kind): nat {
    var text := ReadOnlyStart(arch) + HEADER_SIZE;
    match kind
    case Text => text
    case Data => WritableStart(arch)
    case Import => RoundUp2MB(WritableStart(arch) + AllPages(libs, Data))
    case ReadOnly => text + AllPages(libs, Text)
    case LinkEdit => text + AllPages(libs, Text) + AllPages(libs, ReadOnly)
  }

  /** Where a segment goes. */
  function AddressFor(arch: Arch, libs: seq<Dylib>, l: nat, i: nat): nat
    requires l < |libs| && i < |libs[l].segs|
  {
    var lib := libs[l];
    var kind := KindOf(lib.segs[i], lib.hasSplitSegInfo);
    RegionBase(arch, libs, kind) + AllPages(libs[..l], kind) + Pages(lib.segs, i, lib.hasSplitSegInfo, kind)
  }

  lemma {:induction false} PrefixSettled(arch: Arch, before: seq<Dylib>, libs: seq<Dylib>, l: nat, i: nat, kind: Kind)
    requires Settled(arch, before, libs) && l < |libs| && i <= |libs[l].segs|
    ensures |before| == |libs| && |before[l].segs| == |libs[l].segs|
    ensures before[l].hasSplitSegInfo == libs[l].hasSplitSegInfo
    ensures AllPages(before[..l], kind) == AllPages(libs[..l], kind)
    ensures Pages(before[l].segs, i, before[l].hasSplitSegInfo, kind)
            == Pages(libs[l].segs, i, libs[l].hasSplitSegInfo, kind)
    ensures i < |libs[l].segs| ==> Relocated(before[l].segs[i], libs[l].segs[i])
  {
    hide OnlyMoved, HeaderPlaced, InStep, Pages, AllPages;
    assert Settled(arch, before[..l], libs[..l]);
    SettledPages(arch, before[..l], libs[..l], kind);
    SettledMoved(arch, before[l], libs[l]);
    PagesKept(before[l], libs[l], ALL_KINDS, i, kind);
  }

  /** The three passes put every segment where the sizes say, whatever new addresses the segments had before. On ppc
      that goes for the segments outside the writable region. */
  lemma PlacedExactly(arch: Arch, before: seq<Dylib>, libs: seq<Dylib>, layout: Layout, l: nat, i: nat)
    requires LaidOut(arch, before, libs, layout) && l < |libs| && i < |libs[l].segs|
    requires arch != Ppc || KindOf(libs[l].segs[i], libs[l].hasSplitSegInfo) in {Text, ReadOnly, LinkEdit}
    ensures |before| == |libs| && i < |before[l].segs|
    ensures libs[l].segs[i].newAddress == AddressFor(arch, before, l, i)
  {
    hide Settled, Tower, Pages, AllPages, ResetSizes, RoundUp2MB, ReadOnlyStart, WritableStart;
    var kind := KindOf(libs[l].segs[i], libs[l].hasSplitSegInfo);
    PrefixSettled(arch, before, libs, l, i, kind);
    SettledPages(arch, before, libs, Text);
    SettledPages(arch, before, libs, Data);
    SettledPages(arch, before, libs, ReadOnly);
    ExactAddress(libs, kind, MarksOf(layout, kind), l, i);
  }

  /** On ppc the imports begin on some 2 MB boundary. */
  lemma {:induction false} PpcImport(before: seq<Dylib>, libs: seq<Dylib>, layout: Layout, l: nat, i: nat)
    requires LaidOut(Ppc, before, libs, layout) && l < |libs| && i < |libs[l].segs|
    requires KindOf(libs[l].segs[i], libs[l].hasSplitSegInfo) == Import
    ensures |before| == |libs| && i < |before[l].segs|
    ensures layout.data != [] && libs[l].segs[i].newAddress
            == RoundUp2MB(Last(layout.data)) + AllPages(before[..l], Import)
               + Pages(before[l].segs, i, before[l].hasSplitSegInfo, Import)
  {
    hide Settled, Tower, Pages, AllPages, ResetSizes, RoundUp2MB;
    PrefixSettled(Ppc, before, libs, l, i, Import);
    ExactAddress(libs, Import, layout.import_, l, i);
  }

  /** The first text segment comes right behind the header, the first data segment at the start of its region. */
  lemma FirstAddresses(arch: Arch, before: seq<Dylib>, libs: seq<Dylib>, layout: Layout)
    requires LaidOut(arch, before, libs, layout) && libs != [] && libs[0].segs != []
    ensures var s := libs[0].segs[0];
            s.executable && !s.writable ==>
              && (arch == Ppc || arch == X86 ==> s.newAddress == 0x9000_3000)
              && (arch == X86_64 ==> s.newAddress == 0x7FFF_8000_3000)
              && (arch == Arm ==> s.newAddress == 0x3000_3000)
    ensures var s := libs[0].segs[0];
            s.writable && !s.executable ==>
              && (arch == X86 ==> s.newAddress == 0xA000_0000)
              && (arch == X86_64 ==> s.newAddress == 0x7FFF_7000_0000)
              && (arch == Arm ==> s.newAddress == 0x3800_0000)
  {
    hide Settled, Assigned, Tight, RoundUp2MB;
    var s := libs[0].segs[0];
    if (s.executable && !s.writable) || (arch != Ppc && s.writable && !s.executable) {
      PlacedExactly(arch, before, libs, layout, 0, 0);
      PrefixSettled(arch, before, libs, 0, 0, Text);
      NothingBefore(before, Text);
      NothingBefore(before, Data);
    }
  }

  lemma {:induction false} NothingBefore(libs: seq<Dylib>, kind: Kind)
    requires libs != []
    ensures AllPages(libs[..0], kind) == 0 && Pages(libs[0].segs, 0, libs[0].hasSplitSegInfo, kind) == 0
  {
  }
}
