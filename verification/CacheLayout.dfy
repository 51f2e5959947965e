/** Assigning every segment of every dylib its address in the cache, and the mappings of the file. */
module CacheLayout {
  import opened Bytes
  import opened Segments

  datatype Arch = Ppc | X86 | X86_64 | Arm

  function ReadOnlyStart(arch: Arch): u64 {
    match arch
    case Ppc => 0x9000_0000
    case X86 => 0x9000_0000
    case X86_64 => 0x7FFF_8000_0000
    case Arm => 0x3000_0000
  }

  function WritableStart(arch: Arch): u64 {
    match arch
    case Ppc => 0xA000_0000
    case X86 => 0xA000_0000
    case X86_64 => 0x7FFF_7000_0000
    case Arm => 0x3800_0000
  }

  const HEADER_SIZE := 0x3000
  const PAGE := 4096
  const LIMIT := 0x1000_0000_0000_0000

  function PageAlign(a: nat): (r: nat)
    ensures r % 0x1000 == 0 && a <= r < a + 0x1000
  {
    (a + 4095) / PAGE * PAGE
  }

  // ----- kinds of segments

  datatype Kind = Text | Data | Import | ReadOnly | LinkEdit

  /** Which pass places a segment; `split` says whether the dylib has split-segment information. */
  function KindOf(seg: Segment, split: bool): Kind {
    if seg.writable then if seg.executable && split then Import else Data
    else if seg.executable then Text
    else if seg.linkEdit then LinkEdit
    else ReadOnly
  }

  datatype Dylib = Dylib(hasSplitSegInfo: bool, address: u64, segs: seq<Segment>)

  /** The segments of one kind lie in order, each on its own pages, between two addresses. */
  ghost predicate Stacked(segs: seq<Segment>, n: nat, split: bool, kind: Kind, lo: nat, hi: nat)
    requires n <= |segs|
  {
    && lo <= hi
    && (forall i | 0 <= i < n && KindOf(segs[i], split) == kind ::
          segs[i].newAddress % PAGE == 0 && lo <= segs[i].newAddress
          && segs[i].newAddress + PageAlign(segs[i].size) <= hi)
    && (forall i, j | 0 <= i < j < n && KindOf(segs[i], split) == kind && KindOf(segs[j], split) == kind ::
          segs[i].newAddress + PageAlign(segs[i].size) <= segs[j].newAddress)
  }

  /** The pages the segments of one kind need. */
  function Pages(segs: seq<Segment>, n: nat, split: bool, kind: Kind): nat
    requires n <= |segs|
  {
    if n == 0 then 0
    else
      Pages(segs, n - 1, split, kind)
      + if KindOf(segs[n - 1], split) == kind then PageAlign(segs[n - 1].origSize) else 0
  }

  /** More than enough room for the first `n` segments, wherever they go. */
  function Room(segs: seq<Segment>, n: nat): nat
    requires n <= |segs|
  {
    if n == 0 then 0 else Room(segs, n - 1) + segs[n - 1].origSize + 0x12000
  }

  // ----- the 64K steps of ppc

  /** Bits 12 to 15 of a 64-bit number. */
  function Nibble(x: int): (r: nat)
    ensures r < 0x10000 && r % PAGE == 0
  {
    x % 0x10000 / PAGE * PAGE
  }

  function WritableAddress(arch: Arch, proposed: u64, original: u64, executableSlide: int): (a: nat)
    ensures proposed <= a < proposed + 0x10000
    ensures arch != Ppc ==> a == proposed
    ensures proposed % PAGE == 0 ==> a % PAGE == 0
  {
    if arch == Ppc then
      NibbleSum(Nibble(executableSlide) - Nibble(proposed - original), proposed);
      Nibble(Nibble(executableSlide) - Nibble(proposed - original)) + proposed
    else proposed
  }

  lemma NibbleSum(x: int, p: nat)
    ensures p % PAGE == 0 ==> (Nibble(x) + p) % PAGE == 0
  {
  }

  /** On ppc a data segment moves by the same amount as the code before it, up to multiples of 64K. */
  lemma MovesInSteps(proposed: u64, original: u64, executableSlide: int)
    requires proposed % PAGE == 0 && original % PAGE == 0 && executableSlide % PAGE == 0
    ensures (WritableAddress(Ppc, proposed, original, executableSlide) - original - executableSlide) % 0x10000 == 0
  {
    var a, b := executableSlide, proposed - original;
    AlignedNibble(a);
    AlignedDifference(proposed, original);
    AlignedNibble(b);
    var d := Nibble(a) - Nibble(b);
    AlignedDifference(Nibble(a), Nibble(b));
    AlignedNibble(d);
    SameResidue(a, b);
  }

  lemma AlignedDifference(x: int, y: int)
    requires x % PAGE == 0 && y % PAGE == 0
    ensures (x - y) % PAGE == 0
  {
  }

  lemma AlignedNibble(x: int)
    requires x % PAGE == 0
    ensures Nibble(x) == x % 0x10000
  {
    var q := x / PAGE;
    assert x == q * PAGE;
    assert x % 0x10000 == q % 16 * PAGE;
  }

  lemma SameResidue(a: int, b: int)
    ensures ((a % 0x10000 - b % 0x10000) % 0x10000 + b - a) % 0x10000 == 0
  {
    var x, y := a / 0x10000, b / 0x10000;
    var d := a % 0x10000 - b % 0x10000;
    var z := d / 0x10000;
    assert (d % 0x10000 + b - a) == 0x10000 * (y - x - z);
  }

  // ----- what a pass leaves alone

  /** The same segment, perhaps somewhere else: its size is the original one again. */
  predicate Relocated(a: Segment, b: Segment) {
    b == a.(size := a.origSize, newAddress := b.newAddress)
  }

  /** A pass moves segments of the given kinds only. */
  ghost predicate OnlyMoved(a: Dylib, b: Dylib, kinds: set<Kind>) {
    && b.hasSplitSegInfo == a.hasSplitSegInfo && |b.segs| == |a.segs|
    && forall i | 0 <= i < |a.segs| ::
         && Relocated(a.segs[i], b.segs[i])
         && (KindOf(a.segs[i], a.hasSplitSegInfo) !in kinds ==> b.segs[i].newAddress == a.segs[i].newAddress)
  }

  /** Sizes are back at their original values. */
  ghost predicate ResetSizes(lib: Dylib) {
    forall i | 0 <= i < |lib.segs| :: lib.segs[i].size == lib.segs[i].origSize
  }

  lemma StackedKept(a: Dylib, b: Dylib, kinds: set<Kind>, kind: Kind, lo: nat, hi: nat)
    requires OnlyMoved(a, b, kinds) && kind !in kinds && ResetSizes(a)
    requires Stacked(a.segs, |a.segs|, a.hasSplitSegInfo, kind, lo, hi)
    ensures Stacked(b.segs, |b.segs|, b.hasSplitSegInfo, kind, lo, hi)
  {
    hide PageAlign;
    forall i | 0 <= i < |a.segs| && KindOf(b.segs[i], b.hasSplitSegInfo) == kind
      ensures KindOf(a.segs[i], a.hasSplitSegInfo) == kind && b.segs[i] == a.segs[i]
    {
      assert Relocated(a.segs[i], b.segs[i]);
    }
  }

  /** One more segment: it is of another kind, or it lies on the next free pages. */
  lemma StackedNext(segs: seq<Segment>, segs': seq<Segment>, i: nat, split: bool, kind: Kind, lo: nat, mid: nat,
                    hi: nat)
    requires i < |segs| == |segs'| && segs'[..i] == segs[..i] && Stacked(segs, i, split, kind, lo, mid)
    requires if KindOf(segs'[i], split) == kind then
               mid <= segs'[i].newAddress && segs'[i].newAddress % PAGE == 0
               && hi == segs'[i].newAddress + PageAlign(segs'[i].size)
             else hi == mid
    ensures Stacked(segs', i + 1, split, kind, lo, hi)
  {
    hide PageAlign;
    assert forall k | 0 <= k < i :: segs'[k] == segs[..i][k] == segs[k];
  }

  // ----- first pass: text and data

  /** A data segment of a split dylib needs a text segment before it. */
  predicate Splittable(segs: seq<Segment>, n: nat, split: bool)
    requires n <= |segs|
  {
    split ==>
      forall i | 0 <= i < n && KindOf(segs[i], split) == Data :: exists j | 0 <= j < i :: KindOf(segs[j], split) == Text
  }

  /** The last text segment before position `n`. */
  function LastText(segs: seq<Segment>, n: nat, split: bool): (j: nat)
    requires n <= |segs|
    ensures j <= n && (j < n ==> KindOf(segs[j], split) == Text)
    ensures forall k | 0 <= k < n && KindOf(segs[k], split) == Text :: j < n && k <= j
  {
    if n == 0 then 0
    else if KindOf(segs[n - 1], split) == Text then n - 1
    else
      var j := LastText(segs, n - 1, split);
      if j == n - 1 then n else j
  }

  /** A data segment moves like the text before it, up to multiples of 64K. */
  ghost predicate InStepAt(segs: seq<Segment>, i: nat, split: bool)
    requires i < |segs|
  {
    KindOf(segs[i], split) == Data ==>
      var j := LastText(segs, i, split);
      j < i && (segs[i].address % PAGE == 0 && segs[j].address % PAGE == 0 ==> MovesAlike(segs[i], segs[j]))
  }

  predicate MovesAlike(a: Segment, b: Segment) {
    (a.newAddress - a.address - (b.newAddress - b.address)) % 0x10000 == 0
  }

  ghost predicate InStep(segs: seq<Segment>, n: nat, arch: Arch, split: bool)
    requires n <= |segs|
  {
    arch == Ppc && split ==> forall i | 0 <= i < n :: InStepAt(segs, i, split)
  }

  /** One segment of the first pass. */
  method PlaceOne(arch: Arch, seg: Segment, split: bool, executableSegment: Option<Segment>, currentExecute: u64,
                  currentWritable: u64)
    returns (ok: bool, placed: Segment, execute: u64, writable: u64)
    requires currentExecute % PAGE == 0 && currentWritable % PAGE == 0
    requires currentExecute + currentWritable + seg.origSize + 0x12000 < LIMIT
    ensures ok <==> !(split && KindOf(seg, split) == Data && executableSegment.None?)
    ensures ok ==> Relocated(seg, placed) && execute % PAGE == 0 && writable % PAGE == 0
    ensures ok ==> execute + writable <= currentExecute + currentWritable + seg.origSize + 0x12000
    ensures ok && KindOf(seg, split) == Text ==>
              placed.newAddress == currentExecute && execute == currentExecute + PageAlign(seg.origSize)
              && writable == currentWritable
    ensures ok && KindOf(seg, split) == Data ==>
              && execute == currentExecute && writable == placed.newAddress + PageAlign(seg.origSize)
              && placed.newAddress % PAGE == 0 && currentWritable <= placed.newAddress < currentWritable + 0x10000
              && (!(arch == Ppc && split) ==> placed.newAddress == currentWritable)
              && (split ==>
                    var text := executableSegment.value;
                    placed.newAddress
                    == WritableAddress(arch, currentWritable, seg.address, text.newAddress - text.address))
    ensures ok && KindOf(seg, split) != Text && KindOf(seg, split) != Data ==>
              placed.newAddress == seg.newAddress && execute == currentExecute && writable == currentWritable
  {
    ok, placed, execute, writable := true, seg.(size := seg.origSize), currentExecute, currentWritable;
    if seg.writable {
      if seg.executable && split {
        // __IMPORT segments are skipped in this pass
      } else {
        if split {
          if executableSegment == None {
            return false, placed, execute, writable;
          }
          var slide := executableSegment.value.newAddress - executableSegment.value.address;
          placed := placed.(newAddress := WritableAddress(arch, currentWritable, seg.address, slide));
        } else {
          placed := placed.(newAddress := currentWritable);
        }
        AlignSum(placed.newAddress, placed.size);
        writable := PageAlign(placed.newAddress + placed.size);
      }
    } else if seg.executable {
      placed := placed.(newAddress := currentExecute);
      execute := currentExecute + PageAlign(placed.size);
    } else {
      // read-only segments are skipped in this pass
    }
  }

  lemma AlignSum(a: nat, n: nat)
    requires a % PAGE == 0
    ensures PageAlign(a + n) == a + PageAlign(n)
  {
    var q := a / PAGE;
    assert a == q * PAGE;
    assert (a + n + 4095) / PAGE == q + (n + 4095) / PAGE;
  }

  /** What has been done to a dylib when its first `i` segments are through the first pass. */
  ghost predicate Placing(arch: Arch, lib: Dylib, segs: seq<Segment>, i: nat, e0: nat, w0: nat, e: nat, w: nat) {
    var split := lib.hasSplitSegInfo;
    && i <= |lib.segs| == |segs| && segs[i..] == lib.segs[i..]
    && (forall k | 0 <= k < i :: Reassigned(lib.segs[k], segs[k], split))
    && Stacked(segs, i, split, Text, e0, e) && Stacked(segs, i, split, Data, w0, w)
    && e % PAGE == 0 && w % PAGE == 0 && e + w <= e0 + w0 + Room(lib.segs, i)
    && e == e0 + Pages(lib.segs, i, split, Text)
    && (!(arch == Ppc && split) ==> w == w0 + Pages(lib.segs, i, split, Data))
    && InStep(segs, i, arch, split)
  }

  predicate Reassigned(a: Segment, b: Segment, split: bool) {
    Relocated(a, b) && (KindOf(a, split) != Text && KindOf(a, split) != Data ==> b.newAddress == a.newAddress)
  }

  lemma {:induction false} LastTextAgrees(a: seq<Segment>, b: seq<Segment>, n: nat, split: bool)
    requires n <= |a| && n <= |b| && forall k | 0 <= k < n :: KindOf(a[k], split) == KindOf(b[k], split)
    ensures LastText(a, n, split) == LastText(b, n, split)
  {
    if n > 0 { LastTextAgrees(a, b, n - 1, split); }
  }

  /** What PlaceOne did to segment `i`. */
  ghost predicate Step(arch: Arch, lib: Dylib, segs: seq<Segment>, i: nat, e: nat, w: nat, seg: Segment, e': nat,
                       w': nat)
    requires i < |lib.segs| == |segs|
  {
    var split, a := lib.hasSplitSegInfo, lib.segs[i];
    && Reassigned(a, seg, split) && e' % PAGE == 0 && w' % PAGE == 0 && e' + w' <= e + w + a.origSize + 0x12000
    && (KindOf(a, split) == Text ==> seg.newAddress == e && e' == e + PageAlign(a.origSize) && w' == w)
    && (KindOf(a, split) == Data ==>
          && e' == e && w' == seg.newAddress + PageAlign(a.origSize) && seg.newAddress % PAGE == 0
           && w <= seg.newAddress
          && (!(arch == Ppc && split) ==> seg.newAddress == w)
          && (arch == Ppc && split ==>
                var j := LastText(lib.segs, i, split);
                j < i && seg.newAddress == WritableAddress(arch, w, a.address, segs[j].newAddress - segs[j].address)))
    && (KindOf(a, split) != Text && KindOf(a, split) != Data ==> e' == e && w' == w)
  }

  lemma PlacingNext(arch: Arch, lib: Dylib, segs: seq<Segment>, i: nat, e0: nat, w0: nat, e: nat, w: nat, seg: Segment,
                    e': nat, w': nat)
    requires Placing(arch, lib, segs, i, e0, w0, e, w) && i < |lib.segs| && 0 <= w < TWO64
    requires Step(arch, lib, segs, i, e, w, seg, e', w')
    ensures Placing(arch, lib, segs[i := seg], i + 1, e0, w0, e', w')
  {
    hide PageAlign, WritableAddress, Stacked, InStep, LastText;
    var segs' := segs[i := seg];
    StackedNext(segs, segs', i, lib.hasSplitSegInfo, Text, e0, e, e');
    StackedNext(segs, segs', i, lib.hasSplitSegInfo, Data, w0, w, w');
    TextAligned(lib, segs, i, e0, e);
    InStepNext(arch, lib, segs, i, w, seg);
    assert segs'[i + 1..] == lib.segs[i + 1..] by {
      assert segs'[i + 1..] == segs[i..][1..];
      assert lib.segs[i + 1..] == lib.segs[i..][1..];
    }
  }

  lemma TextAligned(lib: Dylib, segs: seq<Segment>, i: nat, lo: nat, hi: nat)
    requires i <= |segs| && Stacked(segs, i, lib.hasSplitSegInfo, Text, lo, hi)
    ensures forall k | 0 <= k < i && KindOf(segs[k], lib.hasSplitSegInfo) == Text :: segs[k].newAddress % PAGE == 0
  {
  }

  lemma {:induction false} InStepNext(arch: Arch, lib: Dylib, segs: seq<Segment>, i: nat, w: nat, seg: Segment)
    requires i < |lib.segs| == |segs| && InStep(segs, i, arch, lib.hasSplitSegInfo) && 0 <= w < TWO64 && w % PAGE == 0
    requires forall k | 0 <= k < i :: Reassigned(lib.segs[k], segs[k], lib.hasSplitSegInfo)
    requires Reassigned(lib.segs[i], seg, lib.hasSplitSegInfo)
    requires arch == Ppc && lib.hasSplitSegInfo && KindOf(lib.segs[i], lib.hasSplitSegInfo) == Data ==>
               var j := LastText(lib.segs, i, lib.hasSplitSegInfo);
               j < i
               && seg.newAddress == WritableAddress(arch, w, lib.segs[i].address, segs[j].newAddress - segs[j].address)
    requires forall k | 0 <= k < i && KindOf(segs[k], lib.hasSplitSegInfo) == Text :: segs[k].newAddress % PAGE == 0
    ensures InStep(segs[i := seg], i + 1, arch, lib.hasSplitSegInfo)
  {
    hide WritableAddress, LastText, MovesAlike;
    var split, segs' := lib.hasSplitSegInfo, segs[i := seg];
    if arch == Ppc && split {
      forall h | 0 <= h < i
        ensures InStepAt(segs', h, split)
      {
        assert InStepAt(segs, h, split);
        LastTextAgrees(segs, segs', h, split);
      }
      LastTextAgrees(segs, segs', i, split);
      LastTextAgrees(segs, lib.segs, i, split);
      if KindOf(seg, split) == Data {
        StepAlike(w, seg, segs[LastText(segs, i, split)]);
      }
    }
  }

  lemma StepAlike(w: u64, a: Segment, b: Segment)
    requires w % PAGE == 0 && b.newAddress % PAGE == 0
    requires a.newAddress == WritableAddress(Ppc, w, a.address, b.newAddress - b.address)
    ensures a.address % PAGE == 0 && b.address % PAGE == 0 ==> MovesAlike(a, b)
  {
    hide WritableAddress;
    if a.address % PAGE == 0 && b.address % PAGE == 0 {
      AlignedDifference(b.newAddress, b.address);
      MovesInSteps(w, a.address, b.newAddress - b.address);
    }
  }

  /** The text segment a data segment at position `i` goes with. */
  function TextBefore(lib: Dylib, segs: seq<Segment>, i: nat): Option<Segment>
    requires i <= |lib.segs| == |segs|
  {
    var j := LastText(lib.segs, i, lib.hasSplitSegInfo);
    if j < i then Some(segs[j]) else None
  }

  lemma TextNext(lib: Dylib, segs: seq<Segment>, i: nat, seg: Segment)
    requires i < |lib.segs| == |segs|
    ensures TextBefore(lib, segs[i := seg], i + 1)
            == if KindOf(lib.segs[i], lib.hasSplitSegInfo) == Text then Some(seg) else TextBefore(lib, segs, i)
  {
  }

  lemma SplittableNext(lib: Dylib, segs: seq<Segment>, i: nat)
    requires i < |lib.segs| == |segs| && Splittable(lib.segs, i, lib.hasSplitSegInfo)
    ensures var split := lib.hasSplitSegInfo;
            Splittable(lib.segs, i + 1, split)
            <==> !(split && KindOf(lib.segs[i], split) == Data && TextBefore(lib, segs, i) == None)
  {
    var j := LastText(lib.segs, i, lib.hasSplitSegInfo);
    if j < i {
      assert KindOf(lib.segs[j], lib.hasSplitSegInfo) == Text;
    }
  }

  lemma SplittableFails(lib: Dylib, i: nat)
    requires i <= |lib.segs| && !Splittable(lib.segs, i, lib.hasSplitSegInfo)
    ensures !Splittable(lib.segs, |lib.segs|, lib.hasSplitSegInfo)
  {
  }

  /** The first text segment among the first `n`. */
  function FirstText(segs: seq<Segment>, n: nat, split: bool): (j: nat)
    requires n <= |segs|
    ensures j <= n && (j < n ==> KindOf(segs[j], split) == Text)
    ensures forall k | 0 <= k < j :: KindOf(segs[k], split) != Text
  {
    if n == 0 then 0
    else
      var j := FirstText(segs, n - 1, split);
      if j < n - 1 || KindOf(segs[n - 1], split) == Text then j else n
  }

  /** The address recorded for the dylib: the one given before, or that of its first text segment. */
  predicate HeaderAt(lib: Dylib, segs: seq<Segment>, n: nat, address: nat)
    requires n <= |lib.segs| == |segs|
  {
    var j := FirstText(lib.segs, n, lib.hasSplitSegInfo);
    address == if lib.address == 0 && j < n then segs[j].newAddress else lib.address
  }

  lemma HeaderStart(lib: Dylib)
    ensures HeaderAt(lib, lib.segs, 0, lib.address) && TextBefore(lib, lib.segs, 0) == None
    ensures Splittable(lib.segs, 0, lib.hasSplitSegInfo)
  {
  }

  lemma HeaderStep(lib: Dylib, segs: seq<Segment>, i: nat, address: nat, seg: Segment)
    requires i < |lib.segs| == |segs| && HeaderAt(lib, segs, i, address)
    requires KindOf(lib.segs[i], lib.hasSplitSegInfo) == Text ==> seg.newAddress > 0
    requires forall k | 0 <= k < i && KindOf(lib.segs[k], lib.hasSplitSegInfo) == Text :: segs[k].newAddress > 0
    ensures HeaderAt(lib, segs[i := seg], i + 1,
                     if KindOf(lib.segs[i], lib.hasSplitSegInfo) == Text && address == 0 then seg.newAddress
                     else address)
  {
  }

  lemma PlacingStart(arch: Arch, lib: Dylib, e0: nat, w0: nat)
    requires e0 % PAGE == 0 && w0 % PAGE == 0
    ensures Placing(arch, lib, lib.segs, 0, e0, w0, e0, w0)
  {
  }

  lemma {:induction false} RoomGrows(segs: seq<Segment>, i: nat, n: nat)
    requires i <= n <= |segs|
    ensures Room(segs, i) <= Room(segs, n)
    decreases n - i
  {
    if i < n { RoomGrows(segs, i, n - 1); }
  }

  lemma PlacingRoom(arch: Arch, lib: Dylib, segs: seq<Segment>, i: nat, e0: nat, w0: nat, e: nat, w: nat)
    requires Placing(arch, lib, segs, i, e0, w0, e, w) && i < |lib.segs|
    ensures segs[i] == lib.segs[i] && e % PAGE == 0 && w % PAGE == 0
    ensures e + w + segs[i].origSize + 0x12000 <= e0 + w0 + Room(lib.segs, |lib.segs|)
    ensures forall k | 0 <= k < i && KindOf(lib.segs[k], lib.hasSplitSegInfo) == Text :: segs[k].newAddress >= e0
    ensures e0 <= e
  {
    hide PageAlign, InStep;
    RoomGrows(lib.segs, i + 1, |lib.segs|);
    assert segs[i] == segs[i..][0] && lib.segs[i] == lib.segs[i..][0];
    forall k | 0 <= k < i && KindOf(lib.segs[k], lib.hasSplitSegInfo) == Text
      ensures segs[k].newAddress >= e0
    {
      assert Reassigned(lib.segs[k], segs[k], lib.hasSplitSegInfo);
    }
  }

  /** The first pass over one dylib. */
  method PlaceTextAndData(arch: Arch, lib: Dylib, currentExecute: u64, currentWritable: u64)
    returns (ok: bool, placed: Dylib, execute: u64, writable: u64)
    requires currentExecute % PAGE == 0 && currentWritable % PAGE == 0 && currentExecute > 0
    requires currentExecute + currentWritable + Room(lib.segs, |lib.segs|) < LIMIT
    ensures ok <==> Splittable(lib.segs, |lib.segs|, lib.hasSplitSegInfo)
    ensures ok ==> placed.hasSplitSegInfo == lib.hasSplitSegInfo
    ensures ok ==> Placing(arch, lib, placed.segs, |lib.segs|, currentExecute, currentWritable, execute, writable)
    ensures ok ==> |placed.segs| == |lib.segs| && HeaderAt(lib, placed.segs, |lib.segs|, placed.address)
  {
    hide Placing, PageAlign, WritableAddress, Room, HeaderAt, Splittable, LastText;
    var split, segs, address := lib.hasSplitSegInfo, lib.segs, lib.address;
    var executableSegment: Option<Segment> := None;
    execute, writable := currentExecute, currentWritable;
    PlacingStart(arch, lib, currentExecute, currentWritable);
    HeaderStart(lib);
    var i := 0;
    while i < |segs|
      invariant i <= |segs| == |lib.segs|
      invariant Placing(arch, lib, segs, i, currentExecute, currentWritable, execute, writable)
      invariant Splittable(lib.segs, i, split)
      invariant executableSegment == TextBefore(lib, segs, i)
      invariant HeaderAt(lib, segs, i, address)
    {
      PlacingRoom(arch, lib, segs, i, currentExecute, currentWritable, execute, writable);
      SplittableNext(lib, segs, i);
      var seg, e, w := segs[i], execute, writable;
      var placedSeg;
      ok, placedSeg, execute, writable := PlaceOne(arch, seg, split, executableSegment, e, w);
      if !ok {
        SplittableFails(lib, i + 1);
        return false, lib, e, w;
      }
      PlacingNext(arch, lib, segs, i, currentExecute, currentWritable, e, w, placedSeg, execute, writable);
      TextNext(lib, segs, i, placedSeg);
      HeaderStep(lib, segs, i, address, placedSeg);
      segs := segs[i := placedSeg];
      if KindOf(seg, split) == Text {
        executableSegment := Some(placedSeg);
        if address == 0 {
          address := placedSeg.newAddress;
        }
      }
      i := i + 1;
    }
    placed := Dylib(split, address, segs);
    ok := true;
  }

  // ----- second and third pass: read-only, import and link-edit segments

  /** The first `i` segments are through a later pass, which stacks segments of the given kinds only. */
  ghost predicate Through(lib: Dylib, segs: seq<Segment>, i: nat, kinds: set<Kind>) {
    && i <= |lib.segs| == |segs| && segs[i..] == lib.segs[i..]
    && forall k | 0 <= k < i :: MovedOnly(lib.segs[k], segs[k], lib.hasSplitSegInfo, kinds)
  }

  predicate MovedOnly(a: Segment, b: Segment, split: bool, kinds: set<Kind>) {
    Relocated(a, b) && (KindOf(a, split) !in kinds ==> b.newAddress == a.newAddress)
  }

  /** And the segments of one of these kinds, packed without gaps. */
  ghost predicate Packed(lib: Dylib, segs: seq<Segment>, i: nat, kind: Kind, lo: nat, hi: nat)
    requires i <= |lib.segs| == |segs|
  {
    && Stacked(segs, i, lib.hasSplitSegInfo, kind, lo, hi)
    && hi % PAGE == 0 && hi == lo + Pages(lib.segs, i, lib.hasSplitSegInfo, kind)
  }

  lemma PackedNext(lib: Dylib, segs: seq<Segment>, i: nat, kind: Kind, lo: nat, hi: nat, seg: Segment)
    requires i < |lib.segs| == |segs| && Packed(lib, segs, i, kind, lo, hi)
    requires ResetSizes(lib) && Relocated(lib.segs[i], seg)
    requires KindOf(seg, lib.hasSplitSegInfo) == kind ==> seg.newAddress == hi
    ensures Packed(lib, segs[i := seg], i + 1, kind, lo,
                   hi + if KindOf(seg, lib.hasSplitSegInfo) == kind then PageAlign(seg.size) else 0)
  {
    hide PageAlign, Stacked;
    StackedNext(segs, segs[i := seg], i, lib.hasSplitSegInfo, kind, lo, hi,
                hi + if KindOf(seg, lib.hasSplitSegInfo) == kind then PageAlign(seg.size) else 0);
  }

  lemma {:induction false} PagesInRoom(segs: seq<Segment>, n: nat, split: bool, a: Kind, b: Kind)
    requires n <= |segs| && a != b
    ensures Pages(segs, n, split, a) + Pages(segs, n, split, b) <= Room(segs, n)
  {
    if n > 0 { PagesInRoom(segs, n - 1, split, a, b); }
  }

  lemma ThroughNext(lib: Dylib, segs: seq<Segment>, i: nat, kinds: set<Kind>, seg: Segment)
    requires Through(lib, segs, i, kinds) && i < |lib.segs| && MovedOnly(lib.segs[i], seg, lib.hasSplitSegInfo, kinds)
    ensures Through(lib, segs[i := seg], i + 1, kinds)
  {
    assert segs[i := seg][i + 1..] == segs[i..][1..];
    assert lib.segs[i + 1..] == lib.segs[i..][1..];
  }

  lemma {:induction false} PagesRoomAt(lib: Dylib, i: nat, a: Kind, b: Kind)
    requires i < |lib.segs| && a != b
    ensures Pages(lib.segs, i, lib.hasSplitSegInfo, a) + Pages(lib.segs, i, lib.hasSplitSegInfo, b)
            + lib.segs[i].origSize + 0x12000
            <= Room(lib.segs, |lib.segs|)
  {
    PagesInRoom(lib.segs, i, lib.hasSplitSegInfo, a, b);
    RoomGrows(lib.segs, i + 1, |lib.segs|);
  }

  /** The second pass over one dylib. */
  method PlaceReadOnlyAndImport(lib: Dylib, currentReadOnly: u64, currentWritableExecutable: u64)
    returns (placed: Dylib, readOnly: u64, writableExecutable: u64)
    requires ResetSizes(lib) && currentReadOnly % PAGE == 0 && currentWritableExecutable % PAGE == 0
    requires currentReadOnly + currentWritableExecutable + Room(lib.segs, |lib.segs|) < LIMIT
    ensures placed == lib.(segs := placed.segs) && Through(lib, placed.segs, |lib.segs|, {ReadOnly, Import})
    ensures Packed(lib, placed.segs, |lib.segs|, ReadOnly, currentReadOnly, readOnly)
    ensures Packed(lib, placed.segs, |lib.segs|, Import, currentWritableExecutable, writableExecutable)
  {
    hide PageAlign, Packed, Room;
    var segs := lib.segs;
    readOnly, writableExecutable := currentReadOnly, currentWritableExecutable;
    PackedStart(lib, readOnly, ReadOnly);
    PackedStart(lib, writableExecutable, Import);
    var i := 0;
    while i < |segs|
      invariant i <= |segs| == |lib.segs| && Through(lib, segs, i, {ReadOnly, Import})
      invariant Packed(lib, segs, i, ReadOnly, currentReadOnly, readOnly)
      invariant Packed(lib, segs, i, Import, currentWritableExecutable, writableExecutable)
    {
      PagesRoomAt(lib, i, ReadOnly, Import);
      PackedEnd(lib, segs, i, ReadOnly, currentReadOnly, readOnly);
      PackedEnd(lib, segs, i, Import, currentWritableExecutable, writableExecutable);
      assert segs[i] == segs[i..][0] && lib.segs[i] == lib.segs[i..][0];
      var seg := segs[i];
      ghost var r, x := readOnly, writableExecutable;
      if !seg.writable && !seg.executable && !seg.linkEdit {
        seg := seg.(newAddress := readOnly);
        readOnly := readOnly + PageAlign(seg.size);
      } else if seg.writable && seg.executable && lib.hasSplitSegInfo {
        seg := seg.(newAddress := writableExecutable);
        writableExecutable := writableExecutable + PageAlign(seg.size);
      }
      PackedNext(lib, segs, i, ReadOnly, currentReadOnly, r, seg);
      PackedNext(lib, segs, i, Import, currentWritableExecutable, x, seg);
      ThroughNext(lib, segs, i, {ReadOnly, Import}, seg);
      segs := segs[i := seg];
      i := i + 1;
    }
    placed := lib.(segs := segs);
  }

  lemma PackedStart(lib: Dylib, lo: nat, kind: Kind)
    requires lo % PAGE == 0
    ensures Packed(lib, lib.segs, 0, kind, lo, lo)
  {
  }

  lemma {:induction false} PackedEnd(lib: Dylib, segs: seq<Segment>, i: nat, kind: Kind, lo: nat, hi: nat)
    requires i <= |lib.segs| == |segs| && Packed(lib, segs, i, kind, lo, hi)
    ensures hi == lo + Pages(lib.segs, i, lib.hasSplitSegInfo, kind) && hi % PAGE == 0
  {
  }

  /** The third pass over one dylib. */
  method PlaceLinkEdit(lib: Dylib, currentReadOnly: u64) returns (placed: Dylib, readOnly: u64)
    requires ResetSizes(lib) && currentReadOnly % PAGE == 0 && currentReadOnly + Room(lib.segs, |lib.segs|) < LIMIT
    ensures placed == lib.(segs := placed.segs) && Through(lib, placed.segs, |lib.segs|, {LinkEdit})
    ensures Packed(lib, placed.segs, |lib.segs|, LinkEdit, currentReadOnly, readOnly)
  {
    hide PageAlign, Packed, Room;
    var segs := lib.segs;
    readOnly := currentReadOnly;
    PackedStart(lib, readOnly, LinkEdit);
    var i := 0;
    while i < |segs|
      invariant i <= |segs| == |lib.segs| && Through(lib, segs, i, {LinkEdit})
      invariant Packed(lib, segs, i, LinkEdit, currentReadOnly, readOnly)
    {
      PagesRoomAt(lib, i, LinkEdit, Import);
      PackedEnd(lib, segs, i, LinkEdit, currentReadOnly, readOnly);
      assert segs[i] == segs[i..][0] && lib.segs[i] == lib.segs[i..][0];
      var seg := segs[i];
      ghost var r := readOnly;
      if !seg.writable && !seg.executable && seg.linkEdit {
        seg := seg.(newAddress := readOnly);
        readOnly := readOnly + PageAlign(seg.size);
      }
      PackedNext(lib, segs, i, LinkEdit, currentReadOnly, r, seg);
      ThroughNext(lib, segs, i, {LinkEdit}, seg);
      segs := segs[i := seg];
      i := i + 1;
    }
    placed := lib.(segs := segs);
  }
}
