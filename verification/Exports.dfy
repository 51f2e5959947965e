/** The exports of a dylib on their way into the cache: parsed, slid, written again, parsed once more. */
module Exports {
  import opened Bytes
  import opened Segments
  import opened TrieModel
  import opened TrieBuild
  import opened TrieLayout
  import opened TrieStream
  import opened TrieMake
  import opened TrieParse
  import opened TrieFull
  import opened TrieSize
  import opened TrieRoundTrip
  import opened TrieUnique
  import opened LinkEdit

  // ----- the bytes of an export section

  /** The section lists these exports: it is empty, or some trie of nodes at distinct offsets starts at its first byte,
      whoever laid it out and whatever follows, and its entries in the order of their nodes are these. */
  ghost predicate Lists(bytes: seq<byte>, xs: seq<Entry>) {
    && Storable(xs)
    && if bytes == [] then xs == [] else exists t, off, es :: ListedBy(bytes, xs, t, off, es)
  }

  ghost predicate ListedBy(bytes: seq<byte>, xs: seq<Entry>, t: Trie<nat>, off: Offsets, es: seq<EntryWithOffset>) {
    && ReadableAt(bytes, off, t) && multiset(es) == multiset(Parsed(t, off)) && Ascending(es)
    && Entries(es) == xs
  }

  method ReadExports(bytes: seq<byte>, ghost xs: seq<Entry>) returns (ys: seq<Entry>)
    requires Lists(bytes, xs)
    ensures ys == xs
  {
    hide Parsed, Storable, ReadableAt;
    ghost var t, off, es: seq<EntryWithOffset> := Trie(0, [], None, []), map[], [];
    if bytes != [] {
      t, off, es :| ListedBy(bytes, xs, t, off, es);
    }
    ghost var sorted;
    ys, sorted := ParseTrie(bytes, [], t, off);
    if bytes != [] {
      SortUnique(sorted, es);
    }
  }

  /** A right layout of the trie of a list lists it, flags narrowed. */
  lemma {:induction false} StreamLists(xs: seq<Entry>, off: Offsets, z: seq<byte>)
    requires Storable(xs) && !Overfull(xs) && Fits(xs, off) && (xs == [] ==> z == [])
    ensures Lists(Bytecode(xs, off) + z, Narrowed(xs))
  {
    hide TrieOf, Parsed, Overfull, ReadableAt, Fits, Bytecode, Storable;
    NarrowedStorable(xs);
    StorableNames(xs);
    if xs == [] {
      EmptyStream(xs, off);
    } else {
      StreamNotEmpty(xs, off);
      StreamReadable(xs, off, z);
      NarrowExactly(xs);
      var es := LeavesFound(xs, off);
      assert ListedBy(Bytecode(xs, off) + z, Narrowed(xs), TrieOf(xs), off, es);
    }
  }

  lemma EmptyStream(xs: seq<Entry>, off: Offsets)
    requires DistinctNames(xs) && Fits(xs, off)
    ensures xs == [] ==> Bytecode(xs, off) == []
  {
    OrderFacts(xs);
  }

  /** How many bytes are missing to a multiple of the pointer size. */
  function Missing(n: nat, pointerSize: nat): nat
    requires pointerSize == 4 || pointerSize == 8
  {
    var over := if pointerSize == 4 then n % 4 else n % 8;
    if over == 0 then 0 else pointerSize - over
  }

  lemma NextOf4(n: nat)
    ensures (n + 1) % 4 == if n % 4 == 3 then 0 else n % 4 + 1
  {
    var q := n / 4;
    assert n + 1 == 4 * q + (n % 4 + 1);
  }

  lemma NextOf8(n: nat)
    ensures (n + 1) % 8 == if n % 8 == 7 then 0 else n % 8 + 1
  {
    var q := n / 8;
    assert n + 1 == 8 * q + (n % 8 + 1);
  }

  lemma MissingNext(n: nat, pointerSize: nat)
    requires pointerSize == 4 || pointerSize == 8
    ensures Missing(n, pointerSize) < pointerSize && (Missing(n, pointerSize) == 0 <==> n % pointerSize == 0)
    ensures Missing(n, pointerSize) > 0 ==> Missing(n + 1, pointerSize) == Missing(n, pointerSize) - 1
  {
    if pointerSize == 4 {
      NextOf4(n);
    } else {
      NextOf8(n);
    }
  }

  /** Zero bytes up to the next multiple of the pointer size. */
  method Pad(stream: seq<byte>, pointerSize: nat) returns (bytes: seq<byte>, ghost z: seq<byte>)
    requires pointerSize == 4 || pointerSize == 8
    ensures bytes == stream + z && |z| < pointerSize && |bytes| % pointerSize == 0
    ensures forall i | 0 <= i < |z| :: z[i] == 0
  {
    hide Missing;
    bytes, z := stream, [];
    MissingNext(|stream|, pointerSize);
    while |bytes| % pointerSize != 0
      invariant bytes == stream + z && forall i | 0 <= i < |z| :: z[i] == 0
      invariant |z| + Missing(|bytes|, pointerSize) == Missing(|stream|, pointerSize)
      decreases Missing(|bytes|, pointerSize)
    {
      MissingNext(|bytes|, pointerSize);
      bytes := bytes + [0];
      z := z + [0];
    }
  }

  lemma StorableNames(xs: seq<Entry>)
    requires Storable(xs)
    ensures DistinctNames(xs)
  {
  }

  /** The bytes adjustExportInfo makes of a list: those of the least right layout, filled up with zeros. */
  ghost predicate Rebuilt(bytes: seq<byte>, xs: seq<Entry>, pointerSize: nat) {
    exists off, z :: RebuiltBy(bytes, xs, pointerSize, off, z)
  }

  ghost predicate RebuiltBy(bytes: seq<byte>, xs: seq<Entry>, pointerSize: nat, off: Offsets, z: seq<byte>) {
    LeastFit(xs, off) && bytes == Bytecode(xs, off) + z && Filling(bytes, z, pointerSize)
  }

  predicate Filling(bytes: seq<byte>, z: seq<byte>, pointerSize: nat) {
    (pointerSize == 4 || pointerSize == 8) && |z| < pointerSize && |bytes| % pointerSize == 0
    && forall i | 0 <= i < |z| :: z[i] == 0
  }

  /** makeTrie and the alignment loop behind it. */
  method WriteExports(xs: seq<Entry>, pointerSize: nat) returns (bytes: seq<byte>)
    requires DistinctNames(xs) && NamesSize(xs) < TWO32 && (pointerSize == 4 || pointerSize == 8)
    ensures Rebuilt(bytes, xs, pointerSize) && |bytes| < NamesSize(xs) + pointerSize
  {
    hide Fits, Bytecode, NamesSize, LeastFit, DistinctNames;
    ghost var fix := FitsBySize(xs);
    var stream; ghost var off, z;
    stream, off := MakeTrie(xs, []);
    LeastSize(xs, off);
    LeastIsFit(xs, off);
    assert [] + Bytecode(xs, off) == Bytecode(xs, off);
    bytes, z := Pad(stream, pointerSize);
    assert RebuiltBy(bytes, xs, pointerSize, off, z);
  }

  lemma LeastIsFit(xs: seq<Entry>, off: Offsets)
    requires LeastFit(xs, off)
    ensures Fits(xs, off)
  {
  }

  /** There is one such sequence of bytes. */
  lemma RebuiltOnce(a: seq<byte>, b: seq<byte>, xs: seq<Entry>, pointerSize: nat)
    requires Rebuilt(a, xs, pointerSize) && Rebuilt(b, xs, pointerSize)
    ensures a == b
  {
    hide Fits, Bytecode, LeastFit;
    var off, y :| RebuiltBy(a, xs, pointerSize, off, y);
    var fix, z :| RebuiltBy(b, xs, pointerSize, fix, z);
    LeastIsFit(xs, off);
    LeastIsFit(xs, fix);
    LeastOnce(xs, off, fix);
    if pointerSize == 4 {
      assert |y| == |z|;
    } else {
      assert |y| == |z|;
    }
    assert y == z;
  }

  // ----- what a reader makes of the bytes

  /** What the parser reports of a section laid out from this trie. */
  ghost predicate ReadsAs(bytes: seq<byte>, t: Trie<nat>, off: Offsets, sorted: seq<EntryWithOffset>) {
    if bytes == [] then sorted == [] else ReadableAt(bytes, off, t) && SortOf(sorted, Parsed(t, off))
  }

  /** The bytes of a list of storable exports are laid out from its trie. */
  lemma {:induction false} RebuiltReadable(bytes: seq<byte>, xs: seq<Entry>, pointerSize: nat)
    returns (off: Offsets)
    requires Rebuilt(bytes, xs, pointerSize) && Storable(xs)
    ensures LeastFit(xs, off) && (bytes == [] <==> xs == [])
    ensures xs != [] ==> ReadableAt(bytes, off, TrieOf(xs))
  {
    hide Fits, Bytecode, LeastFit, Storable, ReadableAt, TrieOf;
    var z;
    off, z :| RebuiltBy(bytes, xs, pointerSize, off, z);
    LeastIsFit(xs, off);
    StorableNames(xs);
    if xs == [] {
      EmptyStream(xs, off);
      assert |bytes| == |z|;
    } else {
      StreamNotEmpty(xs, off);
      StreamReadable(xs, off, z);
    }
  }

  /** The bytes alone decide which exports a section lists. */
  lemma {:induction false} ListsOnce(bytes: seq<byte>, xs: seq<Entry>, ys: seq<Entry>)
    requires Lists(bytes, xs) && Lists(bytes, ys)
    ensures xs == ys
  {
    hide Storable, Parsed, Encoded, Readable;
    if bytes != [] {
      var t, off, es :| ListedBy(bytes, xs, t, off, es);
      var u, fix, fs :| ListedBy(bytes, ys, u, fix, fs);
      SameParsed(bytes, t, off, u, fix);
      SortUnique(es, fs);
    }
  }

  /** The parser reports just what a section lists. */
  lemma {:induction false} ListedIsRead(bytes: seq<byte>, ys: seq<Entry>, t: Trie<nat>, off: Offsets,
                                        sorted: seq<EntryWithOffset>)
    requires Lists(bytes, ys) && ReadsAs(bytes, t, off, sorted)
    ensures ys == Entries(sorted)
  {
    hide Storable, Parsed, Encoded, Readable;
    if bytes != [] {
      var u, fix, fs :| ListedBy(bytes, ys, u, fix, fs);
      SameParsed(bytes, t, off, u, fix);
      SortUnique(sorted, fs);
    }
  }

  /** The new bytes list the exports they were made from, flags narrowed, exactly if no node is overfull. */
  lemma {:induction false} RebuiltLists(bytes: seq<byte>, xs: seq<Entry>, pointerSize: nat)
    requires Rebuilt(bytes, xs, pointerSize) && Storable(xs)
    ensures Lists(bytes, Narrowed(xs)) <==> !Overfull(xs)
  {
    hide Fits, Bytecode, LeastFit, Storable, Overfull, Lists, Narrowed;
    if Overfull(xs) {
      RebuiltLoses(bytes, xs, pointerSize);
    } else {
      var off, z :| RebuiltBy(bytes, xs, pointerSize, off, z);
      LeastIsFit(xs, off);
      StorableNames(xs);
      EmptyStream(xs, off);
      StreamLists(xs, off, z);
    }
  }

  lemma {:induction false} RebuiltLoses(bytes: seq<byte>, xs: seq<Entry>, pointerSize: nat)
    requires Rebuilt(bytes, xs, pointerSize) && Storable(xs) && Overfull(xs)
    ensures !Lists(bytes, Narrowed(xs))
  {
    hide Fits, Storable, Overfull, Parsed, Encoded, Readable, TrieOf, LeastFit, Rebuilt;
    var off := RebuiltReadable(bytes, xs, pointerSize);
    LeastIsFit(xs, off);
    if Lists(bytes, Narrowed(xs)) && bytes != [] {
      var u, fix, es :| ListedBy(bytes, Narrowed(xs), u, fix, es);
      SameParsed(bytes, TrieOf(xs), off, u, fix);
      RoundTrip(xs, off, es);
    }
    assert xs == [] ==> !Overfull(xs) by { EmptyNotOverfull(); }
  }

  // ----- filtering and sliding

  predicate StartsWith(name: Str, prefix: string) {
    |prefix| <= |name| && forall i | 0 <= i < |prefix| :: name[i] == prefix[i] as int
  }

  /** Symbols only the static linker uses. */
  predicate LinkerOnly(name: Str) {
    || StartsWith(name, "$ld$")
    || StartsWith(name, ".objc_class_name")
    || StartsWith(name, ".objc_category_name")
  }

  /** Exports are offsets from the mach header: this is the address the export was linked at. */
  function LinkedAt(x: Entry, segs: seq<Segment>, word: int): (a: nat)
    requires segs != [] && Width(word)
    ensures a < word
  {
    (x.address + segs[0].address) % word
  }

  /** The addition is done in 64 bits, the subtraction in the pointer width. */
  function Slid(x: Entry, slide: nat, baseSlide: nat, word: int): Entry
    requires Width(word)
  {
    x.(address := (x.address + (slide - baseSlide) % word) % TWO64)
  }

  /** The export with its new offset, if its address lies in a segment. */
  function Moved(x: Entry, segs: seq<Segment>, word: int, baseSlide: nat): Option<Entry>
    requires segs != [] && Width(word)
  {
    match SlideAt(segs, LinkedAt(x, segs, word), word)
    case None => None
    case Some(s) => Some(Slid(x, s, baseSlide, word))
  }

  /** The exports that stay, moved; None if one of them cannot be. */
  function Adjusted(xs: seq<Entry>, segs: seq<Segment>, word: int, baseSlide: nat): Option<seq<Entry>>
    requires segs != [] && Width(word)
  {
    if xs == [] then Some([])
    else
      var n := |xs| - 1;
      match Adjusted(xs[..n], segs, word, baseSlide)
      case None => None
      case Some(ys) =>
        if LinkerOnly(xs[n].name) then Some(ys)
        else
          match Moved(xs[n], segs, word, baseSlide)
          case None => None
          case Some(y) => Some(ys + [y])
  }

  /** Where in the list the exports that stay come from. */
  function Survivors(xs: seq<Entry>): (ks: seq<nat>)
    ensures forall i | 0 <= i < |ks| :: ks[i] < |xs| && !LinkerOnly(xs[ks[i]].name)
    ensures forall i, j | 0 <= i < j < |ks| :: ks[i] < ks[j]
    ensures forall k: nat | k < |xs| && !LinkerOnly(xs[k].name) :: k in ks
  {
    if xs == [] then []
    else
      var n := |xs| - 1;
      var ks := Survivors(xs[..n]);
      assert forall k: nat | k < n :: xs[..n][k] == xs[k];
      if LinkerOnly(xs[n].name) then ks else ks + [n]
  }

  lemma {:induction false} AdjustedAre(xs: seq<Entry>, segs: seq<Segment>, word: int, baseSlide: nat)
    requires segs != [] && Width(word) && Adjusted(xs, segs, word, baseSlide).Some?
    ensures var ys, ks := Adjusted(xs, segs, word, baseSlide).value, Survivors(xs);
            |ys| == |ks| && forall i | 0 <= i < |ks| :: Some(ys[i]) == Moved(xs[ks[i]], segs, word, baseSlide)
  {
    if xs != [] {
      var n := |xs| - 1;
      AdjustedAre(xs[..n], segs, word, baseSlide);
      assert forall k: nat | k < n :: xs[..n][k] == xs[k];
    }
  }

  lemma {:induction false} NamesSizeKept(xs: seq<Entry>, segs: seq<Segment>, word: int, baseSlide: nat)
    requires segs != [] && Width(word) && Adjusted(xs, segs, word, baseSlide).Some?
    ensures NamesSize(Adjusted(xs, segs, word, baseSlide).value) <= NamesSize(xs)
  {
    if xs != [] {
      NamesSizeKept(xs[..|xs| - 1], segs, word, baseSlide);
      var ys := Adjusted(xs, segs, word, baseSlide).value;
      if !LinkerOnly(xs[|xs| - 1].name) {
        assert ys[..|ys| - 1] == Adjusted(xs[..|xs| - 1], segs, word, baseSlide).value;
      }
    }
  }

  /** Taking names out of a list keeps it storable and makes no node full. */
  lemma SublistStorable(xs: seq<Entry>, ks: seq<nat>, ys: seq<Entry>)
    requires Storable(xs)
    requires |ys| == |ks| && forall i | 0 <= i < |ks| :: ks[i] < |xs| && ys[i].name == xs[ks[i]].name
    requires forall i, j | 0 <= i < j < |ks| :: ks[i] < ks[j]
    ensures Storable(ys) && (Overfull(ys) ==> Overfull(xs))
  {
    if Overfull(ys) {
      var k :| 0 <= k < |ys| && OverfullAt(ys, k);
      forall b: byte | b != 0
        ensures EarlierExtension(xs, ks[k], b)
      {
        assert EarlierExtension(ys, k, b);
        var i :| 0 <= i < k && ys[k].name + [b] <= ys[i].name;
        assert ks[i] < ks[k];
      }
      assert OverfullAt(xs, ks[k]);
    }
  }

  lemma {:induction false} AdjustedStorable(xs: seq<Entry>, segs: seq<Segment>, word: int, baseSlide: nat)
    requires segs != [] && Width(word) && Adjusted(xs, segs, word, baseSlide).Some?
    requires Storable(xs)
    ensures var ys := Adjusted(xs, segs, word, baseSlide).value; Storable(ys) && (Overfull(ys) ==> Overfull(xs))
  {
    hide Adjusted, Overfull, Storable, SlideAt;
    AdjustedAre(xs, segs, word, baseSlide);
    SublistStorable(xs, Survivors(xs), Adjusted(xs, segs, word, baseSlide).value);
  }

  lemma {:induction false} NarrowedStorable(xs: seq<Entry>)
    requires Storable(xs)
    ensures Storable(Narrowed(xs))
  {
  }

  /** The loop of adjustExportInfo. */
  method AdjustEntries(xs: seq<Entry>, segs: seq<Segment>, word: int, baseSlide: nat) returns (r: Option<seq<Entry>>)
    requires segs != [] && Width(word)
    ensures r == Adjusted(xs, segs, word, baseSlide)
  {
    hide Adjusted, LinkerOnly, SlideAt, LinkedAt, Slid;
    var ys := [];
    assert Adjusted(xs[..0], segs, word, baseSlide) == Some([]) by { AdjustedNone(xs, segs, word, baseSlide); }
    for k := 0 to |xs|
      invariant Adjusted(xs[..k], segs, word, baseSlide) == Some(ys)
    {
      AdjustedStep(xs, segs, word, baseSlide, k);
      if !LinkerOnly(xs[k].name) {
        var slide := GetSlideForVMAddress(segs, LinkedAt(xs[k], segs, word), word);
        if slide == None {
          AdjustedFails(xs, segs, word, baseSlide, k + 1);
          return None;
        }
        ys := ys + [Slid(xs[k], slide.value, baseSlide, word)];
      }
    }
    assert xs[..|xs|] == xs;
    return Some(ys);
  }

  lemma {:induction false} AdjustedNone(xs: seq<Entry>, segs: seq<Segment>, word: int, baseSlide: nat)
    requires segs != [] && Width(word)
    ensures Adjusted(xs[..0], segs, word, baseSlide) == Some([])
  {
  }

  lemma {:induction false} AdjustedStep(xs: seq<Entry>, segs: seq<Segment>, word: int, baseSlide: nat, k: nat)
    requires segs != [] && Width(word) && k < |xs| && Adjusted(xs[..k], segs, word, baseSlide).Some?
    ensures var ys := Adjusted(xs[..k], segs, word, baseSlide).value;
            Adjusted(xs[..k + 1], segs, word, baseSlide)
            == if LinkerOnly(xs[k].name) then Some(ys)
               else match Moved(xs[k], segs, word, baseSlide)
                    case None => None
                    case Some(y) => Some(ys + [y])
  {
    assert xs[..k + 1][..k] == xs[..k];
  }

  lemma {:induction false} AdjustedFails(xs: seq<Entry>, segs: seq<Segment>, word: int, baseSlide: nat, k: nat)
    requires segs != [] && Width(word) && k <= |xs| && Adjusted(xs[..k], segs, word, baseSlide).None?
    ensures Adjusted(xs, segs, word, baseSlide).None?
    decreases |xs| - k
  {
    if k < |xs| {
      assert xs[..k + 1][..k] == xs[..k];
      AdjustedFails(xs, segs, word, baseSlide, k + 1);
    } else {
      assert xs[..k] == xs;
    }
  }

  /** What adjustExportInfo makes of a list of exports; None stands for the exception. */
  function Rebased(xs: seq<Entry>, segs: seq<Segment>, word: int): Option<seq<Entry>>
    requires segs != [] && Width(word)
  {
    match SlideAt(segs, segs[0].address % word, word)
    case None => None
    case Some(baseSlide) => Adjusted(xs, segs, word, baseSlide)
  }

  /** The first part of adjustExportInfo: the exports are read and moved. */
  method RebaseExports(bytes: seq<byte>, segs: seq<Segment>, word: int, ghost xs: seq<Entry>)
    returns (newExports: Option<seq<Entry>>)
    requires segs != [] && Width(word) && Lists(bytes, xs)
    ensures newExports == Rebased(xs, segs, word)
    ensures newExports.Some? ==>
              var ys := newExports.value;
              Storable(ys) && (Overfull(ys) ==> Overfull(xs)) && NamesSize(ys) <= NamesSize(xs)
  {
    hide Overfull, Storable, Adjusted, SlideAt, NamesSize;
    var originalExports := ReadExports(bytes, xs);
    var baseAddress := segs[0].address % word;
    var baseSlide := GetSlideForVMAddress(segs, baseAddress, word);
    if baseSlide == None {
      return None;
    }
    newExports := AdjustEntries(originalExports, segs, word, baseSlide.value);
    if newExports != None {
      AdjustedStorable(xs, segs, word, baseSlide.value);
      NamesSizeKept(xs, segs, word, baseSlide.value);
    }
  }

  function PointerSize(word: int): nat {
    if word == TWO32 then 4 else 8
  }

  /** adjustExportInfo. It fails if an export lies in no segment, or if the new bytes, being longer than the old ones,
      find no block near enough. Then nothing is lost; otherwise the new bytes have replaced the old ones. */
  method AdjustExportInfo(info: ExportInfo, segs: seq<Segment>, word: int, malloc: nat -> Option<nat>,
                          ghost xs: seq<Entry>)
    returns (ok: bool, ghost bytes: seq<byte>, ghost at: nat)
    requires segs != [] && Width(word) && info.Valid() && Allocates(malloc, info.memory, info.host)
    requires Lists(info.Bytes(), xs) && NamesSize(xs) + 8 <= TWO32
    modifies info`memory, info`exportOff, info`exportSize
    ensures old(info.exportSize) == 0 ==> ok && info.Untouched()
    ensures old(info.exportSize) > 0 && Rebased(xs, segs, word).None? ==> !ok && info.Untouched()
    ensures old(info.exportSize) > 0 && Rebased(xs, segs, word).Some? ==>
              && Storable(Rebased(xs, segs, word).value)
              && Rebuilt(bytes, Rebased(xs, segs, word).value, PointerSize(word))
              && (ok <==> old(info.HasRoom(bytes, malloc)))
              && if ok then info.Replaced(bytes, malloc, at) else info.Untouched()
  {
    hide Lists, Overfull, Adjusted, SlideAt, NamesSize, Rebuilt, Distance, BinderStart, CopierStart, Storable;
    bytes, at := [], 0;
    if info.exportSize == 0 {
      return true, bytes, at;
    }
    var newExports := RebaseExports(Stretch(info.memory, info.Start(), info.exportSize), segs, word, xs);
    if newExports == None {
      return false, bytes, at;
    }
    StorableNames(newExports.value);
    var newExportTrieBytes := WriteExports(newExports.value, PointerSize(word));
    bytes := newExportTrieBytes;
    ok, at := info.Replace(newExportTrieBytes, malloc);
  }

  /** The fill-up is to the pointer size of the architecture: four bytes for 32 bits, eight for 64. */
  lemma FilledUp(bytes: seq<byte>, xs: seq<Entry>, word: int, off: Offsets)
    requires Rebuilt(bytes, xs, PointerSize(word)) && LeastFit(xs, off) && Width(word)
    ensures var n, p := |Bytecode(xs, off)|, if word == TWO32 then 4 else 8;
            n <= |bytes| < n + p && |bytes| % p == 0 && bytes[..n] == Bytecode(xs, off)
    ensures forall i | |Bytecode(xs, off)| <= i < |bytes| :: bytes[i] == 0
  {
    hide LeastFit, Bytecode;
    LeastIsFit(xs, off);
    var fix, z :| RebuiltBy(bytes, xs, PointerSize(word), fix, z);
    LeastOnce(xs, fix, off);
  }

  // ----- the binder's table

  /** What the constructor of the binder stores: addresses in the pointer width, above the new base. */
  function TableOf(ys: seq<Entry>, newBase: nat, word: int): map<Str, nat>
    requires Width(word)
  {
    if ys == [] then map[]
    else
      var y := ys[|ys| - 1];
      TableOf(ys[..|ys| - 1], newBase, word)[y.name := (y.address + newBase) % word]
  }

  /** The exports part of the binder's constructor, on a section laid out from some trie. */
  method BuildTable(info: ExportInfo, segs: seq<Segment>, word: int, ghost t: Trie<nat>, ghost off: Offsets)
    returns (fHashTable: map<Str, nat>, ghost sorted: seq<EntryWithOffset>)
    requires segs != [] && Width(word) && info.Valid() && (info.Bytes() != [] ==> ReadableAt(info.Bytes(), off, t))
    ensures ReadsAs(info.Bytes(), t, off, sorted)
    ensures fHashTable == TableOf(Entries(sorted), segs[0].newAddress % word, word)
    ensures forall ys | Lists(info.Bytes(), ys) :: fHashTable == TableOf(ys, segs[0].newAddress % word, word)
  {
    hide TableOf, ReadableAt, Parsed, BinderStart, Stretch, SortOf, Lists;
    var exports;
    exports, sorted := ParseTrie(Stretch(info.memory, info.Start(), info.exportSize), [], t, off);
    assert exports == Entries(sorted);
    fHashTable := FillTable(exports, segs[0].newAddress % word, word);
    forall ys | Lists(info.Bytes(), ys)
      ensures ys == Entries(sorted)
    {
      ListedIsRead(info.Bytes(), ys, t, off, sorted);
    }
  }

  /** Its loop. */
  method FillTable(exports: seq<Entry>, baseAddress: nat, word: int) returns (fHashTable: map<Str, nat>)
    requires Width(word)
    ensures fHashTable == TableOf(exports, baseAddress, word)
  {
    hide TableOf;
    fHashTable := map[];
    TableSteps(exports, baseAddress, word, 0);
    for k := 0 to |exports|
      invariant fHashTable == TableOf(exports[..k], baseAddress, word)
    {
      TableSteps(exports, baseAddress, word, k);
      fHashTable := fHashTable[exports[k].name := (exports[k].address + baseAddress) % word];
    }
    assert exports[..|exports|] == exports;
  }

  /** Rebasing a dylib and then binding against it, provided the binder will look where the new bytes go. The table is
      that of the rebased exports exactly if no node of theirs is overfull. */
  method RebaseThenBind(info: ExportInfo, segs: seq<Segment>, word: int, malloc: nat -> Option<nat>,
                        ghost xs: seq<Entry>)
    returns (ok: bool, ghost bytes: seq<byte>, fHashTable: map<Str, nat>)
    requires segs != [] && Width(word) && info.Valid() && Allocates(malloc, info.memory, info.host)
    requires Lists(info.Bytes(), xs) && NamesSize(xs) + 8 <= TWO32 && info.exportSize > 0
    requires Rebased(xs, segs, word).Some? ==>
               forall bs | Rebuilt(bs, Rebased(xs, segs, word).value, PointerSize(word)) && info.HasRoom(bs, malloc) ::
                 info.BinderFinds(bs, malloc)
    modifies info`memory, info`exportOff, info`exportSize
    ensures Rebased(xs, segs, word).None? ==> !ok
    ensures Rebased(xs, segs, word).Some? ==>
              var ys := Rebased(xs, segs, word).value;
              && Rebuilt(bytes, ys, PointerSize(word)) && (ok <==> old(info.HasRoom(bytes, malloc)))
              && (ok ==> (fHashTable == TableOf(Narrowed(ys), segs[0].newAddress % word, word) <==> !Overfull(ys)))
  {
    hide Lists, Overfull, Rebased, TableOf, NamesSize, Rebuilt, Storable, ReadableAt, Stretch, Distance, BinderStart,
         CopierStart, Narrowed, TrieOf;
    fHashTable := map[];
    ghost var at;
    ok, bytes, at := AdjustExportInfo(info, segs, word, malloc, xs);
    if ok {
      ghost var ys := Rebased(xs, segs, word).value;
      ghost var off := RebuiltReadable(bytes, ys, PointerSize(word));
      ghost var sorted;
      fHashTable, sorted := BuildTable(info, segs, word, TrieOf(ys), off);
      TableExactly(bytes, ys, off, sorted, segs[0].newAddress % word, word);
    }
  }

  lemma {:induction false} TableExactly(bytes: seq<byte>, ys: seq<Entry>, off: Offsets, sorted: seq<EntryWithOffset>,
                                        newBase: nat, word: int)
    requires Width(word) && Storable(ys) && LeastFit(ys, off) && (bytes == [] <==> ys == [])
    requires ReadsAs(bytes, TrieOf(ys), off, sorted)
    ensures TableOf(Entries(sorted), newBase, word) == TableOf(Narrowed(ys), newBase, word) <==> !Overfull(ys)
  {
    hide Overfull, TableOf, Storable, Fits, Narrowed, TrieOf, Parsed, ReadableAt;
    if ys == [] {
      EmptyNotOverfull();
      assert Entries(sorted) == [] && |Narrowed(ys)| == 0;
    } else {
      RoundTrip(ys, off, sorted);
      TableSize(Entries(sorted), newBase, word);
      TableSize(Narrowed(ys), newBase, word);
      assert DistinctNames(Narrowed(ys)) by {
        NarrowedStorable(ys);
        StorableNames(Narrowed(ys));
      }
    }
  }

  /** A table has no more names than its list, and as many if they are distinct. */
  lemma {:induction false} TableSize(ys: seq<Entry>, newBase: nat, word: int)
    requires Width(word)
    ensures |TableOf(ys, newBase, word).Keys| <= |ys|
    ensures DistinctNames(ys) ==> |TableOf(ys, newBase, word).Keys| == |ys|
  {
    if ys != [] {
      var n := |ys| - 1;
      TableSize(ys[..n], newBase, word);
      var rest := TableOf(ys[..n], newBase, word);
      assert TableOf(ys, newBase, word).Keys == rest.Keys + {ys[n].name};
      if DistinctNames(ys) && ys[n].name in rest {
        TableOnly(ys[..n], newBase, word, ys[n].name);
      }
    }
  }

  // ----- the copy in the new link-edit segment

  /** copyExportInfo: an offset of 0 stands for no export information. */
  method CopyExportInfo(info: ExportInfo, newLinkEdit: array<byte>, offset: nat) returns (end: nat)
    requires HostWidth(info.host)
    requires info.exportOff != 0 ==>
               && offset + info.exportSize <= newLinkEdit.Length
               && Mapped(info.memory, CopierStart(info.base, info.exportOff, info.host), info.exportSize)
    modifies newLinkEdit
    ensures end == if info.exportOff == 0 then offset else offset + info.exportSize
    ensures info.exportOff != 0 ==>
              newLinkEdit[offset..end]
              == Stretch(info.memory, CopierStart(info.base, info.exportOff, info.host), info.exportSize)
    ensures forall k | 0 <= k < newLinkEdit.Length && !(offset <= k < end) :: newLinkEdit[k] == old(newLinkEdit[k])
  {
    hide CopierStart, Stretch;
    end := offset;
    if info.exportOff != 0 {
      var bytes := Stretch(info.memory, CopierStart(info.base, info.exportOff, info.host), info.exportSize);
      for i := 0 to info.exportSize
        invariant newLinkEdit[offset..offset + i] == bytes[..i]
        invariant forall k | 0 <= k < newLinkEdit.Length && !(offset <= k < offset + i) ::
                    newLinkEdit[k] == old(newLinkEdit[k])
      {
        newLinkEdit[offset + i] := bytes[i];
      }
      end := offset + info.exportSize;
    }
  }

  /** Rebasing a dylib and then copying its exports, provided the copier will look where the new bytes go: after a move
      it always does. The copy lists the rebased exports exactly if no node of theirs is overfull. */
  method RebaseThenCopy(info: ExportInfo, segs: seq<Segment>, word: int, malloc: nat -> Option<nat>,
                        newLinkEdit: array<byte>, offset: nat, ghost xs: seq<Entry>)
    returns (ok: bool, ghost bytes: seq<byte>, end: nat)
    requires segs != [] && Width(word) && info.Valid() && Allocates(malloc, info.memory, info.host)
    requires Lists(info.Bytes(), xs) && NamesSize(xs) + 8 <= TWO32 && info.exportSize > 0
    requires Rebased(xs, segs, word).Some? ==>
               forall bs | Rebuilt(bs, Rebased(xs, segs, word).value, PointerSize(word)) ::
                 offset + |bs| <= newLinkEdit.Length && (info.HasRoom(bs, malloc) ==> info.CopierFinds(bs))
    modifies info`memory, info`exportOff, info`exportSize, newLinkEdit
    ensures Rebased(xs, segs, word).None? ==> !ok
    ensures Rebased(xs, segs, word).Some? ==>
              var ys := Rebased(xs, segs, word).value;
              && Rebuilt(bytes, ys, PointerSize(word)) && (ok <==> old(info.HasRoom(bytes, malloc)))
              && (ok && info.exportOff != 0 ==>
                    && offset <= end <= newLinkEdit.Length && newLinkEdit[offset..end] == bytes
                    && (Lists(newLinkEdit[offset..end], Narrowed(ys)) <==> !Overfull(ys)))
  {
    hide Lists, Overfull, Rebased, NamesSize, Rebuilt, Storable, Stretch, Distance, BinderStart, CopierStart, Narrowed;
    end := offset;
    ghost var at;
    ok, bytes, at := AdjustExportInfo(info, segs, word, malloc, xs);
    if ok {
      end := CopyExportInfo(info, newLinkEdit, offset);
      RebuiltLists(bytes, Rebased(xs, segs, word).value, PointerSize(word));
    }
  }

  // ----- what the table holds

  lemma {:induction false} TableSteps(ys: seq<Entry>, newBase: nat, word: int, k: nat)
    requires Width(word)
    ensures TableOf(ys[..0], newBase, word) == map[]
    ensures k < |ys| ==>
              TableOf(ys[..k + 1], newBase, word)
              == TableOf(ys[..k], newBase, word)[ys[k].name := (ys[k].address + newBase) % word]
  {
    if k < |ys| {
      assert ys[..k + 1][..k] == ys[..k];
    }
  }

  lemma {:induction false} TableHas(ys: seq<Entry>, newBase: nat, word: int, k: nat)
    requires DistinctNames(ys) && Width(word) && k < |ys|
    ensures ys[k].name in TableOf(ys, newBase, word)
    ensures TableOf(ys, newBase, word)[ys[k].name] == (ys[k].address + newBase) % word
  {
    var n := |ys| - 1;
    if k < n {
      TableHas(ys[..n], newBase, word, k);
      assert ys[..n][k] == ys[k];
    }
  }

  lemma {:induction false} TableOnly(ys: seq<Entry>, newBase: nat, word: int, x: Str)
    requires Width(word) && x in TableOf(ys, newBase, word)
    ensures exists k | 0 <= k < |ys| :: ys[k].name == x
  {
    var n := |ys| - 1;
    if x != ys[n].name {
      TableOnly(ys[..n], newBase, word, x);
      var k :| 0 <= k < n && ys[..n][k].name == x;
      assert ys[k].name == x;
    }
  }

  lemma Congruent(a: int, b: int, k: int, word: int)
    requires Width(word) && a == b + k * word
    ensures a % word == b % word
  {
    if word == TWO32 {
      assert a == b + k * TWO32;
    } else {
      assert a == b + k * TWO64;
    }
  }

  /** Offsets move with their segment, and the base moves with the first one. */
  lemma SlideArithmetic(x: nat, a0: nat, new0: nat, s: nat, bs: nat, word: int)
    requires Width(word) && bs == (new0 - a0) % word
    ensures ((x + (s - bs) % word) % TWO64 + new0 % word) % word == ((x + a0) % word + s) % word
  {
    var c := TWO64 / word;
    var q1, q2, q3, q5 := (s - bs) / word, (new0 - a0) / word, (x + a0) / word, new0 / word;
    var m := x + (s - bs) % word;
    var q4 := m / TWO64;
    assert TWO64 == c * word;
    assert m % TWO64 == m - q4 * TWO64;
    var left, right := (m % TWO64) + new0 % word, (x + a0) % word + s;
    assert left == x + s - bs - q1 * word - q4 * (c * word) + new0 - q5 * word;
    assert right == x + a0 - q3 * word + s;
    assert left == right + (q2 - q1 - q4 * c - q5 + q3) * word;
    Congruent(left, right, q2 - q1 - q4 * c - q5 + q3, word);
  }

  lemma FirstSlides(segs: seq<Segment>, word: int)
    requires segs != [] && Width(word) && segs[0].size != 0 && segs[0].address < word
    ensures SlideAt(segs, segs[0].address % word, word) == Some((segs[0].newAddress - segs[0].address) % word)
  {
    assert Slides(segs[0], segs[0].address);
    assert Holder(segs, segs[0].address) == 0;
  }

  lemma MovedName(x: Entry, segs: seq<Segment>, word: int, bs: nat)
    requires segs != [] && Width(word) && Moved(x, segs, word, bs).Some?
    ensures Moved(x, segs, word, bs).value.name == x.name
  {
  }

  lemma {:induction false} SublistDistinct(ns: seq<Entry>, ks: seq<nat>, ys: seq<Entry>, segs: seq<Segment>, word: int,
                                           bs: nat)
    requires segs != [] && Width(word) && DistinctNames(ns) && |ys| == |ks|
    requires forall i | 0 <= i < |ks| :: ks[i] < |ns| && Some(ys[i]) == Moved(ns[ks[i]], segs, word, bs)
    requires forall i, j | 0 <= i < j < |ks| :: ks[i] < ks[j]
    ensures DistinctNames(Narrowed(ys))
  {
    hide Moved;
    forall i | 0 <= i < |ks|
      ensures ys[i].name == ns[ks[i]].name
    {
      MovedName(ns[ks[i]], segs, word, bs);
    }
  }

  lemma MovedAddress(x: Entry, y: Entry, segs: seq<Segment>, word: int, bs: nat)
    requires segs != [] && Width(word) && Some(y) == Moved(x, segs, word, bs)
    requires bs == (segs[0].newAddress - segs[0].address) % word
    ensures y.name == x.name
    ensures var vm := LinkedAt(x, segs, word);
            && SlideAt(segs, vm, word).Some?
            && (y.address + segs[0].newAddress % word) % word == (vm + SlideAt(segs, vm, word).value) % word
  {
    hide SlideAt, LinkedAt;
    SlidAddress(x, segs, word, SlideAt(segs, LinkedAt(x, segs, word), word).value, bs);
  }

  lemma SlidAddress(x: Entry, segs: seq<Segment>, word: int, s: nat, bs: nat)
    requires segs != [] && Width(word) && bs == (segs[0].newAddress - segs[0].address) % word
    ensures (Slid(x, s, bs, word).address + segs[0].newAddress % word) % word == (LinkedAt(x, segs, word) + s) % word
  {
    SlideArithmetic(x.address, segs[0].address, segs[0].newAddress, s, bs, word);
  }

  /** The table holds nothing else. */
  lemma {:induction false} NothingElse(xs: seq<Entry>, segs: seq<Segment>, word: int, name: Str)
    requires segs != [] && Width(word) && Rebased(xs, segs, word).Some?
    requires name in TableOf(Narrowed(Rebased(xs, segs, word).value), segs[0].newAddress % word, word)
    ensures exists k | 0 <= k < |xs| :: xs[k].name == name && !LinkerOnly(name)
  {
    hide TableOf, Adjusted, LinkerOnly, SlideAt;
    var ys := Rebased(xs, segs, word).value;
    TableOnly(Narrowed(ys), segs[0].newAddress % word, word, name);
    var i :| 0 <= i < |ys| && Narrowed(ys)[i].name == name;
    var bs := SlideAt(segs, segs[0].address % word, word).value;
    AdjustedAre(xs, segs, word, bs);
    var k := Survivors(xs)[i];
    MovedName(xs[k], segs, word, bs);
    assert xs[k].name == name;
  }

  /** An export that stays is found where its segment went; a linker-only name is not found. */
  lemma {:induction false} ExportSurvives(xs: seq<Entry>, segs: seq<Segment>, word: int, k: nat)
    requires segs != [] && Width(word) && segs[0].size != 0 && segs[0].address < word
    requires DistinctNames(xs) && k < |xs| && Rebased(xs, segs, word).Some?
    ensures var table := TableOf(Narrowed(Rebased(xs, segs, word).value), segs[0].newAddress % word, word);
            if LinkerOnly(xs[k].name) then xs[k].name !in table
            else
              var vm := LinkedAt(xs[k], segs, word);
              && SlideAt(segs, vm, word).Some?
              && xs[k].name in table
              && table[xs[k].name] == (vm + SlideAt(segs, vm, word).value) % word
  {
    hide TableOf, Adjusted, LinkerOnly, SlideAt;
    var ys := Rebased(xs, segs, word).value;
    if LinkerOnly(xs[k].name) {
      if xs[k].name in TableOf(Narrowed(ys), segs[0].newAddress % word, word) {
        NothingElse(xs, segs, word, xs[k].name);
      }
    } else {
      FirstSlides(segs, word);
      var bs := (segs[0].newAddress - segs[0].address) % word;
      KeptAt(xs, ys, segs, word, bs, k);
    }
  }

  lemma {:induction false} KeptAt(ns: seq<Entry>, ys: seq<Entry>, segs: seq<Segment>, word: int, bs: nat, k: nat)
    requires segs != [] && Width(word) && DistinctNames(ns) && Adjusted(ns, segs, word, bs) == Some(ys)
    requires k < |ns| && !LinkerOnly(ns[k].name) && bs == (segs[0].newAddress - segs[0].address) % word
    ensures var table := TableOf(Narrowed(ys), segs[0].newAddress % word, word);
            var vm := LinkedAt(ns[k], segs, word);
            && SlideAt(segs, vm, word).Some?
            && ns[k].name in table
            && table[ns[k].name] == (vm + SlideAt(segs, vm, word).value) % word
  {
    hide TableOf, Adjusted, LinkerOnly, SlideAt, Moved, LinkedAt, DistinctNames, Narrowed;
    var ks := Survivors(ns);
    AdjustedAre(ns, segs, word, bs);
    assert k in ks;
    var i :| 0 <= i < |ks| && ks[i] == k;
    SublistDistinct(ns, ks, ys, segs, word, bs);
    MovedAddress(ns[k], ys[i], segs, word, bs);
    TableHas(Narrowed(ys), segs[0].newAddress % word, word, i);
  }

  // ----- which names stay, by their bytes

  /** "$ld$", ".objc_class_name" and ".objc_category_name". */
  const LD_NAME: Str := [0x24, 0x6C, 0x64, 0x24]
  const CLASS_NAME: Str :=
    [0x2E, 0x6F, 0x62, 0x6A, 0x63, 0x5F, 0x63, 0x6C, 0x61, 0x73, 0x73, 0x5F, 0x6E, 0x61, 0x6D, 0x65]
  const CATEGORY_NAME: Str :=
    [0x2E, 0x6F, 0x62, 0x6A, 0x63, 0x5F, 0x63, 0x61, 0x74, 0x65, 0x67, 0x6F, 0x72, 0x79, 0x5F, 0x6E, 0x61, 0x6D, 0x65]

  lemma LinkerPrefixes(name: Str)
    ensures LinkerOnly(name) <==> LD_NAME <= name || CLASS_NAME <= name || CATEGORY_NAME <= name
  {
    PrefixBytes(name, "$ld$", LD_NAME);
    PrefixBytes(name, ".objc_class_name", CLASS_NAME);
    PrefixBytes(name, ".objc_category_name", CATEGORY_NAME);
  }

  lemma PrefixBytes(name: Str, prefix: string, bytes: Str)
    requires |bytes| == |prefix| && forall i | 0 <= i < |prefix| :: bytes[i] == prefix[i] as int
    ensures StartsWith(name, prefix) <==> bytes <= name
  {
    if StartsWith(name, prefix) {
      assert forall i | 0 <= i < |prefix| :: name[i] == bytes[i];
    }
  }

  /** Names for the static linker are not in the binder's table, whatever follows the prefix. */
  lemma {:induction false} LinkerNamesAbsent(xs: seq<Entry>, segs: seq<Segment>, word: int, s: Str)
    requires segs != [] && Width(word) && Rebased(xs, segs, word).Some?
    ensures var table := TableOf(Narrowed(Rebased(xs, segs, word).value), segs[0].newAddress % word, word);
            LD_NAME + s !in table && CLASS_NAME + s !in table && CATEGORY_NAME + s !in table
  {
    hide TableOf, Rebased, LinkerOnly;
    LinkerPrefixes(LD_NAME + s);
    LinkerPrefixes(CLASS_NAME + s);
    LinkerPrefixes(CATEGORY_NAME + s);
    var table := TableOf(Narrowed(Rebased(xs, segs, word).value), segs[0].newAddress % word, word);
    forall name | name in table
      ensures !LinkerOnly(name)
    {
      NothingElse(xs, segs, word, name);
    }
  }

  /** Every other export is there, at the address it was linked at plus the slide of its segment; in particular if its
      name begins with neither '$' nor '.'. */
  lemma {:induction false} OtherNamesPresent(xs: seq<Entry>, segs: seq<Segment>, word: int, k: nat)
    requires segs != [] && Width(word) && segs[0].size != 0 && segs[0].address < word
    requires DistinctNames(xs) && k < |xs| && Rebased(xs, segs, word).Some?
    requires var name := xs[k].name;
             (!(LD_NAME <= name) && !(CLASS_NAME <= name) && !(CATEGORY_NAME <= name))
             || name == [] || (name[0] != 0x24 && name[0] != 0x2E)
    ensures var table := TableOf(Narrowed(Rebased(xs, segs, word).value), segs[0].newAddress % word, word);
            var vm := (xs[k].address + segs[0].address) % word;
            && SlideAt(segs, vm, word).Some? && xs[k].name in table
            && table[xs[k].name] == (vm + SlideAt(segs, vm, word).value) % word
  {
    hide TableOf, Rebased, LinkerOnly, SlideAt, DistinctNames;
    LinkerPrefixes(xs[k].name);
    ExportSurvives(xs, segs, word, k);
  }
}
