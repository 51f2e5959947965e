/** parseTrie, and what it makes of the bytes makeTrie writes. */
module TrieRoundTrip {
  import opened Bytes
  import opened TrieModel
  import opened TrieRecords
  import opened TrieBuild
  import opened TrieOrder
  import opened TrieLayout
  import opened TrieStream
  import opened TrieParse
  import opened TrieMake
  import opened TrieFull

  // ----- sorting by node offset

  predicate ByOffset(es: seq<EntryWithOffset>) {
    forall i, j | 0 <= i < j < |es| :: es[i].nodeOffset <= es[j].nodeOffset
  }

  /** No two entries come from the same offset. */
  predicate Ascending(es: seq<EntryWithOffset>) {
    forall i, j | 0 <= i < j < |es| :: es[i].nodeOffset < es[j].nodeOffset
  }

  /** What std::sort promises: the same entries, ordered by offset. */
  predicate SortOf(sorted: seq<EntryWithOffset>, es: seq<EntryWithOffset>) {
    ByOffset(sorted) && multiset(sorted) == multiset(es)
  }

  function Entries(es: seq<EntryWithOffset>): (xs: seq<Entry>)
    ensures |xs| == |es| && forall k | 0 <= k < |es| :: xs[k] == es[k].entry
  {
    if es == [] then [] else Entries(es[..|es| - 1]) + [es[|es| - 1].entry]
  }

  /** The stand-in for std::sort. */
  method SortEntries(es: seq<EntryWithOffset>) returns (sorted: seq<EntryWithOffset>)
    ensures SortOf(sorted, es)
  {
    sorted := [];
    for n := 0 to |es|
      invariant SortOf(sorted, es[..n])
    {
      var i := |sorted|;
      while i > 0 && es[n].nodeOffset < sorted[i - 1].nodeOffset
        invariant 0 <= i <= |sorted|
        invariant forall k | i <= k < |sorted| :: es[n].nodeOffset <= sorted[k].nodeOffset
      {
        i := i - 1;
      }
      InsertedSort(sorted, es, n, i);
      sorted := sorted[..i] + [es[n]] + sorted[i..];
    }
    assert es[..|es|] == es;
  }

  lemma InsertedSort(sorted: seq<EntryWithOffset>, es: seq<EntryWithOffset>, n: nat, i: nat)
    requires n < |es| && SortOf(sorted, es[..n]) && i <= |sorted|
    requires forall k | i <= k < |sorted| :: es[n].nodeOffset <= sorted[k].nodeOffset
    requires i > 0 ==> sorted[i - 1].nodeOffset <= es[n].nodeOffset
    ensures SortOf(sorted[..i] + [es[n]] + sorted[i..], es[..n + 1])
  {
    var s' := sorted[..i] + [es[n]] + sorted[i..];
    assert ByOffset(s') by { InsertedOrder(sorted, es[n], i); }
    assert multiset(s') == multiset(es[..n + 1]) by {
      assert sorted == sorted[..i] + sorted[i..];
      assert es[..n + 1] == es[..n] + [es[n]];
    }
  }

  lemma InsertedOrder(sorted: seq<EntryWithOffset>, e: EntryWithOffset, i: nat)
    requires ByOffset(sorted) && i <= |sorted|
    requires forall k | i <= k < |sorted| :: e.nodeOffset <= sorted[k].nodeOffset
    requires i > 0 ==> sorted[i - 1].nodeOffset <= e.nodeOffset
    ensures ByOffset(sorted[..i] + [e] + sorted[i..])
  {
    var s := sorted[..i] + [e] + sorted[i..];
    forall a, b | 0 <= a < b < |s|
      ensures s[a].nodeOffset <= s[b].nodeOffset
    {
      assert s[a] == if a < i then sorted[a] else if a == i then e else sorted[a - 1];
      assert s[b] == if b < i then sorted[b] else if b == i then e else sorted[b - 1];
    }
  }

  /** What is left of equal multisets when the same element is taken out of both. */
  lemma TakeOut<T>(a: seq<T>, i: nat, b: seq<T>, j: nat)
    requires multiset(a) == multiset(b) && i < |a| && j < |b| && a[i] == b[j]
    ensures multiset(a[..i] + a[i + 1..]) == multiset(b[..j] + b[j + 1..])
  {
    assert a == a[..i] + [a[i]] + a[i + 1..];
    assert b == b[..j] + [b[j]] + b[j + 1..];
    assert multiset(a[..i] + a[i + 1..]) == multiset(a) - multiset{a[i]};
    assert multiset(b[..j] + b[j + 1..]) == multiset(b) - multiset{b[j]};
  }

  /** Sorting by distinct keys has one result. */
  lemma {:induction false} SortUnique(a: seq<EntryWithOffset>, b: seq<EntryWithOffset>)
    requires multiset(a) == multiset(b) && ByOffset(a) && Ascending(b)
    ensures a == b
  {
    SameSize(a, b);
    if b != [] {
      var n := |b| - 1;
      LastOfSort(a, b);
      TakeOut(a, n, b, n);
      assert a[..n] + a[n + 1..] == a[..n] && b[..n] + b[n + 1..] == b[..n];
      SortUnique(a[..n], b[..n]);
    }
  }

  lemma LastOfSort(a: seq<EntryWithOffset>, b: seq<EntryWithOffset>)
    requires SortOf(a, b) && |a| == |b| > 0 && Ascending(b)
    ensures a[|a| - 1] == b[|b| - 1]
  {
    var n := |b| - 1;
    assert a[n] in multiset(a) && b[n] in multiset(b);
    var i :| 0 <= i < |b| && b[i] == a[n];
    var j :| 0 <= j < |a| && a[j] == b[n];
    assert a[j].nodeOffset <= a[n].nodeOffset;
  }

  lemma SameSize(a: seq<EntryWithOffset>, b: seq<EntryWithOffset>)
    requires multiset(a) == multiset(b)
    ensures |a| == |b|
  {
    assert |multiset(a)| == |a| && |multiset(b)| == |b|;
  }

  // ----- parseTrie

  /** A readable trie encoded from the first byte on. */
  ghost predicate ReadableAt(s: seq<byte>, off: Offsets, t: Trie<nat>) {
    Encoded(s, off, t) && At(off, t.id) == 0 && Readable(t) && t.cum == [] && t.info == None
  }

  /** parseTrie: walks the trie and reports the exports in the order of their nodes. */
  method ParseTrie(s: seq<byte>, output: seq<Entry>, ghost t: Trie<nat>, ghost off: Offsets)
    returns (out: seq<Entry>, ghost sorted: seq<EntryWithOffset>)
    requires s != [] ==> ReadableAt(s, off, t)
    ensures out == output + Entries(sorted)
    ensures if s == [] then out == output else exists es :: SortOf(es, Parsed(t, off)) && out == output + Entries(es)
    ensures s == [] ==> sorted == []
    ensures s != [] ==> SortOf(sorted, Parsed(t, off))
  {
    hide Encoded, Readable, Parsed;
    sorted := [];
    if |s| == 0 {
      return output + [], sorted;
    }
    var cummulativeString := new byte[BUFFER_SIZE];
    var entries := ProcessExportNode(s, 0, cummulativeString, 0, [], t, off);
    assert entries == Parsed(t, off);
    var es := SortEntries(entries);
    sorted := es;
    out := output;
    for k := 0 to |es|
      invariant out == output + Entries(es)[..k]
    {
      out := out + [es[k].entry];
    }
    assert Entries(es)[..|es|] == Entries(es);
  }

  // ----- what is found in a trie without full nodes: its terminal nodes, each at its place

  function Located(ms: seq<Terminal<nat>>, off: Offsets): seq<EntryWithOffset> {
    if ms == [] then [] else Located(ms[..|ms| - 1], off) + [LocatedOne(ms[|ms| - 1], off)]
  }

  function LocatedOne(m: Terminal<nat>, off: Offsets): EntryWithOffset {
    EntryWithOffset(At(off, m.id) + 1, Entry(m.name, m.info.address, m.info.flags))
  }

  lemma {:induction false} LocatedAt(ms: seq<Terminal<nat>>, off: Offsets, k: nat)
    requires k < |ms|
    ensures |Located(ms, off)| == |ms| && Located(ms, off)[k] == LocatedOne(ms[k], off)
  {
    if k < |ms| - 1 {
      LocatedAt(ms[..|ms| - 1], off, k);
    } else {
      LocatedSize(ms, off);
    }
  }

  lemma {:induction false} LocatedSize(ms: seq<Terminal<nat>>, off: Offsets)
    ensures |Located(ms, off)| == |ms|
  {
    if ms != [] { LocatedSize(ms[..|ms| - 1], off); }
  }

  lemma {:induction false} LocatedConcat(a: seq<Terminal<nat>>, b: seq<Terminal<nat>>, off: Offsets)
    ensures Located(a + b, off) == Located(a, off) + Located(b, off)
  {
    hide LocatedOne;
    if b == [] {
      assert a + b == a;
    } else {
      var n := |b| - 1;
      LocatedConcat(a, b[..n], off);
      assert (a + b)[..|a| + n] == a + b[..n];
    }
  }

  lemma {:induction false} LocatedMultiset(a: seq<Terminal<nat>>, b: seq<Terminal<nat>>, off: Offsets)
    requires multiset(a) == multiset(b)
    ensures multiset(Located(a, off)) == multiset(Located(b, off))
  {
    if a == [] {
      assert |multiset(b)| == 0;
      assert b == [];
    } else {
      var n := |a| - 1;
      assert a == a[..n] + [a[n]];
      assert a[n] in multiset(b);
      var i :| 0 <= i < |b| && b[i] == a[n];
      TakeOut(a, n, b, i);
      assert a[..n] + a[n + 1..] == a[..n];
      LocatedMultiset(a[..n], b[..i] + b[i + 1..], off);
      LocatedTakeOut(b, i, off);
    }
  }

  lemma {:induction false} LocatedTakeOut(b: seq<Terminal<nat>>, i: nat, off: Offsets)
    requires i < |b|
    ensures multiset(Located(b, off)) == multiset(Located(b[..i] + b[i + 1..], off)) + multiset{LocatedOne(b[i], off)}
  {
    hide LocatedOne;
    assert b == b[..i] + ([b[i]] + b[i + 1..]);
    LocatedConcat(b[..i], b[i + 1..], off);
    LocatedConcat(b[..i], [b[i]] + b[i + 1..], off);
    LocatedConcat([b[i]], b[i + 1..], off);
  }

  lemma {:induction false} NarrowCount(t: Trie<nat>)
    requires Narrow(t)
    ensures Visible(|t.kids|) == |t.kids|
  {
  }

  lemma {:induction false} LocatedOwn(t: Trie<nat>, off: Offsets)
    ensures Located(Own(t), off) == ParsedOwn(t, off)
  {
  }

  lemma {:induction false} ParsedNarrow(t: Trie<nat>, off: Offsets)
    requires Narrow(t)
    ensures Parsed(t, off) == Located(Preorder(t), off)
    decreases t, |t.kids| + 1
  {
    hide Narrow, Located, PreorderAll;
    NarrowCount(t);
    ParsedKidsNarrow(t, off, |t.kids|);
    LocatedOwn(t, off);
    assert t.kids[..|t.kids|] == t.kids;
    LocatedConcat(Own(t), PreorderAll(t.kids), off);
  }

  lemma PreorderNext<Id>(kids: seq<Branch<Id>>, n: nat)
    requires 0 < n <= |kids|
    ensures PreorderAll(kids[..n]) == PreorderAll(kids[..n - 1]) + Preorder(kids[n - 1].child)
  {
    assert kids[..n] == kids[..n - 1] + [kids[n - 1]];
    PreorderAllConcat(kids[..n - 1], [kids[n - 1]]);
    PreorderOfOne(kids[n - 1]);
  }

  lemma {:induction false} ParsedKidsNarrow(t: Trie<nat>, off: Offsets, n: nat)
    requires Narrow(t) && n <= |t.kids|
    ensures ParsedKids(t, off, n) == Located(PreorderAll(t.kids[..n]), off)
    decreases t, n
  {
    hide Located, Parsed, ParsedKids, PreorderAll, Preorder;
    ParsedMore(t, off, n);
    if n == 0 {
      NoneLocated(t.kids, off);
    } else {
      ParsedKidsNarrow(t, off, n - 1);
      ParsedNarrow(t.kids[n - 1].child, off);
      PreorderNext(t.kids, n);
      LocatedConcat(PreorderAll(t.kids[..n - 1]), Preorder(t.kids[n - 1].child), off);
    }
  }

  lemma {:induction false} NoneLocated(kids: seq<Branch<nat>>, off: Offsets)
    ensures Located(PreorderAll(kids[..0]), off) == []
  {
  }

  // ----- a full node hides its children

  lemma {:induction false} SomeTerminal<Id>(t: Trie<Id>)
    requires Good(t) && (t.info.Some? || t.kids != [])
    ensures Preorder(t) != []
    decreases t
  {
    if t.info.None? {
      assert RoutedThrough(t, 0);
      SomeTerminal(t.kids[0].child);
    }
  }

  lemma {:induction false} PreorderPrefix<Id>(t: Trie<Id>, n: nat)
    requires Good(t) && n <= |t.kids|
    ensures |PreorderAll(t.kids[..n])| <= |PreorderAll(t.kids)|
    ensures n < |t.kids| ==> |PreorderAll(t.kids[..n])| < |PreorderAll(t.kids)|
  {
    assert t.kids[..n] + t.kids[n..] == t.kids;
    PreorderAllConcat(t.kids[..n], t.kids[n..]);
    if n < |t.kids| {
      assert RoutedThrough(t, n);
      SomeTerminal(t.kids[n].child);
      assert t.kids[n..][0] == t.kids[n];
    }
  }

  lemma {:induction false} ParsedCount(t: Trie<nat>, off: Offsets)
    requires Good(t)
    ensures |Parsed(t, off)| <= |Preorder(t)|
    ensures !Narrow(t) ==> |Parsed(t, off)| < |Preorder(t)|
    decreases t, |t.kids| + 1
  {
    var n := Visible(|t.kids|);
    ParsedKidsCount(t, off, n);
    PreorderPrefix(t, n);
  }

  lemma {:induction false} ParsedKidsCount(t: Trie<nat>, off: Offsets, n: nat)
    requires Good(t) && n <= |t.kids|
    ensures |ParsedKids(t, off, n)| <= |PreorderAll(t.kids[..n])|
    ensures (exists j | 0 <= j < n :: !Narrow(t.kids[j].child)) ==> |ParsedKids(t, off, n)| < |PreorderAll(t.kids[..n])|
    decreases t, n
  {
    if n > 0 {
      ParsedKidsCount(t, off, n - 1);
      ParsedCount(t.kids[n - 1].child, off);
      PreorderNext(t.kids, n);
    }
  }

  // ----- the bytes makeTrie writes can be read

  /** Names a parser can hold in its buffer. */
  predicate Storable(xs: seq<Entry>) {
    DistinctNames(xs) && forall k | 0 <= k < |xs| :: NulFree(xs[k].name) && |xs[k].name| < BUFFER_SIZE
  }

  lemma {:induction false} ReadableTrie(t: Trie<nat>)
    requires Good(t) && (t.info.Some? || t.kids != [])
    requires forall x | x in Names(t) :: NulFree(x) && |x| < BUFFER_SIZE
    ensures Readable(t)
    decreases t
  {
    hide Names;
    var x := SomeName(t);
    NamesExtend(t, x);
    assert forall i | 0 <= i < |t.cum| :: x[i] == t.cum[i];
    forall j | 0 <= j < |t.kids|
      ensures t.kids[j].child.cum == t.cum + t.kids[j].sub && Readable(t.kids[j].child)
    {
      assert RoutedThrough(t, j);
      NamesOfKid(t, j);
      ReadableTrie(t.kids[j].child);
    }
  }

  /** The trie of a list of storable exports, laid out rightly, can be read from its bytes, whatever follows them. */
  lemma {:induction false} StreamReadable(xs: seq<Entry>, off: Offsets, z: seq<byte>)
    requires Storable(xs) && xs != [] && Fits(xs, off)
    ensures ReadableAt(Bytecode(xs, off) + z, off, TrieOf(xs))
  {
    hide TrieOf, OrderOf, Table, Fixed, Start, Stream, Encoded, Readable, NoDup, Good, Distinct, Ids, Names;
    var t := TrieOf(xs);
    TrieOfBuilt(xs);
    OrderComplete(t, xs);
    ReadableTrie(t);
    FirstAtZero(t, xs, off);
    TableItself(t);
    StreamEncodes(OrderOf(t, xs), Table(t), off, t);
    EncodedExtends(Bytecode(xs, off), z, off, t);
  }

  lemma {:induction false} TableItself(t: Trie<nat>)
    requires Distinct(t)
    ensures Denotes(Table(t), t)
  {
    TableDenotes(t, Table(t));
  }

  lemma FirstAtZero(t: Trie<nat>, xs: seq<Entry>, off: Offsets)
    requires Covers(Table(t), OrderOf(t, xs)) && Fixed(OrderOf(t, xs), Table(t), off) && [0] <= OrderOf(t, xs)
    ensures At(off, 0) == 0
  {
    hide OrderOf, Table;
    assert PlacedAt(OrderOf(t, xs), Table(t), off, 0);
  }

  // ----- the exact round trip

  /** The entries as they come back: flags narrowed to 32 bits. */
  function Narrowed(xs: seq<Entry>): (ys: seq<Entry>)
    ensures |ys| == |xs| && forall k | 0 <= k < |xs| :: ys[k] == xs[k].(flags := xs[k].flags % TWO32)
  {
    if xs == [] then []
    else Narrowed(xs[..|xs| - 1]) + [xs[|xs| - 1].(flags := xs[|xs| - 1].flags % TWO32)]
  }

  predicate NarrowFlags(xs: seq<Entry>) {
    forall k | 0 <= k < |xs| :: xs[k].flags < TWO32
  }

  lemma {:induction false} NarrowedIs(xs: seq<Entry>)
    ensures Narrowed(xs) == xs <==> NarrowFlags(xs)
  {
    var ys := Narrowed(xs);
    forall k | 0 <= k < |xs|
      ensures ys[k] == xs[k] <==> xs[k].flags < TWO32
    {
    }
    if NarrowFlags(xs) {
      assert forall k | 0 <= k < |xs| :: ys[k] == xs[k];
    }
  }

  lemma LeafPlaced(t: Trie<nat>, xs: seq<Entry>, k: nat) returns (a: nat)
    requires Built(t, xs) && k < |xs|
    ensures a < |OrderOf(t, xs)| && OrderOf(t, xs)[a] == LeafId(k)
  {
    hide OrderOf;
    OrderComplete(t, xs);
    assert TermsOf(xs)[k] in multiset(TermsOf(xs));
    TerminalsInside(t, TermsOf(xs)[k]);
    assert LeafId(k) in Elems(OrderOf(t, xs));
    a :| 0 <= a < |OrderOf(t, xs)| && OrderOf(t, xs)[a] == LeafId(k);
  }

  /** In a right layout the terminal nodes lie in input order. */
  lemma LeavesAscend(xs: seq<Entry>, off: Offsets, i: nat, j: nat)
    requires DistinctNames(xs) && Fits(xs, off) && i < j < |xs|
    ensures At(off, LeafId(i)) < At(off, LeafId(j))
  {
    hide TrieOf, OrderOf, Table, Built;
    var t := TrieOf(xs);
    TrieOfBuilt(xs);
    var a := LeafPlaced(t, xs, i);
    var b := LeafPlaced(t, xs, j);
    LeavesInOrder(t, xs, i, j, a, b);
    assert PlacedAt(OrderOf(t, xs), Table(t), off, a);
    assert PlacedAt(OrderOf(t, xs), Table(t), off, b);
    StartLater(OrderOf(t, xs), Table(t), off, a, b);
  }

  lemma {:induction false} LocatedTerm(xs: seq<Entry>, off: Offsets, k: nat)
    requires k < |xs|
    ensures var es := Located(TermsOf(xs), off);
            |es| == |xs| && es[k] == EntryWithOffset(At(off, LeafId(k)) + 1, xs[k].(flags := xs[k].flags % TWO32))
  {
    LocatedAt(TermsOf(xs), off, k);
  }

  /** What is found in the trie of a list, put in the order of the nodes: the input, flags narrowed. */
  lemma LeavesFound(xs: seq<Entry>, off: Offsets) returns (es: seq<EntryWithOffset>)
    requires DistinctNames(xs) && Fits(xs, off) && Narrow(TrieOf(xs))
    ensures multiset(es) == multiset(Parsed(TrieOf(xs), off)) && Ascending(es)
    ensures Entries(es) == Narrowed(xs)
  {
    hide TrieOf, Parsed, Fits, Narrow;
    var t := TrieOf(xs);
    es := Located(TermsOf(xs), off);
    TrieOfBuilt(xs);
    ParsedNarrow(t, off);
    LocatedMultiset(Preorder(t), TermsOf(xs), off);
    LocatedSize(TermsOf(xs), off);
    hide Preorder, Located, Built, TermsOf, At, LeafId;
    forall i, j | 0 <= i < j < |es|
      ensures es[i].nodeOffset < es[j].nodeOffset
    {
      LeavesAscend(xs, off, i, j);
      LocatedTerm(xs, off, i);
      LocatedTerm(xs, off, j);
    }
    forall k | 0 <= k < |xs|
      ensures Entries(es)[k] == Narrowed(xs)[k]
    {
      LocatedTerm(xs, off, k);
    }
  }

  /** Sorted by node offset, the terminal nodes come in input order. */
  lemma {:induction false} SortedNarrow(xs: seq<Entry>, off: Offsets, sorted: seq<EntryWithOffset>)
    requires DistinctNames(xs) && Fits(xs, off) && Narrow(TrieOf(xs)) && SortOf(sorted, Parsed(TrieOf(xs), off))
    ensures Entries(sorted) == Narrowed(xs)
  {
    hide TrieOf, Parsed, Fits, Narrow, Narrowed;
    var es := LeavesFound(xs, off);
    SortUnique(sorted, es);
  }

  lemma {:induction false} SortedFull(xs: seq<Entry>, off: Offsets, sorted: seq<EntryWithOffset>)
    requires DistinctNames(xs) && !Narrow(TrieOf(xs)) && SortOf(sorted, Parsed(TrieOf(xs), off))
    ensures |sorted| < |xs|
  {
    hide TrieOf, Parsed, Narrow;
    var t := TrieOf(xs);
    TrieOfBuilt(xs);
    ParsedCount(t, off);
    SameSize(sorted, Parsed(t, off));
    assert |multiset(Preorder(t))| == |Preorder(t)| && |multiset(TermsOf(xs))| == |TermsOf(xs)|;
  }

  /** What comes back, whichever way the offsets were settled and the entries sorted: all exports in their order with
      flags narrowed, unless a child count overflowed its byte, and then exports are lost. */
  lemma {:induction false} RoundTrip(xs: seq<Entry>, off: Offsets, sorted: seq<EntryWithOffset>)
    requires Storable(xs) && Fits(xs, off) && SortOf(sorted, Parsed(TrieOf(xs), off))
    ensures !Overfull(xs) ==> Entries(sorted) == Narrowed(xs)
    ensures Overfull(xs) ==> |sorted| < |xs|
    ensures Entries(sorted) == xs <==> !Overfull(xs) && NarrowFlags(xs)
  {
    hide TrieOf, Parsed, Fits, Narrow, Overfull, Narrowed, NarrowFlags;
    NarrowExactly(xs);
    if Narrow(TrieOf(xs)) {
      SortedNarrow(xs, off, sorted);
      NarrowedIs(xs);
    } else {
      SortedFull(xs, off, sorted);
    }
  }

  /** Writing a list and reading it back. */
  method WriteAndRead(xs: seq<Entry>, padding: seq<byte>) returns (ys: seq<Entry>)
    requires Storable(xs) && (xs == [] ==> padding == []) && exists fix :: Fits(xs, fix)
    ensures !Overfull(xs) ==> ys == Narrowed(xs)
    ensures ys == xs <==> !Overfull(xs) && NarrowFlags(xs)
  {
    hide TrieOf, Parsed, Overfull, ReadableAt, Fits, Bytecode, SortOf, Narrowed, NarrowFlags;
    var bytes; ghost var off;
    bytes, off := MakeTrie(xs, []);
    ghost var sorted;
    assert [] + Bytecode(xs, off) == Bytecode(xs, off);
    if xs != [] {
      StreamReadable(xs, off, padding);
      StreamNotEmpty(xs, off);
    } else {
      NothingWritten(xs, off);
    }
    ys, sorted := ParseTrie(bytes + padding, [], TrieOf(xs), off);
    assert ys == Entries(sorted);
    if xs != [] {
      RoundTrip(xs, off, sorted);
    }
  }

  lemma {:induction false} NothingWritten(xs: seq<Entry>, off: Offsets)
    requires xs == [] && Fits(xs, off)
    ensures Bytecode(xs, off) == [] && Narrowed(xs) == [] && NarrowFlags(xs) && !Overfull(xs)
  {
    OrderFacts(xs);
    EmptyNotOverfull();
  }

  lemma EmptyNotOverfull()
    ensures !Overfull([])
  {
  }

  lemma StreamNotEmpty(xs: seq<Entry>, off: Offsets)
    requires DistinctNames(xs) && xs != [] && Fits(xs, off)
    ensures Bytecode(xs, off) != []
  {
    hide TrieOf, OrderOf, Table;
    TrieOfBuilt(xs);
    OrderComplete(TrieOf(xs), xs);
    StartLater(OrderOf(TrieOf(xs), xs), Table(TrieOf(xs)), off, 0, |OrderOf(TrieOf(xs), xs)|);
  }
}
