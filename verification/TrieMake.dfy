/** makeTrie as a whole: from a list of exports to the bytes of the least layout with every node at its own offset. */
module TrieMake {
  import opened Bytes
  import opened TrieModel
  import opened TrieRecords
  import opened TrieBuild
  import opened TrieOrder
  import opened TrieLayout
  import opened TrieStream
  import opened TrieNode
  import opened TrieWriter

  /** The layout of a trie: its order, the table of its nodes, and offsets that fit in 32 bits. */
  ghost predicate Fits(xs: seq<Entry>, off: Offsets)
  {
    var t := TrieOf(xs);
    var order := OrderOf(t, xs);
    Covers(Table(t), order) && Fixed(order, Table(t), off) && Start(order, Table(t), off, |order|) < TWO32
  }

  /** The bytes of that layout. */
  ghost function Bytecode(xs: seq<Entry>, off: Offsets): seq<byte>
    requires Fits(xs, off)
  {
    var t := TrieOf(xs);
    Stream(OrderOf(t, xs), Table(t), off, |OrderOf(t, xs)|)
  }

  /** The layout makeTrie settles on: no other right layout has a smaller offset anywhere. */
  ghost predicate LeastFit(xs: seq<Entry>, off: Offsets) {
    Fits(xs, off) && forall fix | Fits(xs, fix) :: Leq(off, fix)
  }

  /** makeTrie writes one sequence of bytes for a list. */
  lemma LeastOnce(xs: seq<Entry>, a: Offsets, b: Offsets)
    requires LeastFit(xs, a) && LeastFit(xs, b)
    ensures Bytecode(xs, a) == Bytecode(xs, b)
  {
    hide TrieOf, OrderOf, Table, Fixed, Start, Stream;
    assert Leq(a, b) && Leq(b, a);
    StreamOfSame(OrderOf(TrieOf(xs), xs), Table(TrieOf(xs)), a, b, |OrderOf(TrieOf(xs), xs)|);
  }

  ghost predicate Stored(start: Node, t: Trie<nat>, reg: Register, snap: Snapshot, bound: nat)
    reads reg.Values
  {
    && Heap(reg, snap) && Denotes(snap, t) && t.id == 0 && 0 in reg && reg[0] == start
    && forall i | i in reg :: i <= bound
  }

  /** What storing entry `k` needs. */
  lemma StoreReady(input: seq<Entry>, k: nat)
    requires DistinctNames(input) && k <= |input|
    ensures var t := TrieOf(input[..k]); Distinct(t) && Good(t) && t.cum == [] && t.id == 0
  {
    TrieOfRouted(input, k);
    TrieOfNumbered(input, k);
  }

  lemma {:induction false} EmptyDenoted(snap: Snapshot)
    requires 0 in snap && snap[0] == Rec([], None, [])
    ensures Denotes(snap, Trie(0, [], None, []))
  {
    assert RecOf(Trie(0, [], None, [])) == Rec([], None, []);
  }

  method StartNode() returns (start: Node, ghost reg: Register, ghost snap: Snapshot)
    ensures Stored(start, Trie(0, [], None, []), reg, snap, 0) && fresh(reg.Values)
  {
    start := new Node([]);
    reg, snap := map[0 := start], map[0 := Rec([], None, [])];
    EmptyDenoted(snap);
  }

  /** One round of the first loop of makeTrie. */
  method StoreEntry(start: Node, x: Entry, ghost t: Trie<nat>, ghost reg: Register, ghost snap: Snapshot, ghost k: nat)
    returns (ghost reg': Register, ghost snap': Snapshot)
    requires Stored(start, t, reg, snap, 2 * k) && Distinct(t) && Good(t) && t.cum == []
    modifies reg.Values`fChildren
    ensures Stored(start, Insert(t, x.name, InfoOf(x), LeafId(k), MidId(k)), reg', snap', 2 * (k + 1))
    ensures Grew(reg, reg', LeafId(k), MidId(k))
  {
    hide Insert, NewIds, Ids, Distinct, Good, Denotes, Heap;
    reg', snap' := start.AddSymbol(x.name, x.address, x.flags % TWO32, t, reg, snap, LeafId(k), MidId(k));
  }

  /** The first loop of makeTrie. */
  method BuildNodes(input: seq<Entry>) returns (start: Node, ghost reg: Register, ghost snap: Snapshot)
    requires DistinctNames(input)
    ensures Stored(start, TrieOf(input), reg, snap, 2 * |input|) && fresh(reg.Values)
  {
    hide Heap, Denotes, TrieOf, Insert, Distinct, Good;
    start, reg, snap := StartNode();
    assert TrieOf(input[..0]) == Trie(0, [], None, []) by { EmptyTrie(input); }
    for k := 0 to |input|
      invariant Stored(start, TrieOf(input[..k]), reg, snap, 2 * k)
      invariant fresh(reg.Values)
    {
      StoreReady(input, k);
      TrieOfSnoc(input, k);
      reg, snap := StoreEntry(start, input[k], TrieOf(input[..k]), reg, snap, k);
    }
    assert input[..|input|] == input;
  }

  lemma EmptyTrie(input: seq<Entry>)
    ensures TrieOf(input[..0]) == Trie(0, [], None, [])
  {
  }

  lemma CollectSteps(paths: seq<seq<nat>>, k: nat)
    ensures Collect(paths, 0) == []
    ensures k < |paths| ==> Collect(paths, k + 1) == Visit(paths[k], Collect(paths, k))
  {
  }

  lemma {:induction false} OrderIs(t: Trie<nat>, xs: seq<Entry>)
    ensures OrderOf(t, xs) == Collect(Paths(t, xs), |xs|)
  {
  }

  /** The second loop of makeTrie: the order follows the paths of the names. */
  method OrderNodes(start: Node, input: seq<Entry>, ghost t: Trie<nat>, ghost reg: Register, ghost snap: Snapshot)
    returns (nodes: seq<Node>)
    requires Shaped(reg, snap) && Denotes(snap, t) && t.id in reg && reg[t.id] == start
    requires Good(t) && Distinct(t) && t.cum == []
    requires forall i | i in reg :: !reg[i].fOrdered
    modifies reg.Values`fOrdered
    ensures Marked(nodes, OrderOf(t, input), reg)
  {
    hide Denotes, Good, Distinct, Shaped, Visit, Path, Paths, Collect, OrderOf;
    nodes := [];
    ghost var paths := Paths(t, input);
    assert Collect(paths, 0) == [] by { CollectSteps(paths, 0); }
    for k := 0 to |input|
      invariant Marked(nodes, Collect(paths, k), reg)
    {
      CollectSteps(paths, k);
      nodes := start.AddOrderedNodes(input[k].name, nodes, t, reg, snap, Collect(paths, k));
    }
    OrderIs(t, input);
  }

  lemma StreamNext(output: seq<byte>, order: seq<nat>, snap: Snapshot, off: Offsets, k: nat)
    requires Covers(snap, order)
    ensures output + Stream(order, snap, off, 0) == output
    ensures k < |order| ==>
              output + Stream(order, snap, off, k + 1)
              == (output + Stream(order, snap, off, k)) + EmitNode(snap[order[k]], off)
  {
    hide EmitNode;
  }

  /** The last loop of makeTrie. */
  method WriteNodes(nodes: seq<Node>, output: seq<byte>, ghost order: seq<nat>, ghost reg: Register,
                    ghost snap: Snapshot)
    returns (out: seq<byte>)
    requires Listing(nodes, order, reg, snap)
    ensures out == output + Stream(order, snap, OffsetsOf(reg), |order|)
  {
    hide EmitNode, NoDup, Stream, OffsetsOf, Matches;
    ghost var off := OffsetsOf(reg);
    out := output;
    StreamNext(output, order, snap, off, 0);
    for k := 0 to |nodes|
      invariant out == output + Stream(order, snap, off, k)
    {
      StreamNext(output, order, snap, off, k);
      out := nodes[k].AppendToStream(out, snap[order[k]], reg);
    }
  }

  /** The heap's table and the trie's own table agree on every node of the trie. */
  lemma {:induction false} TablesAgree(t: Trie<nat>, snap: Snapshot, order: seq<nat>)
    requires Denotes(snap, t) && Elems(order) <= Ids(t)
    ensures Agree(order, Table(t), snap) && Agree(order, snap, Table(t))
  {
    forall k | 0 <= k < |order|
      ensures order[k] in Ids(t) && order[k] in snap && snap[order[k]] == RecOf(Sub(t, order[k]))
    {
      assert order[k] in Elems(order);
      DenotedRecords(t, snap, order[k]);
    }
  }

  /** What the order of a built trie is like; without entries it is empty. */
  lemma {:induction false} OrderFacts(xs: seq<Entry>)
    requires DistinctNames(xs)
    ensures var t := TrieOf(xs); NoDup(OrderOf(t, xs)) && Elems(OrderOf(t, xs)) <= Ids(t)
    ensures xs == [] ==> OrderOf(TrieOf(xs), xs) == []
  {
    TrieOfBuilt(xs);
    if xs != [] {
      OrderComplete(TrieOf(xs), xs);
    }
  }

  lemma {:induction false} LeastFits(xs: seq<Entry>, snap: Snapshot, off: Offsets)
    requires var t := TrieOf(xs); Agree(OrderOf(t, xs), Table(t), snap) && Agree(OrderOf(t, xs), snap, Table(t))
    requires var order := OrderOf(TrieOf(xs), xs);
             Fixed(order, snap, off) && Least(order, snap, off) && Start(order, snap, off, |order|) < TWO32
    ensures LeastFit(xs, off)
    ensures Bytecode(xs, off) == Stream(OrderOf(TrieOf(xs), xs), snap, off, |OrderOf(TrieOf(xs), xs)|)
  {
    hide OrderOf, TrieOf, Table, Leq;
    var t := TrieOf(xs);
    var order := OrderOf(t, xs);
    FixedAgrees(order, snap, Table(t), off);
    StreamAgrees(order, snap, Table(t), off, |order|);
    forall fix | Fits(xs, fix)
      ensures Leq(off, fix)
    {
      FixedAgrees(order, Table(t), snap, fix);
    }
  }

  /** makeTrie. The exports must have distinct names, and some right layout must fit in 32-bit offsets. */
  method MakeTrie(input: seq<Entry>, output: seq<byte>) returns (out: seq<byte>, ghost off: Offsets)
    requires DistinctNames(input)
    requires exists fix :: Fits(input, fix)
    ensures LeastFit(input, off)
    ensures forall settled | LeastFit(input, settled) :: out == output + Bytecode(input, settled)
  {
    hide TrieOf, OrderOf, Table, Denotes, Fixed, Start, Stream, NoDup, Ids, Least, Agree, Good, Distinct, Elems,
         Bytecode;
    var start; ghost var reg, snap;
    start, reg, snap := BuildNodes(input);
    ghost var t := TrieOf(input);
    ghost var order := OrderOf(t, input);
    TrieOfBuilt(input);
    OrderFacts(input);
    TablesAgree(t, snap, order);
    var nodes := OrderNodes(start, input, t, reg, snap);
    ghost var fix :| Fits(input, fix);
    FixedAgrees(order, Table(t), snap, fix);
    StreamAgrees(order, Table(t), snap, fix, |order|);
    AssignOffsets(nodes, order, reg, snap, fix);
    off := OffsetsOf(reg);
    out := WriteNodes(nodes, output, order, reg, snap);
    LeastFits(input, snap, off);
    forall settled | LeastFit(input, settled)
      ensures Bytecode(input, settled) == Bytecode(input, off)
    {
      LeastOnce(input, settled, off);
    }
  }
}
