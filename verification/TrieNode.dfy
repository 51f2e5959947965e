/** The trie as it is built: node objects with edges rewired in place, each step tied to the trie as a value. */
module TrieNode {
  import opened Bytes
  import opened TrieModel
  import opened TrieRecords
  import opened TrieLayout
  import opened TrieStream
  import opened TrieOrder
  import Uleb

  datatype Edge = Edge(fSubString: Str, fChild: Node)

  /** strncmp(a, b, n) == 0, for NUL-free strings of which the first has at least `n` bytes. */
  predicate SameStart(a: Str, b: Str, n: nat)
    requires n <= |a|
  {
    a[..n] <= b
  }

  lemma {:induction false} CommonIs(a: Str, b: Str, k: nat)
    requires k <= |a| && a[..k] <= b && (k == |a| || !(a[..k + 1] <= b))
    ensures Common(a, b) == k
  {
  }

  // ----- the heap: a register names every node object, a snapshot says what each object holds

  type Register = map<nat, Node>

  ghost predicate Injective(reg: Register) {
    forall i, j | i in reg && j in reg && i != j :: reg[i] != reg[j]
  }

  /** Edge by edge, the strings are the same and the child is the object of that name. */
  ghost predicate EdgesMatch(es: seq<Edge>, ls: seq<Link>, reg: Register) {
    && |es| == |ls|
    && forall j | 0 <= j < |ls| :: ls[j].to in reg && es[j] == Edge(ls[j].sub, reg[ls[j].to])
  }

  lemma EdgeReplaced(es: seq<Edge>, ls: seq<Link>, reg: Register, reg': Register, j: nat, e: Edge, l: Link)
    requires EdgesMatch(es, ls, reg) && j < |es| && l.to in reg' && e == Edge(l.sub, reg'[l.to])
    requires forall i | i in reg :: i in reg' && reg'[i] == reg[i]
    ensures EdgesMatch(es[j := e], ls[j := l], reg')
  {
  }

  lemma EdgeAppended(es: seq<Edge>, ls: seq<Link>, reg: Register, reg': Register, e: Edge, l: Link)
    requires EdgesMatch(es, ls, reg) && l.to in reg' && e == Edge(l.sub, reg'[l.to])
    requires forall i | i in reg :: i in reg' && reg'[i] == reg[i]
    ensures EdgesMatch(es + [e], ls + [l], reg')
  {
  }

  /** More names do no harm. */
  lemma EdgesStill(es: seq<Edge>, ls: seq<Link>, reg: Register, reg': Register)
    requires EdgesMatch(es, ls, reg) && forall i | i in reg :: i in reg' && reg'[i] == reg[i]
    ensures EdgesMatch(es, ls, reg')
  {
  }

  ghost predicate Matches(n: Node, r: Rec, reg: Register)
    reads n`fChildren, n`fAddress, n`fFlags, n`fHaveExportInfo
  {
    && n.fCummulativeString == r.cum
    && n.fHaveExportInfo == r.info.Some?
    && (r.info.Some? ==> r.info.value == Info(n.fAddress, n.fFlags))
    && EdgesMatch(n.fChildren, r.links, reg)
  }

  /** Every object holds its record. */
  ghost predicate Shaped(reg: Register, snap: Snapshot)
    reads reg.Values`fChildren, reg.Values`fAddress, reg.Values`fFlags, reg.Values`fHaveExportInfo
  {
    && reg.Keys == snap.Keys
    && Injective(reg)
    && forall i | i in reg :: Matches(reg[i], snap[i], reg)
  }

  /** The heap while names are being stored: no node is in the layout yet. */
  ghost predicate Heap(reg: Register, snap: Snapshot)
    reads reg.Values
  {
    && reg.Keys == snap.Keys
    && Injective(reg)
    && forall i | i in reg :: Matches(reg[i], snap[i], reg) && !reg[i].fOrdered && reg[i].fTrieOffset == 0
  }

  /** The stored offsets. */
  ghost function OffsetsOf(reg: Register): Offsets
    reads reg.Values`fTrieOffset
  {
    map i | i in reg :: reg[i].fTrieOffset as nat
  }

  /** The vector of node pointers lists the nodes `acc`, and exactly those are marked. */
  ghost predicate Marked(nodes: seq<Node>, acc: seq<nat>, reg: Register)
    reads reg.Values`fOrdered
  {
    && |nodes| == |acc|
    && (forall k | 0 <= k < |acc| :: acc[k] in reg && nodes[k] == reg[acc[k]])
    && (forall i | i in reg :: reg[i].fOrdered <==> i in acc)
  }

  /** Every old object is still registered, and what was added are fresh objects under the two given names. */
  twostate predicate Grew(reg: Register, new reg': Register, leaf: nat, mid: nat) {
    && (forall i | i in reg :: i in reg' && reg'[i] == reg[i])
    && (forall i | i in reg' && i !in reg ::
          (i == leaf || i == mid) && fresh(reg'[i]))
  }

  lemma NoEdges(reg: Register)
    ensures EdgesMatch([], [], reg)
  {
  }

  lemma OneEdge(reg: Register, e: Edge, l: Link)
    requires l.to in reg && e == Edge(l.sub, reg[l.to])
    ensures EdgesMatch([e], [l], reg)
  {
  }

  /** The heap, one object and the others. */
  lemma HeapParts(reg: Register, snap: Snapshot, me: nat)
    requires Heap(reg, snap) && me in reg
    ensures reg.Keys == snap.Keys && Injective(reg) && Matches(reg[me], snap[me], reg)
    ensures forall i | i in reg && i != me :: reg[i] != reg[me] && Matches(reg[i], snap[i], reg)
    ensures forall i | i in reg :: !reg[i].fOrdered && reg[i].fTrieOffset == 0
  {
    hide Matches;
  }

  /** One edge of one object. */
  lemma EdgeParts(reg: Register, snap: Snapshot, me: nat, j: nat)
    requires Heap(reg, snap) && me in reg && j < |reg[me].fChildren|
    ensures me in snap && j < |snap[me].links|
    ensures var l := snap[me].links[j];
            && l.to in reg && l.to in snap && reg[me].fChildren[j] == Edge(l.sub, reg[l.to])
            && reg[l.to].fCummulativeString == snap[l.to].cum
  {
    assert Matches(reg[me], snap[me], reg);
    assert Matches(reg[snap[me].links[j].to], snap[snap[me].links[j].to], reg);
  }

  /** What the object of a node holds. */
  lemma {:induction false} HeapAt(reg: Register, snap: Snapshot, t: Trie<nat>)
    requires Heap(reg, snap) && Denotes(snap, t)
    ensures reg.Keys == snap.Keys && t.id in reg && snap[t.id] == RecOf(t) && t.id in Ids(t)
    ensures var n := reg[t.id];
            Matches(n, RecOf(t), reg) && n.fCummulativeString == t.cum && |n.fChildren| == |t.kids|
  {
    AtNode(snap, t);
    assert Matches(reg[t.id], snap[t.id], reg);
  }

  /** What its edges lead to. */
  lemma {:induction false} HeapAtKid(reg: Register, snap: Snapshot, t: Trie<nat>, j: nat)
    requires Heap(reg, snap) && Denotes(snap, t) && Distinct(t) && j < |t.kids|
    ensures t.id in reg && |reg[t.id].fChildren| == |t.kids|
    ensures var c := t.kids[j].child;
            && c.id in reg && reg[t.id].fChildren[j] == Edge(t.kids[j].sub, reg[c.id])
            && reg[c.id].fCummulativeString == c.cum
            && snap[c.id].cum == c.cum && Denotes(snap, c) && Distinct(c) && Ids(c) <= Ids(t) && t.id !in Ids(c)
            && RecOf(t).links[j] == Link(t.kids[j].sub, c.id)
  {
    hide Ids, Distinct, Denotes, RecOf;
    AtKid(snap, t, j);
    HeapAt(reg, snap, t);
    assert Matches(reg[t.kids[j].child.id], snap[t.kids[j].child.id], reg);
  }

  /** After one node was rewired and one was added, the whole heap is described again. */
  lemma Grown(reg: Register, snap: Snapshot, reg': Register, snap': Snapshot, me: nat, extra: nat)
    requires reg.Keys == snap.Keys && Injective(reg) && me in reg && extra !in reg
    requires reg'.Keys == reg.Keys + {extra} == snap'.Keys
    requires forall i | i in reg :: reg'[i] == reg[i] && reg'[extra] != reg[i]
    requires forall i | i in reg && i != me :: snap'[i] == snap[i] && Matches(reg[i], snap[i], reg)
    requires Matches(reg'[me], snap'[me], reg') && Matches(reg'[extra], snap'[extra], reg')
    requires forall i | i in reg' :: !reg'[i].fOrdered && reg'[i].fTrieOffset == 0
    ensures Heap(reg', snap')
  {
    hide EdgesMatch;
    forall i | i in reg'
      ensures Matches(reg'[i], snap'[i], reg')
    {
      if i in reg && i != me {
        EdgesStill(reg[i].fChildren, snap[i].links, reg, reg');
      }
    }
  }

  /** What is left to do after an edge was split is the same insertion below the new node. */
  lemma {:induction false} SpliceReady(snap: Snapshot, t: Trie<nat>, j: nat, k: nat, y: Str, info: Info, leaf: nat,
                                       mid: nat)
    requires Denotes(snap, t) && Distinct(t) && Good(t) && t.cum <= y && mid !in snap
    requires j == Hit(t.kids, Rest(t.cum, y)) < |t.kids|
    requires k == Common(t.kids[j].sub, Rest(t.cum, y)) < |t.kids[j].sub|
    ensures k > 0
    ensures var t1 := Spliced(t, j, k, mid);
            var c := t1.kids[j].child;
            && Good(c) && c.cum <= y && |c.cum| > |t.cum|
            && (forall i | i in snap && i !in Ids(t) :: i !in Ids(c))
            && NewIds(c, y, leaf, mid) == {leaf}
            && Insert(t, y, info, leaf, mid)
               == t1.(kids := t1.kids[j := Branch(t1.kids[j].sub, Insert(c, y, info, leaf, mid))])
  {
    hide Insert, NewIds, Ids, Distinct, Good, Hit, Common, Denotes;
    InsertAfterSplice(t, j, k, y, info, leaf, mid);
    DenotesRegistered(snap, t);
    MiddleIds(t, j, k, mid);
    IdsOfKid(t, j);
  }

  /** What is new at a node depends on the edge that is hit. */
  lemma {:induction false} NewLeaf(t: Trie<nat>, y: Str, leaf: nat, mid: nat)
    ensures leaf in NewIds(t, y, leaf, mid)
    ensures var j := Hit(t.kids, Rest(t.cum, y));
            j < |t.kids| && !(t.kids[j].sub <= Rest(t.cum, y)) ==> mid in NewIds(t, y, leaf, mid)
  {
  }

  lemma {:induction false} GoodKid(t: Trie<nat>, j: nat)
    requires Good(t) && j < |t.kids|
    ensures Good(t.kids[j].child) && t.kids[j].child.cum == t.cum + t.kids[j].sub
  {
    assert RoutedThrough(t, j);
  }

  lemma {:induction false} LinksStep(ls: seq<Link>, i: nat, off: Offsets)
    requires i < |ls|
    ensures LinkBytes(ls[..i + 1], off) == LinkBytes(ls[..i], off) + |ls[i].sub| + 1 + Uleb.Size(At(off, ls[i].to))
    ensures EmitLinks(ls[..i + 1], off) == EmitLinks(ls[..i], off) + EmitLink(ls[i], off)
  {
    hide EmitLink;
    assert ls[..i + 1][..i] == ls[..i];
  }

  /** Walking a path is visiting this node and then walking the rest. */
  lemma VisitStep(t: Trie<nat>, x: Str, acc: seq<nat>)
    ensures var acc1 := if t.id in acc then acc else acc + [t.id];
            var j := Match(t.kids, Rest(t.cum, x));
            Visit(Path(t, x), acc) == if j < |t.kids| then Visit(Path(t.kids[j].child, x), acc1) else acc1
  {
    var j := Match(t.kids, Rest(t.cum, x));
    assert Path(t, x)[1..] == if j < |t.kids| then Path(t.kids[j].child, x) else [];
  }

  class Node {
    const fCummulativeString: Str
    var fChildren: seq<Edge>
    var fAddress: u64
    var fFlags: u32
    var fOrdered: bool
    var fHaveExportInfo: bool
    var fTrieOffset: u32

    constructor (s: Str)
      ensures fCummulativeString == s && fChildren == [] && fAddress == 0 && fFlags == 0
      ensures !fOrdered && !fHaveExportInfo && fTrieOffset == 0
    {
      fCummulativeString := s;
      fChildren, fAddress, fFlags := [], 0, 0;
      fOrdered, fHaveExportInfo, fTrieOffset := false, false, 0;
    }

    /** A node created with its export information. */
    constructor Terminal(s: Str, address: u64, flags: u32)
      ensures fCummulativeString == s && fChildren == [] && fAddress == address && fFlags == flags
      ensures !fOrdered && fHaveExportInfo && fTrieOffset == 0
    {
      fCummulativeString := s;
      fChildren, fAddress, fFlags := [], address, flags;
      fOrdered, fHaveExportInfo, fTrieOffset := false, true, 0;
    }

    /** A node created with its one edge. */
    constructor Between(s: Str, e: Edge)
      ensures fCummulativeString == s && fChildren == [e] && fAddress == 0 && fFlags == 0
      ensures !fOrdered && !fHaveExportInfo && fTrieOffset == 0
    {
      fCummulativeString := s;
      fChildren, fAddress, fFlags := [e], 0, 0;
      fOrdered, fHaveExportInfo, fTrieOffset := false, false, 0;
    }

    /** The search half of addSymbol: the first edge with something in common with the string, and how much. */
    method FindEdge(partialStr: Str, ghost t: Trie<nat>, ghost reg: Register) returns (j: nat, k: nat)
      requires Matches(this, RecOf(t), reg)
      ensures j == Hit(t.kids, partialStr) && |fChildren| == |t.kids|
      ensures j < |fChildren| ==> fChildren[j].fSubString == t.kids[j].sub && k == Common(t.kids[j].sub, partialStr)
    {
      j, k := 0, 0;
      while j < |fChildren|
        invariant j <= |fChildren|
        invariant forall i | 0 <= i < j :: Diverges(t.kids[i].sub, partialStr)
      {
        var sub := fChildren[j].fSubString;
        assert sub == t.kids[j].sub;
        if SameStart(sub, partialStr, |sub|) {
          k := |sub|;
          CommonIs(sub, partialStr, k);
          return;
        }
        k := |sub| - 1;
        while k > 0
          invariant 0 <= k < |sub|
          invariant forall i | k < i <= |sub| :: !SameStart(sub, partialStr, i)
        {
          if SameStart(sub, partialStr, k) {
            assert !SameStart(sub, partialStr, k + 1);
            CommonIs(sub, partialStr, k);
            return;
          }
          k := k - 1;
        }
        assert !SameStart(sub, partialStr, 1);
        assert sub[..1] == [sub[0]];
        j := j + 1;
      }
    }

    /** The last lines of addSymbol: no edge has anything in common with the string. */
    method AddLeaf(partialStr: Str, fullStr: Str, address: u64, flags: u32,
                   ghost me: nat, ghost reg: Register, ghost snap: Snapshot, ghost leaf: nat)
      returns (ghost reg': Register, ghost snap': Snapshot)
      requires Heap(reg, snap) && me in reg && reg[me] == this && leaf !in reg
      modifies this`fChildren
      ensures leaf in reg' && reg' == reg[leaf := reg'[leaf]] && Heap(reg', snap')
      ensures fresh(reg'[leaf])
      ensures Rewired(snap, snap', me, snap[me].(links := snap[me].links + [Link(partialStr, leaf)]),
                      leaf, Rec(fullStr, Some(Info(address, flags)), []))
    {
      hide EdgesMatch, Heap, Injective;
      HeapParts(reg, snap, me);
      var newNode := new Node.Terminal(fullStr, address, flags);
      fChildren := fChildren + [Edge(partialStr, newNode)];
      reg' := reg[leaf := newNode];
      snap' := snap[me := snap[me].(links := snap[me].links + [Link(partialStr, leaf)])]
                   [leaf := Rec(fullStr, Some(Info(address, flags)), [])];
      EdgeAppended(old(fChildren), snap[me].links, reg, reg', Edge(partialStr, newNode), Link(partialStr, leaf));
      NoEdges(reg');
      Grown(reg, snap, reg', snap', me, leaf);
    }

    /** The splice of addSymbol: a new node takes over edge `j` after `i` bytes, and the old child hangs below it. */
    method SpliceEdge(j: nat, i: nat, ghost me: nat, ghost reg: Register, ghost snap: Snapshot, ghost mid: nat)
      returns (bNode: Node, ghost reg': Register, ghost snap': Snapshot)
      requires Heap(reg, snap) && me in reg && reg[me] == this && mid !in reg
      requires j < |fChildren| && i <= |fChildren[j].fSubString|
      requires |fChildren[j].fSubString| <= |fChildren[j].fChild.fCummulativeString| + i
      modifies this`fChildren
      ensures reg' == reg[mid := bNode] && Heap(reg', snap')
      ensures fresh(bNode)
      ensures j < |snap[me].links| && snap[me].links[j].sub == old(fChildren[j].fSubString)
      ensures snap[me].links[j].to in snap
      ensures var l := snap[me].links[j];
              var cum := snap[l.to].cum;
              Rewired(snap, snap', me, snap[me].(links := snap[me].links[j := Link(l.sub[..i], mid)]),
                      mid, Rec(cum[..|cum| + i - |l.sub|], None, [Link(l.sub[i..], l.to)]))
    {
      hide EdgesMatch, Heap, Injective;
      HeapParts(reg, snap, me);
      EdgeParts(reg, snap, me, j);
      var e := fChildren[j];
      var cummLen := |e.fChild.fCummulativeString| + i - |e.fSubString|;
      ghost var l := snap[me].links[j];
      bNode := new Node.Between(e.fChild.fCummulativeString[..cummLen], Edge(e.fSubString[i..], e.fChild));
      fChildren := fChildren[j := Edge(e.fSubString[..i], bNode)];
      reg' := reg[mid := bNode];
      snap' := snap[me := snap[me].(links := snap[me].links[j := Link(l.sub[..i], mid)])]
                   [mid := Rec(e.fChild.fCummulativeString[..cummLen], None, [Link(l.sub[i..], l.to)])];
      EdgeReplaced(old(fChildren), snap[me].links, reg, reg', j, Edge(e.fSubString[..i], bNode), Link(l.sub[..i], mid));
      OneEdge(reg', Edge(e.fSubString[i..], e.fChild), Link(l.sub[i..], l.to));
      Grown(reg, snap, reg', snap', me, mid);
    }

    /** addSymbol: the heap follows `Insert`, rewiring edges in place and creating only the nodes it must. */
    method AddSymbol(fullStr: Str, address: u64, flags: u32,
                     ghost t: Trie<nat>, ghost reg: Register, ghost snap: Snapshot, ghost leaf: nat, ghost mid: nat)
      returns (ghost reg': Register, ghost snap': Snapshot)
      requires Heap(reg, snap) && Denotes(snap, t) && reg[t.id] == this && Distinct(t) && Good(t)
      requires t.cum <= fullStr && leaf != mid && forall i | i in NewIds(t, fullStr, leaf, mid) :: i !in reg
      modifies reg.Values`fChildren
      ensures Heap(reg', snap') && Denotes(snap', Insert(t, fullStr, Info(address, flags), leaf, mid))
      ensures Grew(reg, reg', leaf, mid)
      ensures forall i | i in snap && i !in Ids(t) :: i in snap' && snap'[i] == snap[i]
      decreases |fullStr| - |t.cum|, t, 1
    {
      hide Insert, Ids, Distinct, Good, Denotes, RecOf, Common, Heap, Matches;
      HeapAt(reg, snap, t);
      NewLeaf(t, fullStr, leaf, mid);
      var partialStr := fullStr[|fCummulativeString|..];
      var j, k := FindEdge(partialStr, t, reg);
      if j == |fChildren| {
        reg', snap' := AddAtEnd(partialStr, fullStr, address, flags, t, reg, snap, leaf, mid);
      } else if k == |fChildren[j].fSubString| {
        InsertByDescent(t, j, fullStr, Info(address, flags), leaf, mid);
        HeapAtKid(reg, snap, t, j);
        reg', snap' := AddBelow(j, fullStr, address, flags, t, reg, snap, leaf, mid);
      } else {
        InsertAfterSplice(t, j, k, fullStr, Info(address, flags), leaf, mid);
        reg', snap' := AddBySplice(j, k, fullStr, address, flags, t, reg, snap, leaf, mid);
      }
    }

    /** The branch of addSymbol that finds no edge to follow or to split. */
    method AddAtEnd(partialStr: Str, fullStr: Str, address: u64, flags: u32,
                    ghost t: Trie<nat>, ghost reg: Register, ghost snap: Snapshot, ghost leaf: nat, ghost mid: nat)
      returns (ghost reg': Register, ghost snap': Snapshot)
      requires Heap(reg, snap) && Denotes(snap, t) && reg[t.id] == this && Distinct(t)
      requires partialStr == Rest(t.cum, fullStr) && Hit(t.kids, partialStr) == |t.kids| && leaf !in reg
      modifies this`fChildren
      ensures Heap(reg', snap') && Denotes(snap', Insert(t, fullStr, Info(address, flags), leaf, mid))
      ensures Grew(reg, reg', leaf, mid)
      ensures forall i | i in snap && i != t.id :: i in snap' && snap'[i] == snap[i]
    {
      hide Insert, Ids, Distinct, Hit, Denotes, RecOf, Heap, Matches;
      HeapAt(reg, snap, t);
      reg', snap' := AddLeaf(partialStr, fullStr, address, flags, t.id, reg, snap, leaf);
      LeafDenoted(snap, snap', t, fullStr, Info(address, flags), leaf, mid);
    }

    /** The branch of addSymbol that follows a matching edge. */
    method AddBelow(j: nat, fullStr: Str, address: u64, flags: u32,
                    ghost t: Trie<nat>, ghost reg: Register, ghost snap: Snapshot, ghost leaf: nat, ghost mid: nat)
      returns (ghost reg': Register, ghost snap': Snapshot)
      requires Heap(reg, snap) && Denotes(snap, t) && reg[t.id] == this && Distinct(t)
      requires j < |t.kids| && leaf != mid
      requires var c := t.kids[j].child;
               Good(c) && c.cum <= fullStr && forall i | i in NewIds(c, fullStr, leaf, mid) :: i !in reg
      modifies reg.Values`fChildren
      ensures var e := t.kids[j];
              && Heap(reg', snap')
              && Denotes(snap', t.(kids := t.kids[j := Branch(e.sub, Insert(e.child, fullStr, Info(address, flags),
                                                                            leaf, mid))]))
      ensures Grew(reg, reg', leaf, mid)
      ensures forall i | i in snap && i !in Ids(t.kids[j].child) :: i in snap' && snap'[i] == snap[i]
      decreases |fullStr| - |t.kids[j].child.cum|, t.kids[j].child, 2
    {
      hide Insert, NewIds, Ids, Distinct, Good, Denotes, RecOf, Heap, Matches;
      ghost var c := t.kids[j].child;
      HeapAt(reg, snap, t);
      HeapAtKid(reg, snap, t, j);
      reg', snap' := fChildren[j].fChild.AddSymbol(fullStr, address, flags, c, reg, snap, leaf, mid);
      ChildReplaced(snap, snap', t, j, Branch(t.kids[j].sub, Insert(c, fullStr, Info(address, flags), leaf, mid)));
    }

    /** The branch of addSymbol that splits an edge and goes on below the new node. */
    method AddBySplice(j: nat, k: nat, fullStr: Str, address: u64, flags: u32,
                       ghost t: Trie<nat>, ghost reg: Register, ghost snap: Snapshot, ghost leaf: nat, ghost mid: nat)
      returns (ghost reg': Register, ghost snap': Snapshot)
      requires Heap(reg, snap) && Denotes(snap, t) && reg[t.id] == this && Distinct(t) && Good(t)
      requires t.cum <= fullStr && leaf != mid && leaf !in reg && mid !in reg
      requires j == Hit(t.kids, Rest(t.cum, fullStr)) < |t.kids|
      requires k == Common(t.kids[j].sub, Rest(t.cum, fullStr)) < |t.kids[j].sub|
      modifies reg.Values`fChildren
      ensures Heap(reg', snap') && Denotes(snap', Insert(t, fullStr, Info(address, flags), leaf, mid))
      ensures Grew(reg, reg', leaf, mid)
      ensures forall i | i in snap && i !in Ids(t) :: i in snap' && snap'[i] == snap[i]
      decreases |fullStr| - |t.cum|, t, 0
    {
      hide Insert, NewIds, Ids, Distinct, Good, Hit, Common, Denotes, Heap, Matches, Rest, RecOf;
      HeapAt(reg, snap, t);
      ghost var t1, reg1, snap1 := SpliceChild(j, k, fullStr, Info(address, flags), t, reg, snap, leaf, mid);
      reg', snap' := AddBelow(j, fullStr, address, flags, t1, reg1, snap1, leaf, mid);
    }

    /** SpliceEdge, in terms of the trie: what is left to do is the same insertion below the new node. */
    method SpliceChild(j: nat, k: nat, fullStr: Str, ghost info: Info,
                       ghost t: Trie<nat>, ghost reg: Register, ghost snap: Snapshot, ghost leaf: nat, ghost mid: nat)
      returns (ghost t1: Trie<nat>, ghost reg1: Register, ghost snap1: Snapshot)
      requires Heap(reg, snap) && Denotes(snap, t) && reg[t.id] == this && Distinct(t) && Good(t)
      requires t.cum <= fullStr && mid !in reg
      requires j == Hit(t.kids, Rest(t.cum, fullStr)) < |t.kids|
      requires k == Common(t.kids[j].sub, Rest(t.cum, fullStr)) < |t.kids[j].sub|
      modifies this`fChildren
      ensures Heap(reg1, snap1) && Denotes(snap1, t1) && t1.id in reg1 && reg1[t1.id] == this && Distinct(t1)
      ensures Grew(reg, reg1, mid, mid)
      ensures forall i | i in snap && i !in Ids(t) :: i in snap1 && snap1[i] == snap[i]
      ensures j < |t1.kids| && var c := t1.kids[j].child;
              && Good(c) && c.cum <= fullStr && |c.cum| > |t.cum|
              && (forall i | i in snap && i !in Ids(t) :: i !in Ids(c))
              && NewIds(c, fullStr, leaf, mid) == {leaf}
              && Insert(t, fullStr, info, leaf, mid)
                 == t1.(kids := t1.kids[j := Branch(t1.kids[j].sub, Insert(c, fullStr, info, leaf, mid))])
    {
      hide Insert, NewIds, Ids, Distinct, Good, Hit, Common, Denotes, Heap, Matches, RecOf;
      var bNode;
      t1 := Spliced(t, j, k, mid);
      HeapAt(reg, snap, t);
      SpliceReady(snap, t, j, k, fullStr, info, leaf, mid);
      bNode, reg1, snap1 := SpliceNode(j, k, t, reg, snap, mid);
      HeapAt(reg1, snap1, t1);
    }

    /** SpliceEdge, in terms of the trie. */
    method SpliceNode(j: nat, k: nat, ghost t: Trie<nat>, ghost reg: Register, ghost snap: Snapshot, ghost mid: nat)
      returns (bNode: Node, ghost reg': Register, ghost snap': Snapshot)
      requires Heap(reg, snap) && Denotes(snap, t) && reg[t.id] == this && Distinct(t) && Good(t)
      requires j < |t.kids| && 0 < k < |t.kids[j].sub| && mid !in reg
      modifies this`fChildren
      ensures Heap(reg', snap') && reg' == reg[mid := bNode]
      ensures fresh(bNode)
      ensures Denotes(snap', Spliced(t, j, k, mid)) && Distinct(Spliced(t, j, k, mid))
      ensures forall i | i in snap && i != t.id :: i in snap' && snap'[i] == snap[i]
    {
      hide Ids, Distinct, Denotes, RecOf, Heap, Matches, Good;
      HeapAt(reg, snap, t);
      HeapAtKid(reg, snap, t, j);
      GoodKid(t, j);
      PrefixSplit(t.cum, t.kids[j].sub, k);
      bNode, reg', snap' := SpliceEdge(j, k, t.id, reg, snap, mid);
      SpliceDenoted(snap, snap', t, j, k, mid);
    }

    /** The search of addOrderedNodes: the first edge that matches whole. */
    method FindMatch(partialStr: Str, ghost t: Trie<nat>, ghost reg: Register) returns (j: nat)
      requires Matches(this, RecOf(t), reg)
      ensures j == Match(t.kids, partialStr) && |fChildren| == |t.kids|
      ensures j < |fChildren| ==> fChildren[j].fSubString == t.kids[j].sub
    {
      j := 0;
      while j < |fChildren|
        invariant j <= |fChildren|
        invariant forall i | 0 <= i < j :: !(t.kids[i].sub <= partialStr)
      {
        assert fChildren[j].fSubString == t.kids[j].sub;
        if SameStart(fChildren[j].fSubString, partialStr, |fChildren[j].fSubString|) {
          return;
        }
        j := j + 1;
      }
    }

    /** The first lines of addOrderedNodes: a node that is not in the order yet is appended and marked. */
    method Enlist(orderedNodes: seq<Node>, ghost me: nat, ghost reg: Register, ghost acc: seq<nat>)
      returns (out: seq<Node>)
      requires me in reg && reg[me] == this && Injective(reg) && Marked(orderedNodes, acc, reg)
      modifies this`fOrdered
      ensures Marked(out, if me in acc then acc else acc + [me], reg)
    {
      out := orderedNodes;
      if !fOrdered {
        out := out + [this];
        fOrdered := true;
      }
    }

    /** addOrderedNodes: appends the nodes on the name's path that are not yet in the order. */
    method AddOrderedNodes(name: Str, orderedNodes: seq<Node>,
                           ghost t: Trie<nat>, ghost reg: Register, ghost snap: Snapshot, ghost acc: seq<nat>)
      returns (out: seq<Node>)
      requires Shaped(reg, snap) && Denotes(snap, t) && reg[t.id] == this && Good(t) && Distinct(t) && t.cum <= name
      requires Marked(orderedNodes, acc, reg)
      modifies reg.Values`fOrdered
      ensures Marked(out, Visit(Path(t, name), acc), reg)
      decreases t
    {
      hide Denotes, Good, Distinct, Ids, Names, LinksOf, Visit, Path, Match, Marked;
      AtNode(snap, t);
      assert Matches(this, snap[t.id], reg);
      ghost var acc1 := if t.id in acc then acc else acc + [t.id];
      out := Enlist(orderedNodes, t.id, reg, acc);
      var partialStr := name[|fCummulativeString|..];
      var j := FindMatch(partialStr, t, reg);
      VisitStep(t, name, acc);
      if j < |fChildren| {
        AtKid(snap, t, j);
        GoodKid(t, j);
        out := fChildren[j].fChild.AddOrderedNodes(name, out, t.kids[j].child, reg, snap, acc1);
      }
    }

    /** The size computation of updateOffset. */
    method SizeOfNode(ghost r: Rec, ghost reg: Register) returns (nodeSize: nat)
      requires Matches(this, r, reg)
      ensures nodeSize == NodeSize(r, OffsetsOf(reg))
    {
      ghost var off := OffsetsOf(reg);
      nodeSize := 1;
      if fHaveExportInfo {
        var flagsSize := Uleb.Uleb128Size(fFlags);
        var addressSize := Uleb.Uleb128Size(fAddress);
        nodeSize := nodeSize + flagsSize + addressSize;
      }
      nodeSize := nodeSize + 1;
      var i := 0;
      assert r.links[..0] == [];
      while i < |fChildren|
        invariant i <= |fChildren|
        invariant nodeSize == 2 + InfoSize(r.info) + LinkBytes(r.links[..i], off)
      {
        var e := fChildren[i];
        var offsetSize := Uleb.Uleb128Size(e.fChild.fTrieOffset);
        nodeSize := nodeSize + |e.fSubString| + 1 + offsetSize;
        LinksStep(r.links, i, off);
        assert At(off, r.links[i].to) == e.fChild.fTrieOffset;
        i := i + 1;
      }
      assert r.links[..i] == r.links;
    }

    /** updateOffset: takes the given offset and passes on the position behind this node. */
    method UpdateOffset(offset: u32, ghost r: Rec, ghost reg: Register) returns (changed: bool, next: u32)
      requires Matches(this, r, reg) && offset + NodeSize(r, OffsetsOf(reg)) < TWO32
      modifies this`fTrieOffset
      ensures fTrieOffset == offset && changed == (old(fTrieOffset) != offset)
      ensures next == offset + old(NodeSize(r, OffsetsOf(reg)))
    {
      var nodeSize := SizeOfNode(r, reg);
      changed := fTrieOffset != offset;
      fTrieOffset := offset;
      next := offset + nodeSize;
    }

    /** The first half of appendToStream: the export information. */
    method AppendInfo(buffer: seq<byte>, ghost r: Rec, ghost reg: Register) returns (out: seq<byte>)
      requires Matches(this, r, reg)
      ensures out == buffer + EmitInfo(r.info)
    {
      if fHaveExportInfo {
        var flagsSize := Uleb.Uleb128Size(fFlags);
        var addressSize := Uleb.Uleb128Size(fAddress);
        Uleb.SizeOfWord(fFlags);
        Uleb.SizeOfWord(fAddress);
        out := buffer + [flagsSize + addressSize];
        out := Uleb.AppendUleb128(fFlags, out);
        out := Uleb.AppendUleb128(fAddress, out);
      } else {
        out := buffer + [0];
      }
    }

    /** The second half: the edges. */
    method AppendEdges(buffer: seq<byte>, ghost r: Rec, ghost reg: Register) returns (out: seq<byte>)
      requires Matches(this, r, reg)
      ensures out == buffer + EmitLinks(r.links, OffsetsOf(reg))
    {
      hide EmitLink;
      ghost var off := OffsetsOf(reg);
      out := buffer;
      assert r.links[..0] == [] && buffer + [] == buffer;
      var i := 0;
      while i < |fChildren|
        invariant i <= |fChildren|
        invariant out == buffer + EmitLinks(r.links[..i], off)
      {
        var e := fChildren[i];
        assert At(off, r.links[i].to) == e.fChild.fTrieOffset;
        ghost var before := EmitLinks(r.links[..i], off);
        out := AppendEdge(e.fSubString, e.fChild.fTrieOffset, out, r.links[i], off);
        LinksStep(r.links, i, off);
        assert (buffer + before) + EmitLink(r.links[i], off) == buffer + (before + EmitLink(r.links[i], off));
        i := i + 1;
      }
      assert r.links[..i] == r.links;
    }

    /** appendToStream: the node's bytes. */
    method AppendToStream(buffer: seq<byte>, ghost r: Rec, ghost reg: Register) returns (out: seq<byte>)
      requires Matches(this, r, reg)
      ensures out == buffer + EmitNode(r, OffsetsOf(reg))
    {
      hide EmitLinks, EmitInfo;
      out := AppendInfo(buffer, r, reg);
      var count: byte := |fChildren| % 256;
      out := AppendEdges(out + [count], r, reg);
      ghost var a, c := EmitInfo(r.info), EmitLinks(r.links, OffsetsOf(reg));
      assert ((buffer + a) + [count]) + c == buffer + ((a + [count]) + c);
    }

    static method AppendEdge(str: Str, offset: u32, buffer: seq<byte>, ghost l: Link, ghost off: Offsets)
      returns (out: seq<byte>)
      requires l.sub == str && At(off, l.to) == offset
      ensures out == buffer + EmitLink(l, off)
    {
      out := AppendString(str, buffer);
      out := Uleb.AppendUleb128(offset, out);
    }

    /** append_string: the bytes and the terminator. */
    static method AppendString(str: Str, buffer: seq<byte>) returns (out: seq<byte>)
      ensures out == buffer + str + [0]
    {
      out := buffer;
      for i := 0 to |str|
        invariant out == buffer + str[..i]
      {
        out := out + [str[i]];
      }
      out := out + [0];
    }
  }
}
