/** A bound a caller can compute from the names: below it the layout fits in 32-bit offsets. */
module TrieSize {
  import opened Bytes
  import opened TrieModel
  import opened TrieRecords
  import opened TrieBuild
  import opened TrieOrder
  import opened TrieLayout
  import opened TrieMake
  import Uleb

  // ----- the worst-case size of a trie, node by node and edge by edge

  function Weight<Id>(t: Trie<Id>): nat
    decreases t, 1
  {
    2 + InfoSize(t.info) + WeightAll(t.kids)
  }

  function WeightAll<Id>(kids: seq<Branch<Id>>): nat
    decreases kids, 0
  {
    if kids == [] then 0
    else
      var e := kids[|kids| - 1];
      WeightAll(kids[..|kids| - 1]) + |e.sub| + 6 + Weight(e.child)
  }

  lemma {:induction false} WeightUpdated<Id>(kids: seq<Branch<Id>>, j: nat, e: Branch<Id>)
    requires j < |kids|
    ensures WeightAll(kids[j := e]) + |kids[j].sub| + Weight(kids[j].child)
            == WeightAll(kids) + |e.sub| + Weight(e.child)
  {
    var n := |kids| - 1;
    if j < n {
      WeightUpdated(kids[..n], j, e);
      assert kids[j := e][..n] == kids[..n][j := e];
    } else {
      assert kids[j := e][..n] == kids[..n];
    }
  }

  lemma {:induction false} WeightAppended<Id>(kids: seq<Branch<Id>>, e: Branch<Id>)
    ensures WeightAll(kids + [e]) == WeightAll(kids) + |e.sub| + 6 + Weight(e.child)
  {
    assert (kids + [e])[..|kids|] == kids;
  }

  lemma LeafWeight<Id>(leaf: Id, y: Str, info: Info)
    ensures Weight(Leaf(leaf, y, info)) <= 17
  {
    Uleb.SizeOfWord(info.flags);
    Uleb.SizeOfWord(info.address);
  }

  lemma PairWeight<Id>(id: Id, cum: Str, a: Branch<Id>, b: Branch<Id>)
    ensures Weight(Trie(id, cum, None, [a, b])) == 14 + |a.sub| + Weight(a.child) + |b.sub| + Weight(b.child)
  {
    WeightAppended([], a);
    WeightAppended([a], b);
    assert [] + [a] == [a] && [a] + [b] == [a, b];
  }

  /** Storing a name adds at most its length and 31 bytes. */
  lemma {:induction false} InsertWeight<Id>(t: Trie<Id>, y: Str, info: Info, leaf: Id, mid: Id)
    ensures Weight(Insert(t, y, info, leaf, mid)) <= Weight(t) + |y| + 31
    decreases t
  {
    var p := Rest(t.cum, y);
    var j := Hit(t.kids, p);
    LeafWeight(leaf, y, info);
    if j == |t.kids| {
      WeightAppended(t.kids, Branch(p, Leaf(leaf, y, info)));
    } else {
      var e := t.kids[j];
      var e' := Insert(t, y, info, leaf, mid).kids[j];
      WeightUpdated(t.kids, j, e');
      if e.sub <= p {
        InsertWeight(e.child, y, info, leaf, mid);
      } else {
        PairWeight(mid, e'.child.cum, e'.child.kids[0], e'.child.kids[1]);
      }
    }
  }

  /** What a caller can compute. */
  function NamesSize(xs: seq<Entry>): nat {
    if xs == [] then 2 else NamesSize(xs[..|xs| - 1]) + |xs[|xs| - 1].name| + 31
  }

  lemma {:induction false} TrieWeight(xs: seq<Entry>)
    ensures Weight(TrieOf(xs)) <= NamesSize(xs)
  {
    if xs != [] {
      hide Insert;
      var k := |xs| - 1;
      TrieWeight(xs[..k]);
      InsertWeight(TrieOf(xs[..k]), xs[k].name, InfoOf(xs[k]), LeafId(k), MidId(k));
    }
  }

  // ----- the nodes of a layout add up to no more

  function NodeCost(r: Rec): nat {
    2 + InfoSize(r.info) + MostLinks(r.links)
  }

  ghost function Total(vs: seq<nat>, snap: Snapshot): nat {
    if vs == [] then 0
    else Total(vs[..|vs| - 1], snap) + if vs[|vs| - 1] in snap then NodeCost(snap[vs[|vs| - 1]]) else 0
  }

  /** The nodes of a trie, each once. */
  ghost function Flat(t: Trie<nat>): seq<nat>
    decreases t, 1
  {
    [t.id] + FlatAll(t.kids)
  }

  ghost function FlatAll(kids: seq<Branch<nat>>): seq<nat>
    decreases kids, 0
  {
    if kids == [] then [] else FlatAll(kids[..|kids| - 1]) + Flat(kids[|kids| - 1].child)
  }

  lemma {:induction false} TotalConcat(a: seq<nat>, b: seq<nat>, snap: Snapshot)
    ensures Total(a + b, snap) == Total(a, snap) + Total(b, snap)
  {
    if b == [] {
      assert a + b == a;
    } else {
      var n := |b| - 1;
      TotalConcat(a, b[..n], snap);
      assert (a + b)[..|a| + n] == a + b[..n];
    }
  }

  lemma {:induction false} FlatTotal(t: Trie<nat>, snap: Snapshot)
    requires Denotes(snap, t)
    ensures Total(Flat(t), snap) == Weight(t)
    decreases t, 1
  {
    TotalConcat([t.id], FlatAll(t.kids), snap);
    FlatAllTotal(t.kids, snap);
    assert [t.id][..0] == [];
  }

  lemma {:induction false} FlatAllTotal(kids: seq<Branch<nat>>, snap: Snapshot)
    requires forall j | 0 <= j < |kids| :: Denotes(snap, kids[j].child)
    ensures Total(FlatAll(kids), snap) + MostLinks(LinksOf(kids)) == WeightAll(kids)
    decreases kids, 0
  {
    if kids != [] {
      hide Denotes;
      var n := |kids| - 1;
      FlatAllTotal(kids[..n], snap);
      FlatTotal(kids[n].child, snap);
      TotalConcat(FlatAll(kids[..n]), Flat(kids[n].child), snap);
      assert LinksOf(kids)[..n] == LinksOf(kids[..n]);
    }
  }

  lemma {:induction false} FlatElems(t: Trie<nat>, v: nat)
    requires v in Ids(t)
    ensures v in Flat(t)
    decreases t, |t.kids| + 1
  {
    if v != t.id {
      var j :| 0 <= j < |t.kids| && v in Ids(t.kids[j].child);
      FlatElems(t.kids[j].child, v);
      FlatAllElems(t.kids, j, v);
    }
  }

  lemma {:induction false} FlatAllElems(kids: seq<Branch<nat>>, j: nat, v: nat)
    requires j < |kids| && v in Flat(kids[j].child)
    ensures v in FlatAll(kids)
  {
    hide Flat;
    if j < |kids| - 1 {
      FlatAllElems(kids[..|kids| - 1], j, v);
    }
  }

  lemma {:induction false} TotalWithout(b: seq<nat>, i: nat, snap: Snapshot)
    requires i < |b|
    ensures Total(b, snap) == Total(b[..i] + b[i + 1..], snap) + Total([b[i]], snap)
  {
    hide Total;
    assert b == b[..i] + ([b[i]] + b[i + 1..]);
    TotalConcat(b[..i], [b[i]] + b[i + 1..], snap);
    TotalConcat([b[i]], b[i + 1..], snap);
    TotalConcat(b[..i], b[i + 1..], snap);
  }

  lemma {:induction false} TotalMonotone(a: seq<nat>, b: seq<nat>, snap: Snapshot)
    requires NoDup(a) && forall v | v in a :: v in b
    ensures Total(a, snap) <= Total(b, snap)
  {
    if a != [] {
      var n := |a| - 1;
      assert a[n] in b;
      var i :| 0 <= i < |b| && b[i] == a[n];
      var c := b[..i] + b[i + 1..];
      forall v | v in a[..n]
        ensures v in c
      {
        assert v in a && v != a[n];
        var j :| 0 <= j < |b| && b[j] == v;
        assert v == if j < i then c[j] else c[j - 1];
      }
      TotalMonotone(a[..n], c, snap);
      TotalWithout(b, i, snap);
      assert [b[i]][..0] == [];
    }
  }

  lemma {:induction false} MostIsTotal(order: seq<nat>, snap: Snapshot, k: nat)
    requires Covers(snap, order) && k <= |order|
    ensures Most(order, snap, k) == Total(order[..k], snap)
  {
    if k > 0 {
      MostIsTotal(order, snap, k - 1);
      assert order[..k][..k - 1] == order[..k - 1];
    }
  }

  lemma {:induction false} MostBelowWeight(order: seq<nat>, snap: Snapshot, t: Trie<nat>)
    requires Covers(snap, order) && Denotes(snap, t) && NoDup(order) && Elems(order) <= Ids(t)
    ensures Most(order, snap, |order|) <= Weight(t)
  {
    hide Denotes, Ids, NoDup, Weight, Flat, Total, Most;
    MostIsTotal(order, snap, |order|);
    assert order[..|order|] == order;
    forall v | v in order
      ensures v in Flat(t)
    {
      assert v in Elems(order);
      FlatElems(t, v);
    }
    TotalMonotone(order, Flat(t), snap);
    FlatTotal(t, snap);
  }

  /** Names that are short enough together always have a layout: makeTrie terminates on them. */
  lemma FitsBySize(xs: seq<Entry>) returns (off: Offsets)
    requires DistinctNames(xs) && NamesSize(xs) < TWO32
    ensures Fits(xs, off) && |Bytecode(xs, off)| <= NamesSize(xs)
  {
    hide TrieOf, OrderOf, Table, NoDup, Ids, Denotes, Pass, Most, Fixed, Start, Weight, NamesSize, Distinct, Good;
    var t := TrieOf(xs);
    var order := OrderOf(t, xs);
    TrieOfBuilt(xs);
    OrderFacts(xs);
    TableDenotes(t, Table(t)) by { TableEntries(t); }
    TableCovers(t, order);
    MostBelowWeight(order, Table(t), t);
    TrieWeight(xs);
    off := LayoutExists(order, Table(t), map[]);
  }

  /** What makeTrie writes is no longer than that. */
  lemma {:induction false} LeastSize(xs: seq<Entry>, off: Offsets)
    requires DistinctNames(xs) && NamesSize(xs) < TWO32 && LeastFit(xs, off)
    ensures |Bytecode(xs, off)| <= NamesSize(xs)
  {
    hide TrieOf, OrderOf, Table, NamesSize, Fixed, Leq, Start;
    var fix := FitsBySize(xs);
    StartBelow(OrderOf(TrieOf(xs), xs), Table(TrieOf(xs)), off, fix, |OrderOf(TrieOf(xs), xs)|);
  }

  lemma {:induction false} TableEntries(t: Trie<nat>)
    ensures forall v | v in Ids(t) :: v in Table(t) && Table(t)[v] == RecOf(Sub(t, v))
  {
  }

  lemma {:induction false} TableCovers(t: Trie<nat>, order: seq<nat>)
    requires Elems(order) <= Ids(t)
    ensures Covers(Table(t), order)
  {
    assert forall k | 0 <= k < |order| :: order[k] in Elems(order);
  }
}
