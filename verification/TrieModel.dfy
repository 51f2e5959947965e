/** The export trie as a value: insertion, and the invariant that makes every lookup find its name. */
module TrieModel {
  // The type parameter identifies nodes.
  import opened Bytes

  datatype Info = Info(address: u64, flags: u32)
  datatype Branch<Id> = Branch(sub: Str, child: Trie<Id>)
  datatype Trie<Id> = Trie(id: Id, cum: Str, info: Option<Info>, kids: seq<Branch<Id>>)

  /** A node with export information, as the parser meets it. */
  datatype Terminal<Id> = Terminal(id: Id, name: Str, info: Info)

  // ----- contents

  function Own<Id>(t: Trie<Id>): seq<Terminal<Id>> {
    match t.info
    case None => []
    case Some(i) => [Terminal(t.id, t.cum, i)]
  }

  /** The terminal nodes in the order of a depth-first walk. */
  function Preorder<Id>(t: Trie<Id>): seq<Terminal<Id>>
    decreases t, 1
  {
    Own(t) + PreorderAll(t.kids)
  }

  function PreorderAll<Id>(kids: seq<Branch<Id>>): seq<Terminal<Id>>
    decreases kids, 0
  {
    if kids == [] then [] else Preorder(kids[0].child) + PreorderAll(kids[1..])
  }

  /** The names of the terminal nodes. */
  ghost function Names<Id>(t: Trie<Id>): set<Str>
    decreases t
  {
    (if t.info.Some? then {t.cum} else {})
    + set j, x | 0 <= j < |t.kids| && x in Names(t.kids[j].child) :: x
  }

  ghost function Ids<Id>(t: Trie<Id>): set<Id>
    decreases t
  {
    {t.id} + set j, x | 0 <= j < |t.kids| && x in Ids(t.kids[j].child) :: x
  }

  ghost predicate Distinct<Id>(t: Trie<Id>)
    decreases t
  {
    && (forall j | 0 <= j < |t.kids| :: t.id !in Ids(t.kids[j].child) && Distinct(t.kids[j].child))
    && (forall i, j | 0 <= i < j < |t.kids| :: Ids(t.kids[i].child) !! Ids(t.kids[j].child))
  }

  // ----- insertion

  /** What is left of `x` below a node. */
  function Rest(cum: Str, x: Str): Str {
    if |cum| <= |x| then x[|cum|..] else []
  }

  /** An edge that neither matches a string nor shares a first byte with it. */
  predicate Diverges(sub: Str, p: Str) {
    |sub| > 0 && (|p| == 0 || p[0] != sub[0])
  }

  /** The first edge that has something in common with `p`. */
  function Hit<Id>(kids: seq<Branch<Id>>, p: Str): (j: nat)
    ensures j <= |kids|
    ensures forall i | 0 <= i < j :: Diverges(kids[i].sub, p)
    ensures j < |kids| ==> !Diverges(kids[j].sub, p)
  {
    if kids == [] || !Diverges(kids[0].sub, p) then 0 else 1 + Hit(kids[1..], p)
  }

  /** The length of the longest common prefix. */
  function Common(a: Str, b: Str): (k: nat)
    ensures k <= |a| && k <= |b| && a[..k] == b[..k]
    ensures k < |a| && k < |b| ==> a[k] != b[k]
  {
    if a == [] || b == [] || a[0] != b[0] then 0 else 1 + Common(a[1..], b[1..])
  }

  function Leaf<Id>(id: Id, name: Str, info: Info): Trie<Id> {
    Trie(id, name, Some(info), [])
  }

  /** The node spliced into an edge: its first child is the old target, its second the new leaf. */
  function Splice<Id>(mid: Id, cum: Str, e: Branch<Id>, k: nat, p: Str, leaf: Trie<Id>): Branch<Id>
    requires k <= |e.sub| && k <= |p|
  {
    Branch(e.sub[..k], Trie(mid, cum + e.sub[..k], None, [Branch(e.sub[k..], e.child), Branch(p[k..], leaf)]))
  }

  function Insert<Id>(t: Trie<Id>, y: Str, info: Info, leaf: Id, mid: Id): (t': Trie<Id>)
    ensures t'.id == t.id && t'.cum == t.cum && t'.info == t.info && t'.kids != []
    decreases t
  {
    var p := Rest(t.cum, y);
    var j := Hit(t.kids, p);
    if j == |t.kids| then
      t.(kids := t.kids + [Branch(p, Leaf(leaf, y, info))])
    else
      var e := t.kids[j];
      if e.sub <= p then
        t.(kids := t.kids[j := Branch(e.sub, Insert(e.child, y, info, leaf, mid))])
      else
        t.(kids := t.kids[j := Splice(mid, t.cum, e, Common(e.sub, p), p, Leaf(leaf, y, info))])
  }

  // ----- the invariant

  /** The edge leads to a name below it, and no earlier edge has anything in common with any such name. */
  ghost predicate RoutedThrough<Id>(t: Trie<Id>, j: nat)
    requires j < |t.kids|
  {
    var e := t.kids[j];
    && e.child.cum == t.cum + e.sub
    && (e.child.info.Some? || (e.sub != [] && e.child.kids != []))
    && forall i, x | 0 <= i < j && x in Names(e.child) :: Diverges(t.kids[i].sub, Rest(t.cum, x))
  }

  ghost predicate Good<Id>(t: Trie<Id>)
    decreases t
  {
    && (forall j | 0 <= j < |t.kids| :: RoutedThrough(t, j) && Good(t.kids[j].child))
    && (t.info.Some? ==> forall j | 0 <= j < |t.kids| :: |t.kids[j].sub| > 0)
  }

  lemma {:induction false} NamesExtend<Id>(t: Trie<Id>, x: Str)
    requires Good(t) && x in Names(t)
    ensures t.cum <= x
    decreases t
  {
    if !(t.info.Some? && x == t.cum) {
      var j :| 0 <= j < |t.kids| && x in Names(t.kids[j].child);
      NamesExtend(t.kids[j].child, x);
      assert RoutedThrough(t, j);
    }
  }

  lemma {:induction false} NamesOfKid<Id>(t: Trie<Id>, j: nat)
    requires j < |t.kids|
    ensures Names(t.kids[j].child) <= Names(t)
  {
  }

  lemma NamesUpdated<Id>(t: Trie<Id>, j: nat, e: Branch<Id>, y: Str)
    requires j < |t.kids| && Names(e.child) == Names(t.kids[j].child) + {y}
    ensures Names(t.(kids := t.kids[j := e])) == Names(t) + {y}
  {
    var t' := t.(kids := t.kids[j := e]);
    assert t'.kids[j] == e;
    forall x ensures x in Names(t') <==> x in Names(t) + {y} {
      if x in Names(t') && !(t'.info.Some? && x == t'.cum) {
        var i :| 0 <= i < |t'.kids| && x in Names(t'.kids[i].child);
        assert i != j ==> x in Names(t.kids[i].child);
      }
      if x in Names(t) && !(t.info.Some? && x == t.cum) {
        var i :| 0 <= i < |t.kids| && x in Names(t.kids[i].child);
        assert x in Names(t'.kids[i].child);
      }
    }
  }

  lemma {:induction false} NamesAppended<Id>(t: Trie<Id>, e: Branch<Id>)
    ensures Names(t.(kids := t.kids + [e])) == Names(t) + Names(e.child)
  {
    var t' := t.(kids := t.kids + [e]);
    var n := |t.kids|;
    assert t'.kids[n] == e;
    forall x ensures x in Names(t') <==> x in Names(t) + Names(e.child) {
      if x in Names(t') && !(t'.info.Some? && x == t'.cum) {
        var i :| 0 <= i < |t'.kids| && x in Names(t'.kids[i].child);
        assert i < n ==> x in Names(t.kids[i].child);
      }
      if x in Names(t) && !(t.info.Some? && x == t.cum) {
        var i :| 0 <= i < |t.kids| && x in Names(t.kids[i].child);
        assert x in Names(t'.kids[i].child);
      }
    }
  }

  lemma NamesOfPair<Id>(id: Id, cum: Str, a: Branch<Id>, b: Branch<Id>)
    ensures Names(Trie(id, cum, None, [a, b])) == Names(a.child) + Names(b.child)
  {
    var empty := Trie(id, cum, None, []);
    NamesAppended(empty, a);
    NamesAppended(empty.(kids := [a]), b);
    assert [] + [a] == [a] && [a] + [b] == [a, b];
  }

  lemma {:induction false} InsertNames<Id>(t: Trie<Id>, y: Str, info: Info, leaf: Id, mid: Id)
    ensures Names(Insert(t, y, info, leaf, mid)) == Names(t) + {y}
    decreases t
  {
    var p := Rest(t.cum, y);
    var j := Hit(t.kids, p);
    assert Names(Leaf(leaf, y, info)) == {y};
    if j == |t.kids| {
      NamesAppended(t, Branch(p, Leaf(leaf, y, info)));
    } else {
      var e := t.kids[j];
      var e' := Insert(t, y, info, leaf, mid).kids[j];
      if e.sub <= p {
        InsertNames(e.child, y, info, leaf, mid);
      } else {
        NamesOfPair(mid, e'.child.cum, e'.child.kids[0], e'.child.kids[1]);
      }
      NamesUpdated(t, j, e', y);
    }
  }

  lemma GoodUpdated<Id>(t: Trie<Id>, j: nat, e: Branch<Id>, y: Str)
    requires Good(t) && j < |t.kids|
    requires forall i | 0 <= i < j :: Diverges(t.kids[i].sub, Rest(t.cum, y))
    requires e.sub == t.kids[j].sub || (|e.sub| > 0 && |t.kids[j].sub| > 0 && e.sub[0] == t.kids[j].sub[0])
    requires e.child.cum == t.cum + e.sub && (e.child.info.Some? || (e.sub != [] && e.child.kids != []))
    requires Good(e.child) && Names(e.child) == Names(t.kids[j].child) + {y}
    ensures Good(t.(kids := t.kids[j := e]))
  {
    var t' := t.(kids := t.kids[j := e]);
    assert RoutedThrough(t, j);
    forall i | 0 <= i < |t'.kids|
      ensures RoutedThrough(t', i) && Good(t'.kids[i].child)
    {
      assert RoutedThrough(t, i);
    }
  }

  lemma {:induction false} GoodAppended<Id>(t: Trie<Id>, y: Str, e: Branch<Id>)
    requires Good(t) && forall i | 0 <= i < |t.kids| :: Diverges(t.kids[i].sub, Rest(t.cum, y))
    requires e.child.cum == t.cum + e.sub && e.child.info.Some? && Good(e.child) && Names(e.child) == {y}
    requires t.info.Some? ==> |e.sub| > 0
    ensures Good(t.(kids := t.kids + [e]))
  {
    var t' := t.(kids := t.kids + [e]);
    forall i | 0 <= i < |t'.kids|
      ensures RoutedThrough(t', i) && Good(t'.kids[i].child)
    {
      if i < |t.kids| {
        assert t'.kids[i] == t.kids[i];
        assert RoutedThrough(t, i);
      } else {
        assert t'.kids[i] == e;
      }
    }
  }

  lemma LeafGood<Id>(leaf: Id, y: Str, info: Info)
    ensures Good(Leaf(leaf, y, info)) && Names(Leaf(leaf, y, info)) == {y}
  {
  }

  lemma PairGood<Id>(id: Id, cum: Str, a: Branch<Id>, b: Branch<Id>, y: Str)
    requires a.child.cum == cum + a.sub && Good(a.child) && a.sub != [] && (a.child.info.Some? || a.child.kids != [])
    requires b.child.cum == cum + b.sub && Good(b.child) && b.child.info.Some?
    requires Names(b.child) == {y} && Diverges(a.sub, Rest(cum, y))
    ensures Good(Trie(id, cum, None, [a, b]))
    ensures Names(Trie(id, cum, None, [a, b])) == Names(a.child) + {y}
  {
    var t := Trie(id, cum, None, [a, b]);
    assert t.kids[0] == a && t.kids[1] == b;
    assert RoutedThrough(t, 0);
    assert RoutedThrough(t, 1);
    NamesOfPair(id, cum, a, b);
  }

  lemma {:induction false} SpliceGood<Id>(mid: Id, cum: Str, e: Branch<Id>, y: Str, leaf: Trie<Id>)
    requires cum <= y && e.child.cum == cum + e.sub && Good(e.child) && (e.child.info.Some? || e.child.kids != [])
    requires !Diverges(e.sub, Rest(cum, y)) && !(e.sub <= Rest(cum, y))
    requires leaf.info.Some? && leaf.cum == y && Good(leaf) && Names(leaf) == {y}
    ensures Common(e.sub, Rest(cum, y)) > 0
    ensures var b := Splice(mid, cum, e, Common(e.sub, Rest(cum, y)), Rest(cum, y), leaf).child;
            && Good(b)
            && Names(b) == Names(e.child) + {y}
  {
    var p := Rest(cum, y);
    var k := Common(e.sub, p);
    var b := Splice(mid, cum, e, k, p, leaf).child;
    assert y == cum + p;
    PrefixSplit(cum, e.sub, k);
    PrefixSplit(cum, p, k);
    PairGood(mid, b.cum, Branch(e.sub[k..], e.child), Branch(p[k..], leaf), y);
  }

  lemma PrefixSplit(cum: Str, p: Str, k: nat)
    requires k <= |p|
    ensures (cum + p[..k]) + p[k..] == cum + p
    ensures Rest(cum + p[..k], cum + p) == p[k..]
    ensures Rest(cum, cum + p) == p
  {
    assert p == p[..k] + p[k..];
  }

  /** Insertion keeps every earlier name reachable: this is the invariant that survives edge splitting and empty
      edges. */
  lemma {:induction false} InsertGood<Id>(t: Trie<Id>, y: Str, info: Info, leaf: Id, mid: Id)
    requires Good(t) && t.cum <= y && y !in Names(t)
    ensures Good(Insert(t, y, info, leaf, mid))
    decreases t
  {
    var p := Rest(t.cum, y);
    var j := Hit(t.kids, p);
    assert y == t.cum + p;
    LeafGood(leaf, y, info);
    if j == |t.kids| {
      assert t.info.Some? ==> t.cum in Names(t);
      assert p == [] ==> y == t.cum;
      GoodAppended(t, y, Branch(p, Leaf(leaf, y, info)));
    } else {
      var e := t.kids[j];
      var e' := Insert(t, y, info, leaf, mid).kids[j];
      assert RoutedThrough(t, j);
      if e.sub <= p {
        NamesOfKid(t, j);
        InsertGood(e.child, y, info, leaf, mid);
        InsertNames(e.child, y, info, leaf, mid);
      } else {
        SpliceGood(mid, t.cum, e, y, Leaf(leaf, y, info));
      }
      GoodUpdated(t, j, e', y);
    }
  }

  // ----- the terminal nodes

  lemma {:induction false} PreorderAllConcat<Id>(a: seq<Branch<Id>>, b: seq<Branch<Id>>)
    ensures PreorderAll(a + b) == PreorderAll(a) + PreorderAll(b)
  {
    if a == [] {
      assert a + b == b;
    } else {
      PreorderAllConcat(a[1..], b);
      assert (a + b)[1..] == a[1..] + b && (a + b)[0] == a[0];
      var x, y, z := Preorder(a[0].child), PreorderAll(a[1..]), PreorderAll(b);
      assert x + (y + z) == (x + y) + z;
    }
  }

  lemma {:induction false} PreorderSplit<Id>(kids: seq<Branch<Id>>, j: nat)
    requires j < |kids|
    ensures PreorderAll(kids) == PreorderAll(kids[..j]) + Preorder(kids[j].child) + PreorderAll(kids[j + 1..])
  {
    assert kids == kids[..j] + kids[j..];
    PreorderAllConcat(kids[..j], kids[j..]);
    assert kids[j..][1..] == kids[j + 1..];
  }

  lemma PreorderUpdated<Id>(t: Trie<Id>, j: nat, e: Branch<Id>, m: Terminal<Id>)
    requires j < |t.kids|
    requires multiset(Preorder(e.child)) == multiset(Preorder(t.kids[j].child)) + multiset{m}
    ensures multiset(Preorder(t.(kids := t.kids[j := e]))) == multiset(Preorder(t)) + multiset{m}
  {
    PreorderSplit(t.kids, j);
    PreorderSplit(t.kids[j := e], j);
    assert t.kids[j := e][..j] == t.kids[..j] && t.kids[j := e][j + 1..] == t.kids[j + 1..];
  }

  lemma PreorderOfOne<Id>(a: Branch<Id>)
    ensures PreorderAll([a]) == Preorder(a.child)
  {
    assert [a][1..] == [];
    assert Preorder(a.child) + [] == Preorder(a.child);
  }

  lemma PreorderOfPair<Id>(a: Branch<Id>, b: Branch<Id>)
    ensures PreorderAll([a, b]) == Preorder(a.child) + Preorder(b.child)
  {
    assert [a, b] == [a] + [b];
    PreorderAllConcat([a], [b]);
    PreorderOfOne(a);
    PreorderOfOne(b);
  }

  lemma {:induction false} InsertPreorder<Id>(t: Trie<Id>, y: Str, info: Info, leaf: Id, mid: Id)
    ensures multiset(Preorder(Insert(t, y, info, leaf, mid)))
            == multiset(Preorder(t)) + multiset{Terminal(leaf, y, info)}
    decreases t
  {
    hide Preorder, PreorderAll, Common;
    var p := Rest(t.cum, y);
    var j := Hit(t.kids, p);
    var m := Terminal(leaf, y, info);
    LeafPreorder(leaf, y, info);
    if j == |t.kids| {
      PreorderAppended(t, Branch(p, Leaf(leaf, y, info)));
    } else {
      var e := t.kids[j];
      if e.sub <= p {
        InsertPreorder(e.child, y, info, leaf, mid);
        PreorderUpdated(t, j, Branch(e.sub, Insert(e.child, y, info, leaf, mid)), m);
      } else {
        SplicePreorder(mid, t.cum, e, Common(e.sub, p), p, Leaf(leaf, y, info));
        PreorderUpdated(t, j, Splice(mid, t.cum, e, Common(e.sub, p), p, Leaf(leaf, y, info)), m);
      }
    }
  }

  lemma LeafPreorder<Id>(leaf: Id, y: Str, info: Info)
    ensures Preorder(Leaf(leaf, y, info)) == [Terminal(leaf, y, info)]
  {
  }

  lemma {:induction false} PreorderAppended<Id>(t: Trie<Id>, e: Branch<Id>)
    ensures Preorder(t.(kids := t.kids + [e])) == Preorder(t) + Preorder(e.child)
  {
    PreorderAllConcat(t.kids, [e]);
    PreorderOfOne(e);
  }

  lemma {:induction false} SplicePreorder<Id>(mid: Id, cum: Str, e: Branch<Id>, k: nat, p: Str, leaf: Trie<Id>)
    requires k <= |e.sub| && k <= |p|
    ensures Preorder(Splice(mid, cum, e, k, p, leaf).child) == Preorder(e.child) + Preorder(leaf)
  {
    PreorderOfPair(Branch(e.sub[k..], e.child), Branch(p[k..], leaf));
  }

  // ----- node identities

  /** The identities an insertion creates: always a leaf, and a middle node when an edge is split. */
  ghost function NewIds<Id>(t: Trie<Id>, y: Str, leaf: Id, mid: Id): (s: set<Id>)
    ensures leaf in s && s <= {leaf, mid}
    decreases t
  {
    var p := Rest(t.cum, y);
    var j := Hit(t.kids, p);
    if j == |t.kids| then {leaf}
    else if t.kids[j].sub <= p then NewIds(t.kids[j].child, y, leaf, mid)
    else {leaf, mid}
  }

  lemma {:induction false} IdsOfKid<Id>(t: Trie<Id>, j: nat)
    requires j < |t.kids|
    ensures Ids(t.kids[j].child) <= Ids(t) && t.kids[j].child.id in Ids(t.kids[j].child)
  {
  }

  lemma {:induction false} IdsOfKids<Id>(t: Trie<Id>, t': Trie<Id>, extra: set<Id>)
    requires t'.id == t.id
    requires forall j | 0 <= j < |t.kids| :: Ids(t.kids[j].child) <= Ids(t')
    requires forall j | 0 <= j < |t'.kids| :: Ids(t'.kids[j].child) <= Ids(t) + extra
    requires extra <= Ids(t')
    ensures Ids(t') == Ids(t) + extra
  {
    forall x | x in Ids(t') ensures x in Ids(t) + extra {
      if x != t.id {
        var j :| 0 <= j < |t'.kids| && x in Ids(t'.kids[j].child);
      }
    }
    forall x | x in Ids(t) ensures x in Ids(t') {
      if x != t.id {
        var j :| 0 <= j < |t.kids| && x in Ids(t.kids[j].child);
      }
    }
  }

  lemma IdsUpdated<Id>(t: Trie<Id>, j: nat, e: Branch<Id>, s: set<Id>)
    requires j < |t.kids| && Ids(e.child) == Ids(t.kids[j].child) + s
    ensures Ids(t.(kids := t.kids[j := e])) == Ids(t) + s
  {
    var t' := t.(kids := t.kids[j := e]);
    assert t'.kids[j] == e;
    IdsOfKid(t', j);
    forall i | 0 <= i < |t.kids|
      ensures Ids(t.kids[i].child) <= Ids(t') && Ids(t'.kids[i].child) <= Ids(t) + s
    {
      IdsOfKid(t, i);
      IdsOfKid(t', i);
      assert t'.kids[i] == if i == j then e else t.kids[i];
    }
    IdsOfKids(t, t', s);
  }

  lemma {:induction false} IdsAppended<Id>(t: Trie<Id>, e: Branch<Id>)
    ensures Ids(t.(kids := t.kids + [e])) == Ids(t) + Ids(e.child)
  {
    var t' := t.(kids := t.kids + [e]);
    assert t'.kids[|t.kids|] == e;
    IdsOfKid(t', |t.kids|);
    forall i | 0 <= i < |t.kids|
      ensures Ids(t.kids[i].child) <= Ids(t')
    {
      IdsOfKid(t', i);
      assert t'.kids[i] == t.kids[i];
    }
    forall i | 0 <= i < |t'.kids|
      ensures Ids(t'.kids[i].child) <= Ids(t) + Ids(e.child)
    {
      if i < |t.kids| {
        IdsOfKid(t, i);
        assert t'.kids[i] == t.kids[i];
      }
    }
    IdsOfKids(t, t', Ids(e.child));
  }

  lemma IdsOfPair<Id>(id: Id, cum: Str, a: Branch<Id>, b: Branch<Id>)
    ensures Ids(Trie(id, cum, None, [a, b])) == {id} + Ids(a.child) + Ids(b.child)
  {
    var empty := Trie(id, cum, None, []);
    IdsAppended(empty, a);
    IdsAppended(empty.(kids := [a]), b);
    assert [] + [a] == [a] && [a] + [b] == [a, b];
  }

  lemma {:induction false} InsertIds<Id>(t: Trie<Id>, y: Str, info: Info, leaf: Id, mid: Id)
    ensures Ids(Insert(t, y, info, leaf, mid)) == Ids(t) + NewIds(t, y, leaf, mid)
    decreases t
  {
    var p := Rest(t.cum, y);
    var j := Hit(t.kids, p);
    assert Ids(Leaf(leaf, y, info)) == {leaf};
    if j == |t.kids| {
      IdsAppended(t, Branch(p, Leaf(leaf, y, info)));
    } else {
      var e := t.kids[j];
      var e' := Insert(t, y, info, leaf, mid).kids[j];
      if e.sub <= p {
        InsertIds(e.child, y, info, leaf, mid);
      } else {
        IdsOfPair(mid, e'.child.cum, e'.child.kids[0], e'.child.kids[1]);
      }
      IdsUpdated(t, j, e', NewIds(t, y, leaf, mid));
    }
  }

  lemma DistinctUpdated<Id>(t: Trie<Id>, j: nat, e: Branch<Id>, s: set<Id>)
    requires Distinct(t) && j < |t.kids| && s !! Ids(t)
    requires Distinct(e.child) && Ids(e.child) == Ids(t.kids[j].child) + s
    ensures Distinct(t.(kids := t.kids[j := e]))
  {
    var t' := t.(kids := t.kids[j := e]);
    forall i | 0 <= i < |t'.kids|
      ensures t'.id !in Ids(t'.kids[i].child) && Distinct(t'.kids[i].child)
    {
      assert t'.kids[i] == if i == j then e else t.kids[i];
    }
    forall i | 0 <= i < |t'.kids|
      ensures i != j ==> Ids(t'.kids[i].child) !! Ids(e.child)
    {
      IdsOfKid(t, i);
    }
    forall i, k | 0 <= i < k < |t'.kids|
      ensures Ids(t'.kids[i].child) !! Ids(t'.kids[k].child)
    {
      assert t'.kids[i] == if i == j then e else t.kids[i];
      assert t'.kids[k] == if k == j then e else t.kids[k];
    }
  }

  lemma {:induction false} DistinctAppended<Id>(t: Trie<Id>, e: Branch<Id>)
    requires Distinct(t) && Distinct(e.child) && Ids(e.child) !! Ids(t)
    ensures Distinct(t.(kids := t.kids + [e]))
  {
    var t' := t.(kids := t.kids + [e]);
    forall i | 0 <= i < |t'.kids|
      ensures t'.id !in Ids(t'.kids[i].child) && Distinct(t'.kids[i].child)
      ensures i < |t.kids| ==> Ids(t'.kids[i].child) !! Ids(e.child)
    {
      assert t'.kids[i] == if i == |t.kids| then e else t.kids[i];
      if i < |t.kids| { IdsOfKid(t, i); }
    }
    forall i, k | 0 <= i < k < |t'.kids|
      ensures Ids(t'.kids[i].child) !! Ids(t'.kids[k].child)
    {
      assert t'.kids[k] == if k == |t.kids| then e else t.kids[k];
    }
  }

  lemma PairDistinct<Id>(id: Id, cum: Str, a: Branch<Id>, b: Branch<Id>)
    requires Distinct(a.child) && Distinct(b.child) && Ids(a.child) !! Ids(b.child)
    requires id !in Ids(a.child) && id !in Ids(b.child)
    ensures Distinct(Trie(id, cum, None, [a, b]))
    ensures Ids(Trie(id, cum, None, [a, b])) == {id} + Ids(a.child) + Ids(b.child)
  {
    IdsOfPair(id, cum, a, b);
  }

  lemma {:induction false} InsertDistinct<Id>(t: Trie<Id>, y: Str, info: Info, leaf: Id, mid: Id)
    requires Distinct(t) && leaf != mid && leaf !in Ids(t) && mid !in Ids(t)
    ensures Distinct(Insert(t, y, info, leaf, mid))
    decreases t
  {
    var p := Rest(t.cum, y);
    var j := Hit(t.kids, p);
    assert Ids(Leaf(leaf, y, info)) == {leaf};
    if j == |t.kids| {
      DistinctAppended(t, Branch(p, Leaf(leaf, y, info)));
    } else {
      var e := t.kids[j];
      var e' := Insert(t, y, info, leaf, mid).kids[j];
      IdsOfKid(t, j);
      if e.sub <= p {
        InsertDistinct(e.child, y, info, leaf, mid);
        InsertIds(e.child, y, info, leaf, mid);
      } else {
        PairDistinct(mid, e'.child.cum, e'.child.kids[0], e'.child.kids[1]);
      }
      DistinctUpdated(t, j, e', NewIds(t, y, leaf, mid));
    }
  }

  /** The middle node of a split edge, before the new name goes below it. */
  ghost function Middle<Id>(t: Trie<Id>, j: nat, i: nat, mid: Id): Trie<Id>
    requires j < |t.kids| && i <= |t.kids[j].sub|
  {
    var e := t.kids[j];
    Trie(mid, t.cum + e.sub[..i], None, [Branch(e.sub[i..], e.child)])
  }

  /** The trie with that edge split. */
  ghost function Spliced<Id>(t: Trie<Id>, j: nat, i: nat, mid: Id): Trie<Id>
    requires j < |t.kids| && i <= |t.kids[j].sub|
  {
    t.(kids := t.kids[j := Branch(t.kids[j].sub[..i], Middle(t, j, i, mid))])
  }

  lemma IdsOfOne<Id>(id: Id, cum: Str, a: Branch<Id>)
    requires id !in Ids(a.child) && Distinct(a.child)
    ensures Ids(Trie(id, cum, None, [a])) == {id} + Ids(a.child) && Distinct(Trie(id, cum, None, [a]))
  {
    IdsAppended(Trie(id, cum, None, []), a);
    assert [] + [a] == [a];
  }

  lemma {:induction false} MiddleIds<Id>(t: Trie<Id>, j: nat, i: nat, mid: Id)
    requires j < |t.kids| && i <= |t.kids[j].sub| && Distinct(t) && mid !in Ids(t)
    ensures Ids(Middle(t, j, i, mid)) == Ids(t.kids[j].child) + {mid} && Distinct(Middle(t, j, i, mid))
    ensures Ids(Spliced(t, j, i, mid)) == Ids(t) + {mid} && Distinct(Spliced(t, j, i, mid))
  {
    var e := Branch(t.kids[j].sub[..i], Middle(t, j, i, mid));
    IdsOfKid(t, j);
    IdsOfOne(mid, e.child.cum, e.child.kids[0]);
    IdsUpdated(t, j, e, {mid});
    DistinctUpdated(t, j, e, {mid});
  }

  lemma {:induction false} MiddleGood<Id>(t: Trie<Id>, j: nat, i: nat, mid: Id)
    requires Good(t) && j < |t.kids| && 0 < i < |t.kids[j].sub|
    ensures Good(Middle(t, j, i, mid))
  {
    assert RoutedThrough(t, j);
    var b := Middle(t, j, i, mid);
    PrefixSplit(t.cum, t.kids[j].sub, i);
    assert RoutedThrough(b, 0);
  }

  lemma {:induction false} InsertByDescent<Id>(t: Trie<Id>, j: nat, y: Str, info: Info, leaf: Id, mid: Id)
    requires Good(t) && t.cum <= y && j == Hit(t.kids, Rest(t.cum, y)) < |t.kids|
    requires t.kids[j].sub <= Rest(t.cum, y)
    ensures var e := t.kids[j];
            && Good(e.child) && |e.child.cum| >= |t.cum| && e.child.cum <= y
            && NewIds(t, y, leaf, mid) == NewIds(e.child, y, leaf, mid)
            && Insert(t, y, info, leaf, mid)
               == t.(kids := t.kids[j := Branch(e.sub, Insert(e.child, y, info, leaf, mid))])
  {
    assert RoutedThrough(t, j);
    assert y == t.cum + Rest(t.cum, y);
  }

  /** Splitting first and descending afterwards is the same insertion. */
  lemma {:induction false} InsertAfterSplice<Id>(t: Trie<Id>, j: nat, k: nat, y: Str, info: Info, leaf: Id, mid: Id)
    requires Good(t) && t.cum <= y && j == Hit(t.kids, Rest(t.cum, y)) < |t.kids|
    requires k == Common(t.kids[j].sub, Rest(t.cum, y)) < |t.kids[j].sub|
    ensures k > 0 && NewIds(t, y, leaf, mid) == {leaf, mid}
    ensures var c := Middle(t, j, k, mid);
            && Good(c) && c.cum <= y && |c.cum| > |t.cum|
            && NewIds(c, y, leaf, mid) == {leaf}
            && Insert(t, y, info, leaf, mid)
               == t.(kids := t.kids[j := Branch(t.kids[j].sub[..k], Insert(c, y, info, leaf, mid))])
  {
    var e, p := t.kids[j], Rest(t.cum, y);
    var c := Middle(t, j, k, mid);
    MiddleGood(t, j, k, mid);
    assert y == t.cum + p;
    PrefixSplit(t.cum, p, k);
    assert Hit(c.kids, Rest(c.cum, y)) == 1;
    assert c.kids + [Branch(p[k..], Leaf(leaf, y, info))] == [c.kids[0], Branch(p[k..], Leaf(leaf, y, info))];
  }

  // ----- lookup

  /** The first edge that is a prefix of `p`. */
  function Match<Id>(kids: seq<Branch<Id>>, p: Str): (j: nat)
    ensures j <= |kids|
    ensures forall i | 0 <= i < j :: !(kids[i].sub <= p)
    ensures j < |kids| ==> kids[j].sub <= p
  {
    if kids == [] || kids[0].sub <= p then 0 else 1 + Match(kids[1..], p)
  }

  /** The nodes a lookup visits. */
  function Path<Id>(t: Trie<Id>, x: Str): (path: seq<Id>)
    ensures |path| > 0 && path[0] == t.id
    decreases t
  {
    var j := Match(t.kids, Rest(t.cum, x));
    [t.id] + if j < |t.kids| then Path(t.kids[j].child, x) else []
  }

  /** The node a lookup ends at. */
  function Target<Id>(t: Trie<Id>, x: Str): Trie<Id>
    decreases t
  {
    var j := Match(t.kids, Rest(t.cum, x));
    if j < |t.kids| then Target(t.kids[j].child, x) else t
  }

  /** A stored name is looked up through the one edge it was stored under. */
  lemma {:induction false} MatchOfName<Id>(t: Trie<Id>, j: nat, x: Str)
    requires Good(t) && j < |t.kids| && x in Names(t.kids[j].child)
    ensures Match(t.kids, Rest(t.cum, x)) == j
  {
    assert RoutedThrough(t, j);
    NamesExtend(t.kids[j].child, x);
    RestExtends(t.cum, t.kids[j].sub, x);
    MatchIs(t.kids, Rest(t.cum, x), j);
  }

  lemma RestExtends(cum: Str, sub: Str, x: Str)
    requires cum + sub <= x
    ensures sub <= Rest(cum, x)
  {
    assert Rest(cum, x)[..|sub|] == x[..|cum| + |sub|][|cum|..] == sub;
  }

  lemma {:induction false} MatchIs<Id>(kids: seq<Branch<Id>>, p: Str, j: nat)
    requires j < |kids| && kids[j].sub <= p && forall i | 0 <= i < j :: Diverges(kids[i].sub, p)
    ensures Match(kids, p) == j
  {
    assert forall i | 0 <= i < j :: !(kids[i].sub <= p);
  }

  lemma {:induction false} TargetOfName<Id>(t: Trie<Id>, x: Str)
    requires Good(t) && x in Names(t)
    ensures var v := Target(t, x);
            v.info.Some? && v.cum == x && Path(t, x)[|Path(t, x)| - 1] == v.id
    ensures var v := Target(t, x);
            Terminal(v.id, x, v.info.value) in Preorder(t)
    decreases t
  {
    var p := Rest(t.cum, x);
    if t.info.Some? && x == t.cum {
      assert p == [];
      assert Match(t.kids, p) == |t.kids|;
    } else {
      var j :| 0 <= j < |t.kids| && x in Names(t.kids[j].child);
      MatchOfName(t, j, x);
      TargetOfName(t.kids[j].child, x);
      PreorderSplit(t.kids, j);
    }
  }

  lemma {:induction false} PathInside<Id>(t: Trie<Id>, x: Str)
    requires Distinct(t)
    ensures NoDup(Path(t, x)) && forall i | 0 <= i < |Path(t, x)| :: Path(t, x)[i] in Ids(t)
    decreases t
  {
    var j := Match(t.kids, Rest(t.cum, x));
    if j < |t.kids| {
      PathInside(t.kids[j].child, x);
      IdsOfKid(t, j);
    }
  }

  lemma {:induction false} SomeName<Id>(t: Trie<Id>) returns (x: Str)
    requires Good(t) && (t.info.Some? || t.kids != [])
    ensures x in Names(t)
    decreases t
  {
    if t.info.Some? {
      x := t.cum;
    } else {
      assert RoutedThrough(t, 0);
      x := SomeName(t.kids[0].child);
      NamesOfKid(t, 0);
    }
  }

  /** Every node lies on the path of some stored name. */
  lemma {:induction false} EveryNodeVisited<Id>(t: Trie<Id>, v: Id) returns (x: Str)
    requires Good(t) && (t.info.Some? || t.kids != []) && v in Ids(t)
    ensures x in Names(t) && v in Path(t, x)
    decreases t
  {
    if v == t.id {
      x := SomeName(t);
    } else {
      var j :| 0 <= j < |t.kids| && v in Ids(t.kids[j].child);
      assert RoutedThrough(t, j);
      x := EveryNodeVisited(t.kids[j].child, v);
      NamesOfKid(t, j);
      MatchOfName(t, j, x);
    }
  }

  // ----- ages: a name is stored above another only if it was stored earlier

  ghost predicate Before(rank: map<Str, nat>, a: Str, b: Str) {
    a in rank && b in rank && rank[a] < rank[b]
  }

  /** Some name of `a` is older than every name of `b`. */
  ghost predicate Senior(a: set<Str>, b: set<Str>, rank: map<Str, nat>) {
    exists x | x in a :: forall z | z in b :: Before(rank, x, z)
  }

  ghost predicate Aged<Id>(t: Trie<Id>, rank: map<Str, nat>)
    decreases t
  {
    && (forall j | 0 <= j < |t.kids| ::
          && Aged(t.kids[j].child, rank)
          && forall x | t.info.Some? && x in Names(t.kids[j].child) :: Before(rank, t.cum, x))
    && (forall i, j | 0 <= i < j < |t.kids| :: Senior(Names(t.kids[i].child), Names(t.kids[j].child), rank))
  }

  lemma SeniorGrown(a: set<Str>, b: set<Str>, a': set<Str>, b': set<Str>, y: Str, rank: map<Str, nat>)
    requires Senior(a, b, rank) && (forall x | x in a :: Before(rank, x, y))
    requires a <= a' && b' <= b + {y}
    ensures Senior(a', b', rank)
  {
    var x :| x in a && forall z | z in b :: Before(rank, x, z);
    assert x in a' && forall z | z in b' :: Before(rank, x, z);
  }

  lemma AgedUpdated<Id>(t: Trie<Id>, j: nat, e: Branch<Id>, y: Str, rank: map<Str, nat>)
    requires Aged(t, rank) && j < |t.kids| && (t.info.Some? ==> Before(rank, t.cum, y))
    requires forall i, x | 0 <= i < |t.kids| && x in Names(t.kids[i].child) :: Before(rank, x, y)
    requires Aged(e.child, rank) && Names(e.child) == Names(t.kids[j].child) + {y}
    ensures Aged(t.(kids := t.kids[j := e]), rank)
  {
    var t' := t.(kids := t.kids[j := e]);
    forall i | 0 <= i < |t'.kids|
      ensures Aged(t'.kids[i].child, rank)
    {
      assert t'.kids[i] == if i == j then e else t.kids[i];
    }
    forall i, x | 0 <= i < |t'.kids| && t.info.Some? && x in Names(t'.kids[i].child)
      ensures Before(rank, t.cum, x)
    {
      assert x == y || x in Names(t.kids[i].child);
    }
    forall i, k | 0 <= i < k < |t'.kids|
      ensures Senior(Names(t'.kids[i].child), Names(t'.kids[k].child), rank)
    {
      var a, b := Names(t.kids[i].child), Names(t.kids[k].child);
      assert forall x | x in a :: Before(rank, x, y);
      SeniorGrown(a, b, Names(t'.kids[i].child), Names(t'.kids[k].child), y, rank);
    }
  }

  lemma {:induction false} AgedAppended<Id>(t: Trie<Id>, e: Branch<Id>, y: Str, rank: map<Str, nat>)
    requires Good(t) && Aged(t, rank) && forall x | x in Names(t) :: Before(rank, x, y)
    requires Aged(e.child, rank) && Names(e.child) == {y}
    ensures Aged(t.(kids := t.kids + [e]), rank)
  {
    var t' := t.(kids := t.kids + [e]);
    forall i | 0 <= i < |t'.kids|
      ensures Aged(t'.kids[i].child, rank)
      ensures forall x | t.info.Some? && x in Names(t'.kids[i].child) :: Before(rank, t.cum, x)
    {
      assert t'.kids[i] == if i == |t.kids| then e else t.kids[i];
      assert t.info.Some? ==> t.cum in Names(t);
    }
    forall i, k | 0 <= i < k < |t'.kids|
      ensures Senior(Names(t'.kids[i].child), Names(t'.kids[k].child), rank)
    {
      assert t'.kids[i] == t.kids[i];
      if k == |t.kids| {
        assert RoutedThrough(t, i);
        var x := SomeName(t.kids[i].child);
        NamesOfKid(t, i);
        assert Before(rank, x, y);
      } else {
        assert t'.kids[k] == t.kids[k];
      }
    }
  }

  lemma {:induction false} AgedPair<Id>(id: Id, cum: Str, a: Branch<Id>, b: Branch<Id>, y: Str, rank: map<Str, nat>)
    requires Aged(a.child, rank) && Aged(b.child, rank) && Names(b.child) == {y}
    requires Names(a.child) != {} && forall x | x in Names(a.child) :: Before(rank, x, y)
    ensures Aged(Trie(id, cum, None, [a, b]), rank)
  {
    hide Names, Senior;
    var t := Trie(id, cum, None, [a, b]);
    var x :| x in Names(a.child);
    SeniorOne(Names(a.child), x, y, rank);
    forall i, k | 0 <= i < k < |t.kids|
      ensures Senior(Names(t.kids[i].child), Names(t.kids[k].child), rank)
    {
      assert t.kids[i] == a && t.kids[k] == b;
    }
    forall i | 0 <= i < |t.kids|
      ensures Aged(t.kids[i].child, rank)
    {
      assert t.kids[i] == a || t.kids[i] == b;
    }
  }

  lemma SeniorOne(s: set<Str>, x: Str, y: Str, rank: map<Str, nat>)
    requires x in s && Before(rank, x, y)
    ensures Senior(s, {y}, rank)
  {
  }

  lemma {:induction false} SpliceAged<Id>(mid: Id, cum: Str, e: Branch<Id>, k: nat, y: Str, info: Info, leaf: Id,
                                          rank: map<Str, nat>)
    requires k <= |e.sub| && k <= |Rest(cum, y)| && Aged(e.child, rank)
    requires Names(e.child) != {} && forall x | x in Names(e.child) :: Before(rank, x, y)
    ensures var b := Splice(mid, cum, e, k, Rest(cum, y), Leaf(leaf, y, info)).child;
            Aged(b, rank) && Names(b) == Names(e.child) + {y}
  {
    var b := Splice(mid, cum, e, k, Rest(cum, y), Leaf(leaf, y, info)).child;
    LeafGood(leaf, y, info);
    NamesOfPair(mid, b.cum, b.kids[0], b.kids[1]);
    AgedPair(mid, b.cum, b.kids[0], b.kids[1], y, rank);
  }

  /** A new terminal node is a leaf and a new edge is the last one, so storing the youngest name keeps the ages in
      order. */
  lemma {:induction false} InsertAged<Id>(t: Trie<Id>, y: Str, info: Info, leaf: Id, mid: Id, rank: map<Str, nat>)
    requires Good(t) && Aged(t, rank) && forall x | x in Names(t) :: Before(rank, x, y)
    ensures Aged(Insert(t, y, info, leaf, mid), rank)
    decreases t
  {
    hide Senior, Before, Common, Diverges;
    var p := Rest(t.cum, y);
    var j := Hit(t.kids, p);
    LeafGood(leaf, y, info);
    if j == |t.kids| {
      AgedAppended(t, Branch(p, Leaf(leaf, y, info)), y, rank);
    } else {
      var e := t.kids[j];
      var e' := Insert(t, y, info, leaf, mid).kids[j];
      NamesOfKid(t, j);
      if e.sub <= p {
        InsertAged(e.child, y, info, leaf, mid, rank);
        InsertNames(e.child, y, info, leaf, mid);
      } else {
        assert RoutedThrough(t, j);
        var x := SomeName(e.child);
        SpliceAged(mid, t.cum, e, Common(e.sub, p), y, info, leaf, rank);
      }
      assert t.info.Some? ==> t.cum in Names(t);
      assert forall i | 0 <= i < |t.kids| :: Names(t.kids[i].child) <= Names(t);
      AgedUpdated(t, j, e', y, rank);
    }
  }

  lemma {:induction false} TerminalsInside<Id>(t: Trie<Id>, m: Terminal<Id>)
    requires m in Preorder(t)
    ensures m.id in Ids(t) && m.name in Names(t)
    decreases t, 1
  {
    if m !in Own(t) {
      var j := TerminalOfKid(t.kids, m);
      TerminalsInside(t.kids[j].child, m);
      NamesOfKid(t, j);
      IdsOfKid(t, j);
    }
  }

  lemma {:induction false} TerminalOfKid<Id>(kids: seq<Branch<Id>>, m: Terminal<Id>) returns (j: nat)
    requires m in PreorderAll(kids)
    ensures j < |kids| && m in Preorder(kids[j].child)
    decreases kids
  {
    if m in Preorder(kids[0].child) {
      j := 0;
    } else {
      j := TerminalOfKid(kids[1..], m);
      j := j + 1;
    }
  }

  /** A terminal node met on the path of a stored name holds that name or an older one. */
  lemma {:induction false} OlderOnPath<Id>(t: Trie<Id>, m: Terminal<Id>, x: Str, rank: map<Str, nat>)
    requires Good(t) && Distinct(t) && Aged(t, rank)
    requires m in Preorder(t) && x in Names(t) && m.id in Path(t, x)
    ensures m.name == x || Before(rank, m.name, x)
    decreases t
  {
    if m.id == t.id {
      if m !in Own(t) {
        var j := TerminalOfKid(t.kids, m);
        TerminalsInside(t.kids[j].child, m);
        assert false;
      }
      if x != t.cum {
        var j :| 0 <= j < |t.kids| && x in Names(t.kids[j].child);
      }
    } else {
      var j := TerminalOfKid(t.kids, m);
      TerminalsInside(t.kids[j].child, m);
      var i := Match(t.kids, Rest(t.cum, x));
      PathInside(t.kids[i].child, x);
      assert m.id in Path(t.kids[i].child, x);
      assert i == j;
      NameBelowMatch(t, x);
      OlderOnPath(t.kids[j].child, m, x, rank);
    }
  }

  lemma {:induction false} NameBelowMatch<Id>(t: Trie<Id>, x: Str)
    requires Good(t) && x in Names(t)
    ensures var i := Match(t.kids, Rest(t.cum, x)); i < |t.kids| ==> x in Names(t.kids[i].child)
  {
    if t.info.Some? && x == t.cum {
      assert Rest(t.cum, x) == [];
    } else {
      var j :| 0 <= j < |t.kids| && x in Names(t.kids[j].child);
      MatchOfName(t, j, x);
    }
  }
}
