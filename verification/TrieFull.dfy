/** When a node has more children than its one-byte count can say. */
module TrieFull {
  import opened Bytes
  import opened TrieModel
  import opened TrieBuild

  /** Every node's children can be counted in one byte. */
  ghost predicate Narrow<Id>(t: Trie<Id>)
    decreases t
  {
    |t.kids| < 256 && forall j | 0 <= j < |t.kids| :: Narrow(t.kids[j].child)
  }

  /** Some name of the set goes on with byte `b` where `c` ends. */
  ghost predicate Extended(names: set<Str>, c: Str, b: byte) {
    exists x | x in names :: c + [b] <= x
  }

  ghost predicate ExtendedByAll(names: set<Str>, c: Str) {
    forall b: byte | b != 0 :: Extended(names, c, b)
  }

  /** A name stored after names that extend it by each of the 255 bytes a string can contain. */
  predicate Overfull(xs: seq<Entry>) {
    exists k | 0 <= k < |xs| :: OverfullAt(xs, k)
  }

  predicate OverfullAt(xs: seq<Entry>, k: nat)
    requires k < |xs|
  {
    forall b: byte | b != 0 :: EarlierExtension(xs, k, b)
  }

  predicate EarlierExtension(xs: seq<Entry>, k: nat, b: byte)
    requires k < |xs|
  {
    exists i | 0 <= i < k :: xs[k].name + [b] <= xs[i].name
  }

  // ----- a full node stays full

  lemma {:induction false} NarrowKid<Id>(t: Trie<Id>, j: nat)
    requires j < |t.kids| && !Narrow(t.kids[j].child)
    ensures !Narrow(t)
  {
  }

  lemma {:induction false} InsertKeepsFull<Id>(t: Trie<Id>, y: Str, info: Info, leaf: Id, mid: Id)
    requires !Narrow(t)
    ensures !Narrow(Insert(t, y, info, leaf, mid))
    decreases t
  {
    var p := Rest(t.cum, y);
    var j := Hit(t.kids, p);
    var t' := Insert(t, y, info, leaf, mid);
    assert |t'.kids| >= |t.kids|;
    if |t.kids| < 256 {
      var i :| 0 <= i < |t.kids| && !Narrow(t.kids[i].child);
      if i == j {
        if t.kids[j].sub <= p {
          InsertKeepsFull(t.kids[j].child, y, info, leaf, mid);
        } else {
          NarrowKid(t'.kids[j].child, 0);
        }
      } else {
        assert t'.kids[i] == t.kids[i];
      }
      NarrowKid(t', i);
    }
  }

  // ----- storing the name fills the node

  /** A name below a node that ends strictly above it hangs on an edge, and not on an empty one. */
  lemma EdgeOf<Id>(t: Trie<Id>, x: Str) returns (j: nat)
    requires Good(t) && x in Names(t) && t.cum !in Names(t)
    ensures j < |t.kids| && x in Names(t.kids[j].child) && t.kids[j].sub != []
    ensures t.cum + t.kids[j].sub <= x && t.kids[j].sub <= Rest(t.cum, x)
    ensures forall i | 0 <= i < j :: Diverges(t.kids[i].sub, Rest(t.cum, x))
  {
    j :| 0 <= j < |t.kids| && x in Names(t.kids[j].child);
    assert RoutedThrough(t, j);
    NamesExtend(t.kids[j].child, x);
    RestExtends(t.cum, t.kids[j].sub, x);
    EdgeNotEmpty(t, j);
  }

  lemma {:induction false} OwnName<Id>(t: Trie<Id>)
    ensures t.info.Some? ==> t.cum in Names(t)
  {
  }

  lemma {:induction false} EdgeNotEmpty<Id>(t: Trie<Id>, j: nat)
    requires Good(t) && t.cum !in Names(t) && j < |t.kids|
    ensures t.kids[j].sub != []
  {
    hide Names;
    assert RoutedThrough(t, j);
    NamesOfKid(t, j);
    var e := t.kids[j];
    OwnName(e.child);
    assert e.sub == [] ==> t.cum + e.sub == t.cum;
  }

  lemma RestOfExtension(cum: Str, c: Str, b: byte, x: Str)
    requires cum <= c && c + [b] <= x
    ensures Rest(cum, c) + [b] <= Rest(cum, x) && Rest(cum, x)[|c| - |cum|] == b
  {
    assert x[..|c| + 1] == c + [b];
    assert Rest(cum, x)[..|c| - |cum| + 1] == (c + [b])[|cum|..];
    assert (c + [b])[|cum|..] == Rest(cum, c) + [b];
  }

  /** Distinct edges for distinct bytes. */
  lemma {:induction false} ManyEdges<Id>(t: Trie<Id>, n: nat) returns (at: seq<nat>)
    requires Good(t) && t.cum !in Names(t) && n <= 255 && ExtendedByAll(Names(t), t.cum)
    ensures |at| == n
    ensures forall b | 0 <= b < n :: at[b] < |t.kids| && t.kids[at[b]].sub != [] && t.kids[at[b]].sub[0] == b + 1
  {
    at := [];
    if n > 0 {
      var before := ManyEdges(t, n - 1);
      assert Extended(Names(t), t.cum, n);
      var x :| x in Names(t) && t.cum + [n as byte] <= x;
      var j := EdgeOf(t, x);
      RestOfExtension(t.cum, t.cum, n, x);
      at := before + [j];
    }
  }

  /** The numbers below `n`. */
  ghost function UpTo(n: nat): (s: set<nat>)
    ensures |s| == n && forall k: nat :: k in s <==> k < n
  {
    if n == 0 then {} else UpTo(n - 1) + {n - 1}
  }

  lemma {:induction false} DistinctCount(at: seq<nat>)
    requires NoDup(at)
    ensures |Members(at)| == |at|
  {
    if at != [] {
      DistinctCount(at[..|at| - 1]);
      assert Members(at) == Members(at[..|at| - 1]) + {at[|at| - 1]};
    }
  }

  lemma {:induction false} InjectionBound(at: seq<nat>, n: nat)
    requires NoDup(at) && forall b | 0 <= b < |at| :: at[b] < n
    ensures |at| <= n
    ensures |at| == n ==> Members(at) == UpTo(n)
  {
    DistinctCount(at);
    SubsetSize(Members(at), UpTo(n));
  }

  /** Where the name ends, an edge is there for every byte already: one more makes 256. */
  lemma {:induction false} FillsHere<Id>(t: Trie<Id>, info: Info, leaf: Id, mid: Id)
    requires Good(t) && t.cum !in Names(t) && ExtendedByAll(Names(t), t.cum)
    ensures !Narrow(Insert(t, t.cum, info, leaf, mid))
  {
    var at := ManyEdges(t, 255);
    InjectionBound(at, |t.kids|);
    forall j | 0 <= j < |t.kids|
      ensures Diverges(t.kids[j].sub, [])
    {
      EdgeNotEmpty(t, j);
    }
    assert Rest(t.cum, t.cum) == [];
    assert Hit(t.kids, []) == |t.kids|;
  }

  /** Above that node, all those names and the new one take the same edge. */
  lemma SameEdge<Id>(t: Trie<Id>, c: Str, b: byte, j: nat) returns (x: Str)
    requires Good(t) && t.cum <= c && t.cum != c && c !in Names(t)
    requires b != 0 && Extended(Names(t), c, b) && j == Hit(t.kids, Rest(t.cum, c))
    ensures j < |t.kids| && x in Names(t.kids[j].child) && c + [b] <= x && t.kids[j].sub <= Rest(t.cum, x)
  {
    x :| x in Names(t) && c + [b] <= x;
    assert x != t.cum;
    var i :| 0 <= i < |t.kids| && x in Names(t.kids[i].child);
    assert RoutedThrough(t, i);
    NamesExtend(t.kids[i].child, x);
    RestExtends(t.cum, t.kids[i].sub, x);
    RestOfExtension(t.cum, c, b, x);
    var p, q := Rest(t.cum, c), Rest(t.cum, x);
    assert p[0] == q[0] by { assert (p + [b])[0] == p[0]; }
    assert forall h | 0 <= h < i :: Diverges(t.kids[h].sub, p);
    assert !Diverges(t.kids[i].sub, p);
    assert i == j;
  }

  lemma EdgeAbove(sub: Str, p: Str, q: Str, r: Str)
    requires p + [1] <= q && p + [2] <= r && sub <= q && sub <= r
    ensures sub <= p
  {
    assert q[|p|] == (p + [1])[|p|] && r[|p|] == (p + [2])[|p|];
    assert forall i | 0 <= i < |sub| :: sub[i] == q[i] && sub[i] == r[i];
    assert |sub| <= |p|;
    assert p == q[..|p|];
  }

  lemma {:induction false} InsertFills<Id>(t: Trie<Id>, c: Str, info: Info, leaf: Id, mid: Id)
    requires Good(t) && t.cum <= c && c !in Names(t) && ExtendedByAll(Names(t), c)
    ensures !Narrow(Insert(t, c, info, leaf, mid))
    decreases t
  {
    if t.cum == c {
      FillsHere(t, info, leaf, mid);
    } else {
      var p := Rest(t.cum, c);
      var j := Hit(t.kids, p);
      var _ := SameEdge(t, c, 1, j);
      forall b: byte | b != 0
        ensures Extended(Names(t.kids[j].child), c, b)
      {
        var x := SameEdge(t, c, b, j);
      }
      DescendsFurther(t, c, j);
      var e := t.kids[j];
      InsertFills(e.child, c, info, leaf, mid);
      NarrowKid(Insert(t, c, info, leaf, mid), j);
    }
  }

  lemma {:induction false} DescendsFurther<Id>(t: Trie<Id>, c: Str, j: nat)
    requires Good(t) && t.cum <= c && t.cum != c && c !in Names(t) && ExtendedByAll(Names(t), c)
    requires j == Hit(t.kids, Rest(t.cum, c)) < |t.kids|
    ensures t.kids[j].sub <= Rest(t.cum, c)
    ensures var e := t.kids[j]; Good(e.child) && e.child.cum <= c && c !in Names(e.child)
  {
    hide Good, Names, Hit;
    var x := SameEdge(t, c, 1, j);
    var y := SameEdge(t, c, 2, j);
    RestOfExtension(t.cum, c, 1, x);
    RestOfExtension(t.cum, c, 2, y);
    EdgeAbove(t.kids[j].sub, Rest(t.cum, c), Rest(t.cum, x), Rest(t.cum, y));
    BelowEdge(t, c, j);
  }

  lemma {:induction false} BelowEdge<Id>(t: Trie<Id>, c: Str, j: nat)
    requires Good(t) && t.cum <= c && c !in Names(t) && j < |t.kids| && t.kids[j].sub <= Rest(t.cum, c)
    ensures var e := t.kids[j]; Good(e.child) && e.child.cum <= c && c !in Names(e.child)
  {
    assert RoutedThrough(t, j);
    NamesOfKid(t, j);
    assert c == t.cum + Rest(t.cum, c);
  }

  // ----- a full node is filled that way

  /** The children of a node go on with different bytes; only the last edge can be empty. */
  ghost function FirstBytes<Id>(t: Trie<Id>, n: nat): (at: seq<nat>)
    requires n <= |t.kids| && forall j | 0 <= j < n :: t.kids[j].sub != []
    ensures |at| == n && forall j | 0 <= j < n :: at[j] == t.kids[j].sub[0]
  {
    if n == 0 then [] else FirstBytes(t, n - 1) + [t.kids[n - 1].sub[0] as nat]
  }

  /** A name below an edge, and that it goes on with the edge's first byte. */
  lemma NameOfEdge<Id>(t: Trie<Id>, j: nat) returns (x: Str)
    requires Good(t) && j < |t.kids|
    ensures x in Names(t.kids[j].child) && x in Names(t)
    ensures t.kids[j].sub <= Rest(t.cum, x) && t.cum + t.kids[j].sub <= x
    ensures forall i | 0 <= i < j :: Diverges(t.kids[i].sub, Rest(t.cum, x))
  {
    hide Names;
    assert RoutedThrough(t, j);
    x := SomeName(t.kids[j].child);
    NamesOfKid(t, j);
    NamesExtend(t.kids[j].child, x);
    RestExtends(t.cum, t.kids[j].sub, x);
  }

  lemma {:induction false} EarlierEdge<Id>(t: Trie<Id>, i: nat, j: nat)
    requires Good(t) && i < j < |t.kids|
    ensures t.kids[i].sub != []
    ensures t.kids[j].sub != [] ==> t.kids[i].sub[0] != t.kids[j].sub[0]
  {
    hide Good, Names;
    var x := NameOfEdge(t, j);
    assert Diverges(t.kids[i].sub, Rest(t.cum, x));
  }

  lemma {:induction false} FirstByte<Id>(t: Trie<Id>, j: nat)
    requires Good(t) && j < |t.kids| && t.kids[j].sub != [] && forall x | x in Names(t) :: NulFree(x)
    ensures 0 < t.kids[j].sub[0] < 256
  {
    hide Good, Names;
    var x := NameOfEdge(t, j);
    assert x[|t.cum|] == (t.cum + t.kids[j].sub)[|t.cum|];
  }

  /** With 256 edges or more, the first 255 go on with different bytes. */
  lemma FullEdges<Id>(t: Trie<Id>) returns (at: seq<nat>)
    requires Good(t) && |t.kids| >= 256 && forall x | x in Names(t) :: NulFree(x)
    ensures forall j | 0 <= j < 255 :: t.kids[j].sub != []
    ensures at == FirstBytes(t, 255) && NoDup(at) && forall j | 0 <= j < 255 :: 0 < at[j] < 256
  {
    hide Good, Names;
    forall j | 0 <= j < 255
      ensures t.kids[j].sub != []
    {
      EarlierEdge(t, j, 255);
    }
    at := FirstBytes(t, 255);
    forall i, j | 0 <= i < j < 255
      ensures at[i] != at[j]
    {
      EarlierEdge(t, i, j);
    }
    forall j | 0 <= j < 255
      ensures 0 < at[j] < 256
    {
      FirstByte(t, j);
    }
  }

  /** One of them goes on with any given byte. */
  lemma EdgeForByte<Id>(t: Trie<Id>, b: nat) returns (j: nat)
    requires Good(t) && |t.kids| >= 256 && (forall x | x in Names(t) :: NulFree(x)) && 0 < b < 256
    ensures j < 255 && t.kids[j].sub != [] && t.kids[j].sub[0] == b
  {
    hide Good, Names;
    var at := FullEdges(t);
    AllBytes(at, b);
    j :| 0 <= j < 255 && at[j] == b;
  }

  /** So the next one can only be empty. */
  lemma {:induction false} LastEmpty<Id>(t: Trie<Id>)
    requires Good(t) && |t.kids| >= 256 && forall x | x in Names(t) :: NulFree(x)
    ensures t.kids[255].sub == []
  {
    hide Good, Names;
    if t.kids[255].sub != [] {
      FirstByte(t, 255);
      var j := EdgeForByte(t, t.kids[255].sub[0]);
      EarlierEdge(t, j, 255);
    }
  }

  /** 255 different non-zero bytes are all of them. */
  lemma AllBytes(at: seq<nat>, b: nat)
    requires |at| == 255 && NoDup(at) && (forall j | 0 <= j < 255 :: 0 < at[j] < 256) && 0 < b < 256
    ensures b in at
  {
    DistinctCount(at);
    hide NoDup;
    var s := Members(at);
    assert 0 !in s;
    var s' := s + {0};
    assert |s'| == 256;
    var all := UpTo(256);
    assert s' <= all;
    hide UpTo, Members;
    SubsetSize(s', all);
    assert b in all;
  }

  /** In a full node, the name that ends there is younger than some name going on with any given byte. */
  lemma FullHere<Id>(t: Trie<Id>, rank: map<Str, nat>, b: byte) returns (x: Str)
    requires Good(t) && Aged(t, rank) && |t.kids| >= 256 && (forall x | x in Names(t) :: NulFree(x)) && b != 0
    ensures t.cum in Names(t) && x in Names(t) && t.cum + [b] <= x && Before(rank, x, t.cum)
  {
    hide Good, Names, Aged;
    var j := EdgeForByte(t, b);
    LastEmpty(t);
    x := SeniorOf(t, j, 255, rank);
    EmptyEdge(t, 255);
    OwnBelow(t, j, x, b);
  }

  lemma SeniorOf<Id>(t: Trie<Id>, i: nat, j: nat, rank: map<Str, nat>) returns (x: Str)
    requires Aged(t, rank) && i < j < |t.kids|
    ensures x in Names(t.kids[i].child) && forall z | z in Names(t.kids[j].child) :: Before(rank, x, z)
  {
    hide Names;
    assert Senior(Names(t.kids[i].child), Names(t.kids[j].child), rank);
    x :| x in Names(t.kids[i].child) && forall z | z in Names(t.kids[j].child) :: Before(rank, x, z);
  }

  lemma {:induction false} EmptyEdge<Id>(t: Trie<Id>, j: nat)
    requires Good(t) && j < |t.kids| && t.kids[j].sub == []
    ensures t.cum in Names(t.kids[j].child) && t.cum in Names(t)
  {
    hide Names;
    assert RoutedThrough(t, j);
    assert t.cum + [] == t.cum;
    OwnName(t.kids[j].child);
    NamesOfKid(t, j);
  }

  lemma {:induction false} OwnBelow<Id>(t: Trie<Id>, j: nat, x: Str, b: byte)
    requires Good(t) && j < |t.kids| && t.kids[j].sub != [] && t.kids[j].sub[0] == b && x in Names(t.kids[j].child)
    ensures x in Names(t) && t.cum + [b] <= x
  {
    hide Names;
    assert RoutedThrough(t, j);
    NamesOfKid(t, j);
    NamesExtend(t.kids[j].child, x);
    var c := t.kids[j].child.cum;
    assert c[..|t.cum| + 1] == t.cum + [b];
    assert x[..|t.cum| + 1] == c[..|t.cum| + 1];
  }

  /** Some older name goes on with byte `b` where `c` ends. */
  ghost predicate ExtendedBefore(names: set<Str>, c: Str, b: byte, rank: map<Str, nat>) {
    exists x | x in names :: c + [b] <= x && Before(rank, x, c)
  }

  lemma {:induction false} FullSomewhere<Id>(t: Trie<Id>, rank: map<Str, nat>) returns (c: Str)
    requires Good(t) && Aged(t, rank) && !Narrow(t) && forall x | x in Names(t) :: NulFree(x)
    ensures c in Names(t)
    ensures forall b: byte | b != 0 :: ExtendedBefore(Names(t), c, b, rank)
    decreases t
  {
    if |t.kids| >= 256 {
      c := t.cum;
      forall b: byte | b != 0
        ensures ExtendedBefore(Names(t), c, b, rank)
      {
        var x := FullHere(t, rank, b);
      }
      LastEmpty(t);
      EmptyEdge(t, 255);
    } else {
      var j :| 0 <= j < |t.kids| && !Narrow(t.kids[j].child);
      NamesOfKid(t, j);
      c := FullSomewhere(t.kids[j].child, rank);
      ExtendedInMore(Names(t.kids[j].child), Names(t), c, rank);
    }
  }

  lemma ExtendedInMore(a: set<Str>, b: set<Str>, c: Str, rank: map<Str, nat>)
    requires a <= b && forall v: byte | v != 0 :: ExtendedBefore(a, c, v, rank)
    ensures forall v: byte | v != 0 :: ExtendedBefore(b, c, v, rank)
  {
    forall v: byte | v != 0
      ensures ExtendedBefore(b, c, v, rank)
    {
      assert ExtendedBefore(a, c, v, rank);
    }
  }

  // ----- in terms of the list of names

  lemma {:induction false} NarrowUntil(xs: seq<Entry>, k: nat)
    requires k <= |xs| && !Narrow(TrieOf(xs[..k]))
    ensures !Narrow(TrieOf(xs))
    decreases |xs| - k
  {
    hide TrieOf, Insert, Narrow;
    if k < |xs| {
      TrieOfSnoc(xs, k);
      InsertKeepsFull(TrieOf(xs[..k]), xs[k].name, InfoOf(xs[k]), LeafId(k), MidId(k));
      NarrowUntil(xs, k + 1);
    } else {
      assert xs[..k] == xs;
    }
  }

  lemma ExtendedEarlier(xs: seq<Entry>, k: nat)
    requires k < |xs| && OverfullAt(xs, k)
    ensures ExtendedByAll(NamesOf(xs[..k]), xs[k].name)
  {
    forall b: byte | b != 0
      ensures Extended(NamesOf(xs[..k]), xs[k].name, b)
    {
      assert EarlierExtension(xs, k, b);
      var i :| 0 <= i < k && xs[k].name + [b] <= xs[i].name;
      assert xs[..k][i].name in NamesOf(xs[..k]);
    }
  }

  lemma {:induction false} OverfullIsFull(xs: seq<Entry>, k: nat)
    requires DistinctNames(xs) && k < |xs| && OverfullAt(xs, k)
    ensures !Narrow(TrieOf(xs))
  {
    hide Narrow, Good, Names, Insert, NamesOf, TrieOf, OverfullAt, Ranks;
    var t, c := TrieOf(xs[..k]), xs[k].name;
    TrieOfRouted(xs, k);
    EarlierNames(xs, k);
    ExtendedEarlier(xs, k);
    InsertFills(t, c, InfoOf(xs[k]), LeafId(k), MidId(k));
    TrieOfSnoc(xs, k);
    NarrowUntil(xs, k + 1);
  }

  lemma {:induction false} FullIsOverfull(xs: seq<Entry>)
    requires DistinctNames(xs) && !Narrow(TrieOf(xs)) && forall k | 0 <= k < |xs| :: NulFree(xs[k].name)
    ensures Overfull(xs)
  {
    hide Narrow, Good, Names, TrieOf, Aged;
    var t := TrieOf(xs);
    TrieOfBuilt(xs);
    var c := FullSomewhere(t, Ranks(xs));
    var k :| 0 <= k < |xs| && xs[k].name == c;
    RankOf(xs, k);
    forall b: byte | b != 0
      ensures EarlierExtension(xs, k, b)
    {
      assert ExtendedBefore(Names(t), c, b, Ranks(xs));
      var x :| x in Names(t) && c + [b] <= x && Before(Ranks(xs), x, c);
      var i :| 0 <= i < |xs| && xs[i].name == x;
      RankOf(xs, i);
    }
    assert OverfullAt(xs, k);
  }

  /** Every child count of the trie fits in a byte unless some name comes after names extending it by all 255 bytes. */
  lemma {:induction false} NarrowExactly(xs: seq<Entry>)
    requires DistinctNames(xs) && forall k | 0 <= k < |xs| :: NulFree(xs[k].name)
    ensures Narrow(TrieOf(xs)) <==> !Overfull(xs)
  {
    if Overfull(xs) {
      var k :| 0 <= k < |xs| && OverfullAt(xs, k);
      OverfullIsFull(xs, k);
    }
    if !Narrow(TrieOf(xs)) {
      FullIsOverfull(xs);
    }
  }
}
