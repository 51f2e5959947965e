/** The trie of a list of exports: what storing them one after the other establishes. */
module TrieBuild {
  import opened Bytes
  import opened TrieModel

  datatype Entry = Entry(name: Str, address: u64, flags: u64)

  /** Flags are narrowed to 32 bits when they are stored in a node. */
  function InfoOf(x: Entry): Info {
    Info(x.address, x.flags % TWO32)
  }

  /** The identities of the nodes created for entry number `k`. */
  function LeafId(k: nat): nat { 2 * k + 1 }

  function MidId(k: nat): nat { 2 * k + 2 }

  function TrieOf(xs: seq<Entry>): Trie<nat> {
    if xs == [] then Trie(0, [], None, [])
    else
      var k := |xs| - 1;
      Insert(TrieOf(xs[..k]), xs[k].name, InfoOf(xs[k]), LeafId(k), MidId(k))
  }

  function TermsOf(xs: seq<Entry>): (ms: seq<Terminal<nat>>)
    ensures |ms| == |xs| && forall k | 0 <= k < |xs| :: ms[k] == Terminal(LeafId(k), xs[k].name, InfoOf(xs[k]))
  {
    seq(|xs|, k requires 0 <= k < |xs| => Terminal(LeafId(k), xs[k].name, InfoOf(xs[k])))
  }

  ghost function NamesOf(xs: seq<Entry>): set<Str> {
    set k | 0 <= k < |xs| :: xs[k].name
  }

  predicate DistinctNames(xs: seq<Entry>) {
    forall i, j | 0 <= i < j < |xs| :: xs[i].name != xs[j].name
  }

  function Ranks(xs: seq<Entry>): map<Str, nat> {
    if xs == [] then map[] else Ranks(xs[..|xs| - 1])[xs[|xs| - 1].name := |xs| - 1]
  }

  lemma {:induction false} RankOf(xs: seq<Entry>, k: nat)
    requires DistinctNames(xs) && k < |xs|
    ensures xs[k].name in Ranks(xs) && Ranks(xs)[xs[k].name] == k
  {
    var n := |xs| - 1;
    if k < n {
      RankOf(xs[..n], k);
      assert xs[..n][k] == xs[k];
    }
  }

  /** Every stored name is found, and only the stored names are there. */
  ghost predicate Routed(t: Trie<nat>, xs: seq<Entry>, rank: map<Str, nat>) {
    Good(t) && Aged(t, rank) && t.cum == [] && Names(t) == NamesOf(xs)
  }

  /** The nodes are distinct and the next two identities are free. */
  ghost predicate Numbered(t: Trie<nat>, xs: seq<Entry>) {
    Distinct(t) && t.id == 0 && forall i | i in Ids(t) :: i <= 2 * |xs|
  }

  /** The terminal nodes are those of the list, each once. */
  ghost predicate Listed(t: Trie<nat>, xs: seq<Entry>) {
    t.info == None && (xs != [] ==> t.kids != []) && multiset(Preorder(t)) == multiset(TermsOf(xs))
  }

  lemma {:induction false} RoutedNext(t: Trie<nat>, xs: seq<Entry>, x: Entry, info: Info, leaf: nat, mid: nat,
                                      rank: map<Str, nat>)
    requires Routed(t, xs, rank) && x.name !in NamesOf(xs)
    requires forall z | z in NamesOf(xs) :: Before(rank, z, x.name)
    ensures Routed(Insert(t, x.name, info, leaf, mid), xs + [x], rank)
  {
    InsertGood(t, x.name, info, leaf, mid);
    InsertAged(t, x.name, info, leaf, mid, rank);
    InsertNames(t, x.name, info, leaf, mid);
    NamesOfSnoc(xs, x);
  }

  lemma {:induction false} NumberedNext(t: Trie<nat>, xs: seq<Entry>, x: Entry, info: Info)
    requires Numbered(t, xs)
    ensures Numbered(Insert(t, x.name, info, LeafId(|xs|), MidId(|xs|)), xs + [x])
  {
    var leaf, mid := LeafId(|xs|), MidId(|xs|);
    assert leaf !in Ids(t) && mid !in Ids(t);
    InsertDistinct(t, x.name, info, leaf, mid);
    InsertIds(t, x.name, info, leaf, mid);
  }

  lemma {:induction false} ListedNext(t: Trie<nat>, xs: seq<Entry>, x: Entry, mid: nat)
    requires Listed(t, xs)
    ensures Listed(Insert(t, x.name, InfoOf(x), LeafId(|xs|), mid), xs + [x])
  {
    InsertRoot(t, x.name, InfoOf(x), LeafId(|xs|), mid);
    hide Insert, Preorder, TermsOf, InfoOf;
    InsertPreorder(t, x.name, InfoOf(x), LeafId(|xs|), mid);
    TermsOfSnoc(xs, x);
  }

  lemma {:induction false} InsertRoot(t: Trie<nat>, y: Str, info: Info, leaf: nat, mid: nat)
    ensures var t' := Insert(t, y, info, leaf, mid); t'.info == t.info && t'.kids != []
  {
  }

  lemma TermsOfSnoc(xs: seq<Entry>, x: Entry)
    ensures TermsOf(xs + [x]) == TermsOf(xs) + [Terminal(LeafId(|xs|), x.name, InfoOf(x))]
  {
    hide InfoOf;
  }

  lemma NamesOfSnoc(xs: seq<Entry>, x: Entry)
    ensures NamesOf(xs + [x]) == NamesOf(xs) + {x.name}
  {
    assert (xs + [x])[|xs|] == x;
    assert forall k | 0 <= k < |xs| :: (xs + [x])[k] == xs[k];
  }

  lemma TrieOfSnoc(xs: seq<Entry>, k: nat)
    requires k < |xs|
    ensures xs[..k + 1] == xs[..k] + [xs[k]]
    ensures TrieOf(xs[..k + 1]) == Insert(TrieOf(xs[..k]), xs[k].name, InfoOf(xs[k]), LeafId(k), MidId(k))
  {
    assert xs[..k + 1][..k] == xs[..k];
  }

  lemma {:induction false} EarlierNames(xs: seq<Entry>, k: nat)
    requires DistinctNames(xs) && k < |xs|
    ensures xs[k].name !in NamesOf(xs[..k])
    ensures forall z | z in NamesOf(xs[..k]) :: Before(Ranks(xs), z, xs[k].name)
  {
    RankOf(xs, k);
    forall z | z in NamesOf(xs[..k])
      ensures Before(Ranks(xs), z, xs[k].name)
    {
      var i :| 0 <= i < k && z == xs[..k][i].name;
      RankOf(xs, i);
    }
  }

  /** What storing the first `k` entries one after the other establishes. */
  lemma {:induction false} TrieOfRouted(xs: seq<Entry>, k: nat)
    requires DistinctNames(xs) && k <= |xs|
    ensures Routed(TrieOf(xs[..k]), xs[..k], Ranks(xs))
  {
    if k > 0 {
      TrieOfRouted(xs, k - 1);
      TrieOfSnoc(xs, k - 1);
      EarlierNames(xs, k - 1);
      var x := xs[k - 1];
      RoutedNext(TrieOf(xs[..k - 1]), xs[..k - 1], x, InfoOf(x), LeafId(k - 1), MidId(k - 1), Ranks(xs));
    }
  }

  lemma {:induction false} TrieOfNumbered(xs: seq<Entry>, k: nat)
    requires k <= |xs|
    ensures Numbered(TrieOf(xs[..k]), xs[..k]) && Listed(TrieOf(xs[..k]), xs[..k])
  {
    if k == 0 {
      assert TermsOf(xs[..0]) == [];
    } else {
      TrieOfNumbered(xs, k - 1);
      TrieOfSnoc(xs, k - 1);
      NumberedNext(TrieOf(xs[..k - 1]), xs[..k - 1], xs[k - 1], InfoOf(xs[k - 1]));
      ListedNext(TrieOf(xs[..k - 1]), xs[..k - 1], xs[k - 1], MidId(k - 1));
    }
  }

  /** The trie of a whole list. */
  ghost predicate Built(t: Trie<nat>, xs: seq<Entry>) {
    DistinctNames(xs) && Routed(t, xs, Ranks(xs)) && Numbered(t, xs) && Listed(t, xs)
  }

  lemma {:induction false} TrieOfBuilt(xs: seq<Entry>)
    requires DistinctNames(xs)
    ensures Built(TrieOf(xs), xs)
  {
    assert xs[..|xs|] == xs;
    TrieOfRouted(xs, |xs|);
    TrieOfNumbered(xs, |xs|);
  }
}
