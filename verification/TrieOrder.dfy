/** The layout order of the nodes: terminal nodes come in the order of the input, however edges were split. */
module TrieOrder {
  import opened Bytes
  import opened TrieModel
  import opened TrieBuild

  // ----- merging paths into one order

  ghost function Elems(s: seq<nat>): set<nat> {
    set v | v in s
  }

  /** Append the nodes of a path that are not yet in the order. */
  function Visit(path: seq<nat>, acc: seq<nat>): seq<nat>
    decreases path
  {
    if path == [] then acc else Visit(path[1..], if path[0] in acc then acc else acc + [path[0]])
  }

  /** The order after the first `k` paths have been walked. */
  function Collect(paths: seq<seq<nat>>, k: nat): seq<nat>
    requires k <= |paths|
  {
    if k == 0 then [] else Visit(paths[k - 1], Collect(paths, k - 1))
  }

  lemma ElemsSplit(s: seq<nat>)
    requires s != []
    ensures Elems(s) == {s[0]} + Elems(s[1..])
  {
    assert s == [s[0]] + s[1..];
  }

  lemma ElemsSnoc(s: seq<nat>, v: nat)
    ensures Elems(s + [v]) == Elems(s) + {v}
  {
  }

  lemma {:induction false} VisitElems(path: seq<nat>, acc: seq<nat>)
    ensures Elems(Visit(path, acc)) == Elems(acc) + Elems(path)
    decreases path
  {
    if path != [] {
      ElemsSplit(path);
      ElemsSnoc(acc, path[0]);
      VisitElems(path[1..], if path[0] in acc then acc else acc + [path[0]]);
    }
  }

  lemma {:induction false} VisitExtends(path: seq<nat>, acc: seq<nat>)
    ensures acc <= Visit(path, acc)
    decreases path
  {
    if path != [] {
      VisitExtends(path[1..], if path[0] in acc then acc else acc + [path[0]]);
    }
  }

  lemma {:induction false} VisitNoDup(path: seq<nat>, acc: seq<nat>)
    requires NoDup(acc)
    ensures NoDup(Visit(path, acc))
    decreases path
  {
    if path != [] {
      VisitNoDup(path[1..], if path[0] in acc then acc else acc + [path[0]]);
    }
  }

  lemma {:induction false} VisitStart(path: seq<nat>)
    requires path != []
    ensures [path[0]] <= Visit(path, [])
  {
    VisitExtends(path[1..], [] + [path[0]]);
  }

  lemma {:induction false} CollectNoDup(paths: seq<seq<nat>>, k: nat)
    requires k <= |paths|
    ensures NoDup(Collect(paths, k))
  {
    if k > 0 {
      CollectNoDup(paths, k - 1);
      VisitNoDup(paths[k - 1], Collect(paths, k - 1));
    }
  }

  lemma {:induction false} CollectCovers(paths: seq<seq<nat>>, k: nat, i: nat)
    requires i < k <= |paths|
    ensures Elems(paths[i]) <= Elems(Collect(paths, k))
    decreases k
  {
    VisitElems(paths[k - 1], Collect(paths, k - 1));
    if i < k - 1 {
      CollectCovers(paths, k - 1, i);
    }
  }

  lemma {:induction false} CollectInside(paths: seq<seq<nat>>, k: nat, all: set<nat>)
    requires k <= |paths| && forall i | 0 <= i < k :: Elems(paths[i]) <= all
    ensures Elems(Collect(paths, k)) <= all
  {
    if k > 0 {
      CollectInside(paths, k - 1, all);
      VisitElems(paths[k - 1], Collect(paths, k - 1));
    }
  }

  lemma {:induction false} CollectSkips(paths: seq<seq<nat>>, k: nat, v: nat)
    requires k <= |paths| && forall i | 0 <= i < k :: v !in Elems(paths[i])
    ensures v !in Elems(Collect(paths, k))
  {
    if k > 0 {
      CollectSkips(paths, k - 1, v);
      VisitElems(paths[k - 1], Collect(paths, k - 1));
    }
  }

  lemma PrefixTrans(a: seq<nat>, b: seq<nat>, c: seq<nat>)
    requires a <= b && b <= c
    ensures a <= c
  {
  }

  lemma {:induction false} CollectGrows(paths: seq<seq<nat>>, k: nat, n: nat)
    requires k <= n <= |paths|
    ensures Collect(paths, k) <= Collect(paths, n)
    decreases n - k
  {
    if k < n {
      CollectGrows(paths, k, n - 1);
      VisitExtends(paths[n - 1], Collect(paths, n - 1));
      PrefixTrans(Collect(paths, k), Collect(paths, n - 1), Collect(paths, n));
    }
  }

  lemma {:induction false} CollectStart(paths: seq<seq<nat>>, k: nat)
    requires 0 < k <= |paths| && paths[0] != []
    ensures [paths[0][0]] <= Collect(paths, k)
  {
    VisitStart(paths[0]);
    assert Collect(paths, 0) == [];
    CollectGrows(paths, 1, k);
    PrefixTrans([paths[0][0]], Collect(paths, 1), Collect(paths, k));
  }

  /** A node on path `i` comes before a node that is on none of the first `i + 1` paths. */
  lemma {:induction false} CollectOrders(paths: seq<seq<nat>>, i: nat, v: nat, w: nat, a: nat, b: nat)
    requires i < |paths| && v in Elems(paths[i]) && forall j | 0 <= j <= i :: w !in Elems(paths[j])
    requires a < |Collect(paths, |paths|)| && Collect(paths, |paths|)[a] == v
    requires b < |Collect(paths, |paths|)| && Collect(paths, |paths|)[b] == w
    ensures a < b
  {
    CollectCovers(paths, i + 1, i);
    CollectSkips(paths, i + 1, w);
    CollectGrows(paths, i + 1, |paths|);
    CollectNoDup(paths, |paths|);
    PrefixPositions(Collect(paths, i + 1), Collect(paths, |paths|), v, w, a, b);
  }

  lemma PrefixPositions(c: seq<nat>, o: seq<nat>, v: nat, w: nat, a: nat, b: nat)
    requires c <= o && NoDup(o) && v in Elems(c) && w !in Elems(c)
    requires a < |o| && o[a] == v && b < |o| && o[b] == w
    ensures a < b
  {
    var i :| 0 <= i < |c| && c[i] == v;
    assert o[i] == v && i == a;
    assert forall k | 0 <= k < |c| :: o[k] == c[k] && c[k] in Elems(c);
  }

  // ----- the order of the trie's nodes

  function Paths(t: Trie<nat>, xs: seq<Entry>): (ps: seq<seq<nat>>)
    ensures |ps| == |xs| && forall k | 0 <= k < |xs| :: ps[k] == Path(t, xs[k].name) && ps[k] != []
  {
    seq(|xs|, k requires 0 <= k < |xs| => Path(t, xs[k].name))
  }

  /** The layout order: every path is walked in input order. */
  function OrderOf(t: Trie<nat>, xs: seq<Entry>): seq<nat> {
    Collect(Paths(t, xs), |xs|)
  }

  lemma {:induction false} LeafOnOwnPath(t: Trie<nat>, xs: seq<Entry>, j: nat)
    requires Built(t, xs) && j < |xs|
    ensures LeafId(j) in Path(t, xs[j].name)
  {
    var x := xs[j].name;
    assert x in NamesOf(xs);
    TargetOfName(t, x);
    var m := Terminal(Target(t, x).id, x, Target(t, x).info.value);
    assert m in multiset(TermsOf(xs));
    var i :| 0 <= i < |xs| && TermsOf(xs)[i] == m;
    assert i == j;
  }

  /** The path of a stored name contains no terminal node of a younger name. */
  lemma {:induction false} YoungerOffPath(t: Trie<nat>, xs: seq<Entry>, i: nat, j: nat)
    requires Built(t, xs) && j < i < |xs|
    ensures LeafId(i) !in Path(t, xs[j].name)
  {
    var x := xs[j].name;
    var m := TermsOf(xs)[i];
    assert x in NamesOf(xs);
    assert m in multiset(Preorder(t));
    RankOf(xs, i);
    RankOf(xs, j);
    if LeafId(i) in Path(t, x) {
      OlderOnPath(t, m, x, Ranks(xs));
    }
  }

  /** The nodes are laid out completely, the root first and none twice. */
  lemma {:induction false} OrderComplete(t: Trie<nat>, xs: seq<Entry>)
    requires Built(t, xs) && xs != []
    ensures NoDup(OrderOf(t, xs)) && [0] <= OrderOf(t, xs) && Elems(OrderOf(t, xs)) == Ids(t)
  {
    hide NoDup, Elems, Ids, Collect, Listed, Routed, Distinct;
    OrderInside(t, xs);
    OrderCovers(t, xs);
    StartsAtRoot(t, xs);
    CollectNoDup(Paths(t, xs), |xs|);
    CollectStart(Paths(t, xs), |xs|);
  }

  lemma StartsAtRoot(t: Trie<nat>, xs: seq<Entry>)
    requires Built(t, xs) && xs != []
    ensures Paths(t, xs)[0][0] == 0
  {
  }

  /** Nothing but nodes of the trie is laid out. */
  lemma {:induction false} OrderInside(t: Trie<nat>, xs: seq<Entry>)
    requires Distinct(t)
    ensures Elems(OrderOf(t, xs)) <= Ids(t)
  {
    hide Ids, Collect, Distinct;
    var ps := Paths(t, xs);
    forall k | 0 <= k < |xs|
      ensures Elems(ps[k]) <= Ids(t)
    {
      PathInside(t, xs[k].name);
    }
    CollectInside(ps, |xs|, Ids(t));
  }

  /** Every node is laid out, for it lies on the path of some name. */
  lemma {:induction false} OrderCovers(t: Trie<nat>, xs: seq<Entry>)
    requires Built(t, xs) && xs != []
    ensures Ids(t) <= Elems(OrderOf(t, xs))
  {
    hide Ids, Collect, Good, Names, Aged, Distinct;
    forall v | v in Ids(t)
      ensures v in Elems(OrderOf(t, xs))
    {
      var x := EveryNodeVisited(t, v);
      var i :| 0 <= i < |xs| && xs[i].name == x;
      CollectCovers(Paths(t, xs), |xs|, i);
      assert v in Elems(Paths(t, xs)[i]);
    }
  }

  /** Terminal nodes are laid out in input order. */
  lemma LeavesInOrder(t: Trie<nat>, xs: seq<Entry>, i: nat, j: nat, a: nat, b: nat)
    requires Built(t, xs) && i < j < |xs|
    requires a < |OrderOf(t, xs)| && OrderOf(t, xs)[a] == LeafId(i)
    requires b < |OrderOf(t, xs)| && OrderOf(t, xs)[b] == LeafId(j)
    ensures a < b
  {
    var ps := Paths(t, xs);
    LeafOnOwnPath(t, xs, i);
    assert LeafId(i) in Elems(ps[i]);
    forall k | 0 <= k <= i
      ensures LeafId(j) !in Elems(ps[k])
    {
      YoungerOffPath(t, xs, j, k);
    }
    CollectOrders(ps, i, LeafId(i), LeafId(j), a, b);
  }
}
