/** A trie as a table of node records: the form in which the nodes lie in memory. */
module TrieRecords {
  import opened Bytes
  import opened TrieModel

  datatype Link = Link(sub: Str, to: nat)
  datatype Rec = Rec(cum: Str, info: Option<Info>, links: seq<Link>)
  type Snapshot = map<nat, Rec>

  ghost function LinksOf(kids: seq<Branch<nat>>): (ls: seq<Link>)
    ensures |ls| == |kids| && forall j | 0 <= j < |kids| :: ls[j] == Link(kids[j].sub, kids[j].child.id)
  {
    if kids == [] then [] else LinksOf(kids[..|kids| - 1]) + [Link(kids[|kids| - 1].sub, kids[|kids| - 1].child.id)]
  }

  ghost function RecOf(t: Trie<nat>): (r: Rec)
    ensures |r.links| == |t.kids|
  {
    Rec(t.cum, t.info, LinksOf(t.kids))
  }

  ghost predicate Denotes(snap: Snapshot, t: Trie<nat>)
    decreases t
  {
    && t.id in snap && snap[t.id] == RecOf(t)
    && forall j | 0 <= j < |t.kids| :: Denotes(snap, t.kids[j].child)
  }

  lemma {:induction false} DenotesAgrees(snap: Snapshot, snap': Snapshot, t: Trie<nat>)
    requires Denotes(snap, t) && forall i | i in Ids(t) && i in snap :: i in snap' && snap'[i] == snap[i]
    ensures Denotes(snap', t)
    decreases t
  {
    forall j | 0 <= j < |t.kids|
      ensures Denotes(snap', t.kids[j].child)
    {
      IdsOfKid(t, j);
      DenotesAgrees(snap, snap', t.kids[j].child);
    }
  }

  lemma {:induction false} DenotesRegistered(snap: Snapshot, t: Trie<nat>)
    requires Denotes(snap, t)
    ensures Ids(t) <= snap.Keys
    decreases t
  {
    forall i | i in Ids(t) ensures i in snap {
      if i != t.id {
        var j :| 0 <= j < |t.kids| && i in Ids(t.kids[j].child);
        DenotesRegistered(snap, t.kids[j].child);
      }
    }
  }

  lemma DenotesUpdated(snap: Snapshot, snap': Snapshot, t: Trie<nat>, j: nat, e: Branch<nat>)
    requires Denotes(snap, t) && Distinct(t) && j < |t.kids|
    requires forall i | i in Ids(t) && i != t.id && i !in Ids(t.kids[j].child) && i in snap ::
               i in snap' && snap'[i] == snap[i]
    requires t.id in snap' && snap'[t.id] == RecOf(t.(kids := t.kids[j := e])) && Denotes(snap', e.child)
    ensures Denotes(snap', t.(kids := t.kids[j := e]))
  {
    var t' := t.(kids := t.kids[j := e]);
    forall i | 0 <= i < |t'.kids|
      ensures Denotes(snap', t'.kids[i].child)
    {
      if i == j {
        assert t'.kids[i] == e;
      } else {
        assert t'.kids[i] == t.kids[i];
        IdsOfKid(t, i);
        DenotesAgrees(snap, snap', t.kids[i].child);
      }
    }
  }

  lemma {:induction false} DenotesAppended(snap: Snapshot, snap': Snapshot, t: Trie<nat>, e: Branch<nat>)
    requires Denotes(snap, t) && Distinct(t)
    requires forall i | i in Ids(t) && i != t.id && i in snap :: i in snap' && snap'[i] == snap[i]
    requires t.id in snap' && snap'[t.id] == RecOf(t.(kids := t.kids + [e])) && Denotes(snap', e.child)
    ensures Denotes(snap', t.(kids := t.kids + [e]))
  {
    var t' := t.(kids := t.kids + [e]);
    forall i | 0 <= i < |t'.kids|
      ensures Denotes(snap', t'.kids[i].child)
    {
      if i == |t.kids| {
        assert t'.kids[i] == e;
      } else {
        assert t'.kids[i] == t.kids[i];
        IdsOfKid(t, i);
        DenotesAgrees(snap, snap', t.kids[i].child);
      }
    }
  }

  /** One record rewritten and one added. */
  ghost predicate Rewired(snap: Snapshot, snap': Snapshot, me: nat, mine: Rec, extra: nat, its: Rec) {
    && snap'.Keys == snap.Keys + {me, extra} && me != extra
    && (forall v | v in snap && v != me && v != extra :: snap'[v] == snap[v])
    && snap'[me] == mine && snap'[extra] == its
  }

  lemma {:induction false} LeafDenoted(snap: Snapshot, snap': Snapshot, t: Trie<nat>, y: Str, info: Info, leaf: nat,
                                       mid: nat)
    requires Denotes(snap, t) && Distinct(t) && Hit(t.kids, Rest(t.cum, y)) == |t.kids| && leaf !in snap
    requires Rewired(snap, snap', t.id, snap[t.id].(links := snap[t.id].links + [Link(Rest(t.cum, y), leaf)]),
                     leaf, Rec(y, Some(info), []))
    ensures Denotes(snap', Insert(t, y, info, leaf, mid))
  {
    var e := Branch(Rest(t.cum, y), Leaf(leaf, y, info));
    assert RecOf(Leaf(leaf, y, info)) == Rec(y, Some(info), []);
    assert RecOf(t.(kids := t.kids + [e])).links == snap'[t.id].links;
    DenotesAppended(snap, snap', t, e);
  }

  /** A new child below one edge, with everything outside the old child unchanged but this node's own record. */
  lemma ChildReplaced(snap: Snapshot, snap': Snapshot, t: Trie<nat>, j: nat, e: Branch<nat>)
    requires Denotes(snap, t) && Distinct(t) && j < |t.kids|
    requires forall i | i in Ids(t) && i in snap && i != t.id && i !in Ids(t.kids[j].child) ::
               i in snap' && snap'[i] == snap[i]
    requires t.id in snap' && snap'[t.id] == snap[t.id].(links := snap[t.id].links[j := Link(e.sub, e.child.id)])
    requires Denotes(snap', e.child)
    ensures Denotes(snap', t.(kids := t.kids[j := e]))
  {
    assert RecOf(t.(kids := t.kids[j := e])).links == RecOf(t).links[j := Link(e.sub, e.child.id)];
    DenotesUpdated(snap, snap', t, j, e);
  }

  /** What a table says about the node at the top of a trie. */
  lemma {:induction false} AtNode(snap: Snapshot, t: Trie<nat>)
    requires Denotes(snap, t)
    ensures t.id in snap && snap[t.id] == RecOf(t) && t.id in Ids(t)
  {
  }

  /** And about one of its children. */
  lemma {:induction false} AtKid(snap: Snapshot, t: Trie<nat>, j: nat)
    requires Denotes(snap, t) && Distinct(t) && j < |t.kids|
    ensures var c := t.kids[j].child;
            && c.id in snap && snap[c.id] == RecOf(c) && Denotes(snap, c)
            && RecOf(t).links[j] == Link(t.kids[j].sub, c.id) && RecOf(c).cum == c.cum
            && Distinct(c) && Ids(c) <= Ids(t) && t.id !in Ids(c)
  {
    IdsOfKid(t, j);
  }

  lemma {:induction false} SpliceDenoted(snap: Snapshot, snap': Snapshot, t: Trie<nat>, j: nat, i: nat, mid: nat)
    requires Denotes(snap, t) && Distinct(t) && j < |t.kids| && i <= |t.kids[j].sub| && mid !in snap
    requires |snap[t.id].links| == |t.kids|
    requires Rewired(snap, snap', t.id, snap[t.id].(links := snap[t.id].links[j := Link(t.kids[j].sub[..i], mid)]),
                     mid, Rec(t.cum + t.kids[j].sub[..i], None, [Link(t.kids[j].sub[i..], t.kids[j].child.id)]))
    ensures Denotes(snap', Spliced(t, j, i, mid)) && Distinct(Spliced(t, j, i, mid))
  {
    hide Ids, Distinct, Denotes, RecOf;
    DenotesRegistered(snap, t);
    MiddleIds(t, j, i, mid);
    AtKid(snap, t, j);
    MiddleDenoted(snap', t, j, i, mid) by { DenotesAgrees(snap, snap', t.kids[j].child); }
    ChildReplaced(snap, snap', t, j, Branch(t.kids[j].sub[..i], Middle(t, j, i, mid)));
  }

  lemma {:induction false} MiddleDenoted(snap: Snapshot, t: Trie<nat>, j: nat, i: nat, mid: nat)
    requires j < |t.kids| && i <= |t.kids[j].sub| && Denotes(snap, t.kids[j].child) && mid in snap
    requires snap[mid] == Rec(t.cum + t.kids[j].sub[..i], None, [Link(t.kids[j].sub[i..], t.kids[j].child.id)])
    ensures Denotes(snap, Middle(t, j, i, mid))
  {
    assert RecOf(Middle(t, j, i, mid)).links == snap[mid].links;
  }

  // ----- the table of a trie

  /** The subtree at a node. */
  ghost function Sub(t: Trie<nat>, v: nat): (s: Trie<nat>)
    requires v in Ids(t)
    ensures s.id == v
    decreases t
  {
    if v == t.id then t
    else
      var j :| 0 <= j < |t.kids| && v in Ids(t.kids[j].child);
      Sub(t.kids[j].child, v)
  }

  ghost function Table(t: Trie<nat>): Snapshot {
    map v | v in Ids(t) :: RecOf(Sub(t, v))
  }

  lemma {:induction false} SubOfKid(t: Trie<nat>, j: nat, v: nat)
    requires Distinct(t) && j < |t.kids| && v in Ids(t.kids[j].child)
    ensures v in Ids(t) && Sub(t, v) == Sub(t.kids[j].child, v)
  {
    assert v != t.id;
    assert forall i | 0 <= i < |t.kids| && v in Ids(t.kids[i].child) :: i == j;
  }

  lemma {:induction false} TableDenotes(t: Trie<nat>, snap: Snapshot)
    requires Distinct(t) && forall v | v in Ids(t) :: v in snap && snap[v] == RecOf(Sub(t, v))
    ensures Denotes(snap, t)
    decreases t
  {
    forall j | 0 <= j < |t.kids|
      ensures Denotes(snap, t.kids[j].child)
    {
      forall v | v in Ids(t.kids[j].child)
        ensures v in snap && snap[v] == RecOf(Sub(t.kids[j].child, v))
      {
        SubOfKid(t, j, v);
      }
      TableDenotes(t.kids[j].child, snap);
    }
  }

  /** A table that denotes a trie is the table of the trie, as far as its nodes go. */
  lemma {:induction false} DenotedRecords(t: Trie<nat>, snap: Snapshot, v: nat)
    requires Denotes(snap, t) && v in Ids(t)
    ensures v in snap && snap[v] == RecOf(Sub(t, v))
    decreases t
  {
    if v != t.id {
      var j :| 0 <= j < |t.kids| && v in Ids(t.kids[j].child) && Sub(t, v) == Sub(t.kids[j].child, v);
      DenotedRecords(t.kids[j].child, snap, v);
    }
  }
}
