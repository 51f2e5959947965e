/** Offsets of a laid-out trie: right when each is the number of bytes before the node. */
module TrieLayout {
  import opened Bytes
  import opened TrieModel
  import opened TrieRecords
  import Uleb

  type Offsets = map<nat, nat>

  function At(off: Offsets, v: nat): nat {
    if v in off then off[v] else 0
  }

  function InfoSize(info: Option<Info>): nat {
    match info
    case None => 0
    case Some(i) => Uleb.Size(i.flags) + Uleb.Size(i.address)
  }

  /** The bytes of the edges: each string, its terminator, and the offset of the child. */
  function LinkBytes(ls: seq<Link>, off: Offsets): nat {
    if ls == [] then 0
    else
      var l := ls[|ls| - 1];
      LinkBytes(ls[..|ls| - 1], off) + |l.sub| + 1 + Uleb.Size(At(off, l.to))
  }

  function NodeSize(r: Rec, off: Offsets): (n: nat)
    ensures n >= 2
  {
    2 + InfoSize(r.info) + LinkBytes(r.links, off)
  }

  ghost predicate Covers(snap: Snapshot, order: seq<nat>) {
    forall k | 0 <= k < |order| :: order[k] in snap
  }

  /** The number of bytes written before position `k`. */
  ghost function Start(order: seq<nat>, snap: Snapshot, off: Offsets, k: nat): nat
    requires Covers(snap, order) && k <= |order|
  {
    if k == 0 then 0 else Start(order, snap, off, k - 1) + NodeSize(snap[order[k - 1]], off)
  }

  ghost predicate PlacedAt(order: seq<nat>, snap: Snapshot, off: Offsets, k: nat)
    requires Covers(snap, order) && k < |order|
  {
    At(off, order[k]) == Start(order, snap, off, k)
  }

  /** Every node's offset is the position its first byte is written at. */
  ghost predicate Fixed(order: seq<nat>, snap: Snapshot, off: Offsets)
    requires Covers(snap, order)
  {
    forall k | 0 <= k < |order| :: PlacedAt(order, snap, off, k)
  }

  lemma {:induction false} StartMonotone(order: seq<nat>, snap: Snapshot, off: Offsets, k: nat, n: nat)
    requires Covers(snap, order) && k <= n <= |order|
    ensures Start(order, snap, off, k) <= Start(order, snap, off, n)
    decreases n - k
  {
    if k < n { StartMonotone(order, snap, off, k, n - 1); }
  }

  /** Smaller offsets never take more bytes. */
  lemma {:induction false} StartBelow(order: seq<nat>, snap: Snapshot, a: Offsets, b: Offsets, k: nat)
    requires Covers(snap, order) && k <= |order| && Leq(a, b)
    ensures Start(order, snap, a, k) <= Start(order, snap, b, k)
  {
    if k > 0 {
      StartBelow(order, snap, a, b, k - 1);
      LinkBytesMonotone(snap[order[k - 1]].links, a, b);
    }
  }

  /** Later nodes start later. */
  lemma {:induction false} StartLater(order: seq<nat>, snap: Snapshot, off: Offsets, k: nat, n: nat)
    requires Covers(snap, order) && k < n <= |order|
    ensures Start(order, snap, off, k) < Start(order, snap, off, n)
  {
    StartMonotone(order, snap, off, k + 1, n);
  }

  // ----- one pass of the offset assignment

  /** The offsets and the running position after the first `k` nodes of a pass. */
  ghost function Pass(order: seq<nat>, snap: Snapshot, off: Offsets, k: nat): (Offsets, nat)
    requires Covers(snap, order) && k <= |order|
  {
    if k == 0 then (off, 0)
    else
      var (m, at) := Pass(order, snap, off, k - 1);
      (m[order[k - 1] := at], at + NodeSize(snap[order[k - 1]], m))
  }

  ghost predicate Leq(a: Offsets, b: Offsets) {
    forall v :: At(a, v) <= At(b, v)
  }

  lemma {:induction false} LinkBytesMonotone(ls: seq<Link>, a: Offsets, b: Offsets)
    requires Leq(a, b)
    ensures LinkBytes(ls, a) <= LinkBytes(ls, b)
  {
    if ls != [] {
      LinkBytesMonotone(ls[..|ls| - 1], a, b);
      var l := ls[|ls| - 1];
      Uleb.SizeMonotone(At(a, l.to), At(b, l.to));
    }
  }

  lemma UpdateMonotone(a: Offsets, b: Offsets, v: nat, x: nat, y: nat)
    requires Leq(a, b) && x <= y
    ensures Leq(a[v := x], b[v := y])
  {
    var a', b' := a[v := x], b[v := y];
    forall w
      ensures At(a', w) <= At(b', w)
    {
      assert At(a, w) <= At(b, w);
    }
  }

  lemma {:induction false} PassMonotone(order: seq<nat>, snap: Snapshot, a: Offsets, b: Offsets, k: nat)
    requires Covers(snap, order) && k <= |order| && Leq(a, b)
    ensures Leq(Pass(order, snap, a, k).0, Pass(order, snap, b, k).0)
    ensures Pass(order, snap, a, k).1 <= Pass(order, snap, b, k).1
  {
    if k > 0 {
      PassMonotone(order, snap, a, b, k - 1);
      var (ma, oa) := Pass(order, snap, a, k - 1);
      var (mb, ob) := Pass(order, snap, b, k - 1);
      LinkBytesMonotone(snap[order[k - 1]].links, ma, mb);
      UpdateMonotone(ma, mb, order[k - 1], oa, ob);
    }
  }

  ghost predicate Same(a: Offsets, b: Offsets) {
    forall v :: At(a, v) == At(b, v)
  }

  lemma {:induction false} LinkBytesCongruent(ls: seq<Link>, a: Offsets, b: Offsets)
    requires Same(a, b)
    ensures LinkBytes(ls, a) == LinkBytes(ls, b)
  {
    if ls != [] {
      LinkBytesCongruent(ls[..|ls| - 1], a, b);
    }
  }

  lemma SameUpdate(a: Offsets, b: Offsets, v: nat, x: nat)
    requires Same(a, b) && At(b, v) == x
    ensures Same(a[v := x], b)
  {
    var a' := a[v := x];
    forall w
      ensures At(a', w) == At(b, w)
    {
      assert At(a, w) == At(b, w);
    }
  }

  /** A right layout is left alone by a pass. */
  lemma {:induction false} PassOfFixed(order: seq<nat>, snap: Snapshot, off: Offsets, k: nat)
    requires Covers(snap, order) && k <= |order| && Fixed(order, snap, off)
    ensures Same(Pass(order, snap, off, k).0, off) && Pass(order, snap, off, k).1 == Start(order, snap, off, k)
  {
    if k > 0 {
      PassOfFixed(order, snap, off, k - 1);
      var (m, at) := Pass(order, snap, off, k - 1);
      LinkBytesCongruent(snap[order[k - 1]].links, m, off);
      assert PlacedAt(order, snap, off, k - 1);
      SameUpdate(m, off, order[k - 1], at);
    }
  }

  /** A pass leaves alone what it has not reached. */
  lemma {:induction false} PassUntouched(order: seq<nat>, snap: Snapshot, off: Offsets, k: nat, v: nat)
    requires Covers(snap, order) && k <= |order| && forall i | 0 <= i < k :: order[i] != v
    ensures At(Pass(order, snap, off, k).0, v) == At(off, v)
  {
    if k > 0 { PassUntouched(order, snap, off, k - 1, v); }
  }

  lemma {:induction false} PassLater(order: seq<nat>, snap: Snapshot, off: Offsets, k: nat, n: nat)
    requires Covers(snap, order) && NoDup(order) && k < n <= |order|
    ensures At(Pass(order, snap, off, n).0, order[k]) == Pass(order, snap, off, k).1
  {
    if n > k + 1 { PassLater(order, snap, off, k, n - 1); }
  }

  /** If a whole pass changes nothing, the layout is right. */
  lemma {:induction false} StableIsFixed(order: seq<nat>, snap: Snapshot, off: Offsets, k: nat)
    requires Covers(snap, order) && NoDup(order) && k <= |order|
    requires Same(Pass(order, snap, off, |order|).0, off)
    ensures Same(Pass(order, snap, off, k).0, off) && Pass(order, snap, off, k).1 == Start(order, snap, off, k)
    ensures k < |order| ==> PlacedAt(order, snap, off, k)
  {
    if k > 0 {
      StableIsFixed(order, snap, off, k - 1);
      LinkBytesCongruent(snap[order[k - 1]].links, Pass(order, snap, off, k - 1).0, off);
      forall v
        ensures At(Pass(order, snap, off, k).0, v) == At(off, v)
      {
      }
    }
    if k < |order| {
      PassLater(order, snap, off, k, |order|);
    }
  }

  // ----- the passes climb to the least right layout

  /** How far the offsets are below a bound, summed over the first `k` nodes. */
  ghost function Slack(order: seq<nat>, off: Offsets, bound: Offsets, k: nat): nat
    requires Leq(off, bound) && k <= |order|
  {
    if k == 0 then 0 else Slack(order, off, bound, k - 1) + At(bound, order[k - 1]) - At(off, order[k - 1])
  }

  lemma {:induction false} SlackDrops(order: seq<nat>, a: Offsets, b: Offsets, bound: Offsets, k: nat)
    requires Leq(a, b) && Leq(a, bound) && Leq(b, bound) && k <= |order|
    ensures Slack(order, b, bound, k) <= Slack(order, a, bound, k)
    ensures (exists i | 0 <= i < k :: At(a, order[i]) != At(b, order[i])) ==>
              Slack(order, b, bound, k) < Slack(order, a, bound, k)
  {
    if k > 0 {
      SlackDrops(order, a, b, bound, k - 1);
      assert At(a, order[k - 1]) <= At(b, order[k - 1]);
    }
  }

  /** The most bytes the first `k` nodes can take when every offset fits in 32 bits. */
  ghost function Most(order: seq<nat>, snap: Snapshot, k: nat): nat
    requires Covers(snap, order) && k <= |order|
  {
    if k == 0 then 0
    else Most(order, snap, k - 1) + 2 + InfoSize(snap[order[k - 1]].info) + MostLinks(snap[order[k - 1]].links)
  }

  function MostLinks(ls: seq<Link>): nat {
    if ls == [] then 0 else MostLinks(ls[..|ls| - 1]) + |ls[|ls| - 1].sub| + 6
  }

  lemma {:induction false} MostLinksBound(ls: seq<Link>, off: Offsets)
    requires forall v :: At(off, v) < TWO32
    ensures LinkBytes(ls, off) <= MostLinks(ls)
  {
    if ls != [] {
      MostLinksBound(ls[..|ls| - 1], off);
      Uleb.SizeOfWord(At(off, ls[|ls| - 1].to));
    }
  }

  lemma {:induction false} MostMonotone(order: seq<nat>, snap: Snapshot, k: nat, n: nat)
    requires Covers(snap, order) && k <= n <= |order|
    ensures Most(order, snap, k) <= Most(order, snap, n)
    decreases n - k
  {
    if k < n { MostMonotone(order, snap, k, n - 1); }
  }

  ghost function Cap(order: seq<nat>, limit: nat): Offsets {
    map v | v in order :: limit
  }

  lemma {:induction false} CappedPass(order: seq<nat>, snap: Snapshot, off: Offsets, k: nat)
    requires Covers(snap, order) && k <= |order| && Most(order, snap, |order|) < TWO32
    requires Leq(off, Cap(order, Most(order, snap, |order|)))
    ensures Leq(Pass(order, snap, off, k).0, Cap(order, Most(order, snap, |order|)))
    ensures Pass(order, snap, off, k).1 <= Most(order, snap, k)
  {
    if k > 0 {
      var limit := Most(order, snap, |order|);
      CappedPass(order, snap, off, k - 1);
      var (m, at) := Pass(order, snap, off, k - 1);
      CapBelow(order, limit, m);
      MostLinksBound(snap[order[k - 1]].links, m);
      MostMonotone(order, snap, k - 1, |order|);
      CapUpdate(order, limit, m, order[k - 1], at);
    }
  }

  lemma CapBelow(order: seq<nat>, limit: nat, m: Offsets)
    requires limit < TWO32 && Leq(m, Cap(order, limit))
    ensures forall v :: At(m, v) < TWO32
  {
    forall v
      ensures At(m, v) < TWO32
    {
      assert At(m, v) <= At(Cap(order, limit), v);
    }
  }

  lemma CapUpdate(order: seq<nat>, limit: nat, m: Offsets, v: nat, x: nat)
    requires Leq(m, Cap(order, limit)) && v in order && x <= limit
    ensures Leq(m[v := x], Cap(order, limit))
  {
    var m', cap := m[v := x], Cap(order, limit);
    forall w
      ensures At(m', w) <= At(cap, w)
    {
      assert At(m, w) <= At(cap, w);
    }
  }

  lemma {:induction false} ChangedSomewhere(order: seq<nat>, snap: Snapshot, off: Offsets)
    requires Covers(snap, order) && !Same(Pass(order, snap, off, |order|).0, off)
    ensures exists i | 0 <= i < |order| :: At(off, order[i]) != At(Pass(order, snap, off, |order|).0, order[i])
  {
    var b := Pass(order, snap, off, |order|).0;
    var v :| At(b, v) != At(off, v);
    if forall i | 0 <= i < |order| :: order[i] != v {
      PassUntouched(order, snap, off, |order|, v);
    }
  }

  /** A trie whose worst-case size fits in 32 bits has a right layout, and iterating passes from any start that only
      grows reaches one. */
  lemma {:induction false} LayoutExists(order: seq<nat>, snap: Snapshot, off: Offsets) returns (fix: Offsets)
    requires Covers(snap, order) && NoDup(order) && Most(order, snap, |order|) < TWO32
    requires Leq(off, Cap(order, Most(order, snap, |order|))) && Leq(off, Pass(order, snap, off, |order|).0)
    ensures Fixed(order, snap, fix) && Start(order, snap, fix, |order|) <= Most(order, snap, |order|)
    decreases Slack(order, off, Cap(order, Most(order, snap, |order|)), |order|)
  {
    var next := Pass(order, snap, off, |order|).0;
    CappedPass(order, snap, off, |order|);
    if Same(next, off) {
      fix := off;
      forall k | 0 <= k <= |order|
        ensures k < |order| ==> PlacedAt(order, snap, off, k)
        ensures Pass(order, snap, off, k).1 == Start(order, snap, off, k)
      {
        StableIsFixed(order, snap, off, k);
      }
    } else {
      ChangedSomewhere(order, snap, off);
      SlackDrops(order, off, next, Cap(order, Most(order, snap, |order|)), |order|);
      PassMonotone(order, snap, off, next, |order|);
      fix := LayoutExists(order, snap, next);
    }
  }

  /** A pass from below a right layout stays below it: the passes reach the least right layout. */
  lemma {:induction false} PassBelowFixed(order: seq<nat>, snap: Snapshot, off: Offsets, fix: Offsets, k: nat)
    requires Covers(snap, order) && Fixed(order, snap, fix) && Leq(off, fix) && k <= |order|
    ensures Leq(Pass(order, snap, off, k).0, fix) && Pass(order, snap, off, k).1 <= Start(order, snap, fix, k)
  {
    PassMonotone(order, snap, off, fix, k);
    PassOfFixed(order, snap, fix, k);
    var m := Pass(order, snap, off, k).0;
    forall v
      ensures At(m, v) <= At(fix, v)
    {
      assert At(Pass(order, snap, fix, k).0, v) == At(fix, v);
    }
  }
}
