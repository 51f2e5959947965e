/** makeTrie: build the nodes, order them, settle the offsets, write the bytes. */
module TrieWriter {
  import opened Bytes
  import opened TrieModel
  import opened TrieRecords
  import opened TrieBuild
  import opened TrieOrder
  import opened TrieLayout
  import opened TrieStream
  import opened TrieNode

  // ----- tables that agree on the nodes of a layout describe the same layout

  ghost predicate Agree(order: seq<nat>, a: Snapshot, b: Snapshot) {
    Covers(a, order) && Covers(b, order) && forall k | 0 <= k < |order| :: a[order[k]] == b[order[k]]
  }

  lemma {:induction false} StreamAgrees(order: seq<nat>, a: Snapshot, b: Snapshot, off: Offsets, k: nat)
    requires Agree(order, a, b) && k <= |order|
    ensures Start(order, a, off, k) == Start(order, b, off, k) && Stream(order, a, off, k) == Stream(order, b, off, k)
  {
    if k > 0 { StreamAgrees(order, a, b, off, k - 1); }
  }

  lemma FixedAgrees(order: seq<nat>, a: Snapshot, b: Snapshot, off: Offsets)
    requires Agree(order, a, b) && Fixed(order, a, off)
    ensures Fixed(order, b, off)
  {
    forall k | 0 <= k < |order|
      ensures PlacedAt(order, b, off, k)
    {
      assert PlacedAt(order, a, off, k);
      StreamAgrees(order, a, b, off, k);
    }
  }

  /** The order lists registered nodes; the vector of node pointers follows it. */
  ghost predicate Listing(nodes: seq<Node>, order: seq<nat>, reg: Register, snap: Snapshot)
    reads reg.Values`fChildren, reg.Values`fAddress, reg.Values`fFlags, reg.Values`fHaveExportInfo
  {
    && Shaped(reg, snap) && Covers(snap, order) && NoDup(order) && |nodes| == |order|
    && forall k | 0 <= k < |order| :: order[k] in reg && nodes[k] == reg[order[k]]
  }

  ghost predicate Changed(order: seq<nat>, a: Offsets, b: Offsets, k: nat)
    requires k <= |order|
  {
    exists i | 0 <= i < k :: At(a, order[i]) != At(b, order[i])
  }

  lemma ChangedStep(order: seq<nat>, a: Offsets, m: Offsets, k: nat, at: nat)
    requires k < |order| && NoDup(order) && At(m, order[k]) == At(a, order[k])
    ensures Changed(order, a, m[order[k] := at], k + 1) <==> Changed(order, a, m, k) || At(a, order[k]) != at
  {
    var m' := m[order[k] := at];
    assert forall i | 0 <= i < k :: At(m', order[i]) == At(m, order[i]);
    assert At(m', order[k]) == at;
  }

  /** Below a right layout that fits in 32 bits, the next position fits too. */
  lemma NextFits(order: seq<nat>, snap: Snapshot, off: Offsets, fix: Offsets, k: nat)
    requires Covers(snap, order) && k < |order|
    requires Fixed(order, snap, fix) && Start(order, snap, fix, |order|) < TWO32 && Leq(off, fix)
    ensures Pass(order, snap, off, k + 1).1 < TWO32
  {
    hide *;
    PassBelowFixed(order, snap, off, fix, k + 1);
    StartMonotone(order, snap, fix, k + 1, |order|);
  }

  lemma {:induction false} NotReached(order: seq<nat>, snap: Snapshot, off: Offsets, k: nat)
    requires Covers(snap, order) && NoDup(order) && k < |order|
    ensures At(Pass(order, snap, off, k).0, order[k]) == At(off, order[k])
  {
    hide Pass, At, Covers;
    PassUntouched(order, snap, off, k, order[k]);
  }

  /** One round of the do-while loop of makeTrie. */
  method OnePass(nodes: seq<Node>, ghost order: seq<nat>, ghost reg: Register, ghost snap: Snapshot, ghost fix: Offsets)
    returns (more: bool)
    requires Listing(nodes, order, reg, snap)
    requires Fixed(order, snap, fix) && Start(order, snap, fix, |order|) < TWO32 && Leq(OffsetsOf(reg), fix)
    modifies reg.Values`fTrieOffset
    ensures OffsetsOf(reg) == Pass(order, snap, old(OffsetsOf(reg)), |order|).0
    ensures more <==> Changed(order, old(OffsetsOf(reg)), OffsetsOf(reg), |order|)
  {
    hide Start, Fixed, Leq, NoDup, Changed, Shaped, Covers;
    ghost var off := OffsetsOf(reg);
    var offset: u32 := 0;
    more := false;
    NothingChanged(order, off);
    var k := 0;
    while k < |nodes|
      invariant k <= |nodes|
      invariant OffsetsOf(reg) == Pass(order, snap, off, k).0 && offset == Pass(order, snap, off, k).1
      invariant more <==> Changed(order, off, OffsetsOf(reg), k)
    {
      var changed, next := OneNode(nodes, order, reg, snap, off, fix, k, offset);
      if changed {
        more := true;
      }
      offset := next;
      k := k + 1;
    }
  }

  /** One step of the round. */
  method OneNode(nodes: seq<Node>, ghost order: seq<nat>, ghost reg: Register, ghost snap: Snapshot, ghost off: Offsets,
                 ghost fix: Offsets, k: nat, offset: u32)
    returns (changed: bool, next: u32)
    requires Listing(nodes, order, reg, snap) && k < |nodes|
    requires Fixed(order, snap, fix) && Start(order, snap, fix, |order|) < TWO32 && Leq(off, fix)
    requires OffsetsOf(reg) == Pass(order, snap, off, k).0 && offset == Pass(order, snap, off, k).1
    modifies reg.Values`fTrieOffset
    ensures OffsetsOf(reg) == Pass(order, snap, off, k + 1).0 && next == Pass(order, snap, off, k + 1).1
    ensures Changed(order, off, OffsetsOf(reg), k + 1) <==> Changed(order, off, old(OffsetsOf(reg)), k) || changed
  {
    hide NodeSize, Start, Fixed, Leq, NoDup, Changed, At, EdgesMatch;
    ghost var m := OffsetsOf(reg);
    NextFits(order, snap, off, fix, k);
    NotReached(order, snap, off, k);
    ChangedStep(order, off, m, k, offset);
    OffsetAt(reg, order[k]);
    changed, next := nodes[k].UpdateOffset(offset, snap[order[k]], reg);
    assert OffsetsOf(reg) == m[order[k] := offset as nat];
  }

  lemma OffsetAt(reg: Register, v: nat)
    requires v in reg
    ensures At(OffsetsOf(reg), v) == reg[v].fTrieOffset
  {
  }

  lemma NothingChanged(order: seq<nat>, off: Offsets)
    ensures !Changed(order, off, off, 0)
  {
  }

  /** No right layout has a smaller offset anywhere. */
  ghost predicate Least(order: seq<nat>, snap: Snapshot, off: Offsets)
    requires Covers(snap, order)
  {
    forall fix: Offsets | Fixed(order, snap, fix) :: Leq(off, fix)
  }

  lemma {:induction false} PassKeepsLeast(order: seq<nat>, snap: Snapshot, off: Offsets)
    requires Covers(snap, order) && Least(order, snap, off)
    ensures Least(order, snap, Pass(order, snap, off, |order|).0)
  {
    forall fix: Offsets | Fixed(order, snap, fix)
      ensures Leq(Pass(order, snap, off, |order|).0, fix)
    {
      PassBelowFixed(order, snap, off, fix, |order|);
    }
  }

  lemma {:induction false} UnchangedIsFixed(order: seq<nat>, snap: Snapshot, off: Offsets)
    requires Covers(snap, order) && NoDup(order) && !Changed(order, off, Pass(order, snap, off, |order|).0, |order|)
    ensures Fixed(order, snap, off) && Same(Pass(order, snap, off, |order|).0, off)
    ensures Pass(order, snap, off, |order|).1 == Start(order, snap, off, |order|)
  {
    hide NodeSize, Start, At, NoDup;
    if !Same(Pass(order, snap, off, |order|).0, off) {
      ChangedSomewhere(order, snap, off);
    }
    forall k | 0 <= k < |order|
      ensures PlacedAt(order, snap, off, k)
    {
      StableIsFixed(order, snap, off, k);
    }
    StableIsFixed(order, snap, off, |order|);
  }

  /** What one more pass from `off` is worth. */
  lemma {:induction false} PassClimbs(order: seq<nat>, snap: Snapshot, off: Offsets, fix: Offsets)
    requires Covers(snap, order) && Fixed(order, snap, fix) && Leq(off, fix)
    requires Leq(off, Pass(order, snap, off, |order|).0)
    ensures var next := Pass(order, snap, off, |order|).0;
            && Leq(next, fix) && Leq(next, Pass(order, snap, next, |order|).0)
            && (Changed(order, off, next, |order|) ==>
                  Slack(order, next, fix, |order|) < Slack(order, off, fix, |order|))
  {
    hide Pass, At, Fixed;
    var next := Pass(order, snap, off, |order|).0;
    PassBelowFixed(order, snap, off, fix, |order|);
    PassMonotone(order, snap, off, next, |order|);
    SlackDrops(order, off, next, fix, |order|);
  }

  /** The do-while loop of makeTrie: it stops, at the least layout in which every node lies at its offset. */
  method AssignOffsets(nodes: seq<Node>, ghost order: seq<nat>, ghost reg: Register, ghost snap: Snapshot,
                       ghost fix: Offsets)
    requires Listing(nodes, order, reg, snap)
    requires forall i | i in reg :: reg[i].fTrieOffset == 0
    requires Fixed(order, snap, fix) && Start(order, snap, fix, |order|) < TWO32
    modifies reg.Values`fTrieOffset
    ensures Fixed(order, snap, OffsetsOf(reg)) && Least(order, snap, OffsetsOf(reg))
    ensures Start(order, snap, OffsetsOf(reg), |order|) < TWO32
  {
    hide NodeSize, Start, Pass, At, Fixed, Leq, Least, Changed, Slack;
    ZerosLeast(order, snap, OffsetsOf(reg), fix);
    while true
      invariant Leq(OffsetsOf(reg), fix) && Leq(OffsetsOf(reg), Pass(order, snap, OffsetsOf(reg), |order|).0)
      invariant Least(order, snap, OffsetsOf(reg))
      decreases Slack(order, OffsetsOf(reg), fix, |order|)
    {
      ghost var off := OffsetsOf(reg);
      PassKeepsLeast(order, snap, off);
      PassClimbs(order, snap, off, fix);
      var more := OnePass(nodes, order, reg, snap, fix);
      if !more {
        UnchangedLayout(order, snap, off, OffsetsOf(reg), fix);
        break;
      }
    }
  }

  lemma {:induction false} ZerosLeast(order: seq<nat>, snap: Snapshot, off: Offsets, fix: Offsets)
    requires Covers(snap, order) && forall v | v in off :: off[v] == 0
    ensures Leq(off, fix) && Leq(off, Pass(order, snap, off, |order|).0) && Least(order, snap, off)
  {
    hide Pass;
    assert forall v :: At(off, v) == 0;
  }

  lemma {:induction false} UnchangedLayout(order: seq<nat>, snap: Snapshot, off: Offsets, next: Offsets, fix: Offsets)
    requires Covers(snap, order) && NoDup(order) && Leq(off, fix)
    requires next == Pass(order, snap, off, |order|).0 && !Changed(order, off, next, |order|)
    requires Fixed(order, snap, fix) && Start(order, snap, fix, |order|) < TWO32
    ensures Fixed(order, snap, next) && Start(order, snap, next, |order|) < TWO32
  {
    hide NodeSize, At, Start, Changed, NoDup, Leq;
    UnchangedIsFixed(order, snap, off);
    PassBelowFixed(order, snap, off, fix, |order|);
    forall k | 0 <= k <= |order|
      ensures Start(order, snap, next, k) == Start(order, snap, off, k)
    {
      StartCongruent(order, snap, next, off, k);
    }
    forall k | 0 <= k < |order|
      ensures PlacedAt(order, snap, next, k)
    {
      assert PlacedAt(order, snap, off, k);
      assert At(next, order[k]) == At(off, order[k]);
    }
  }

  lemma {:induction false} StartCongruent(order: seq<nat>, snap: Snapshot, a: Offsets, b: Offsets, k: nat)
    requires Covers(snap, order) && Same(a, b) && k <= |order|
    ensures Start(order, snap, a, k) == Start(order, snap, b, k)
  {
    if k > 0 {
      StartCongruent(order, snap, a, b, k - 1);
      LinkBytesCongruent(snap[order[k - 1]].links, a, b);
    }
  }
}
