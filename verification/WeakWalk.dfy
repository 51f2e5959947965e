/** The walk over the symbol streams: iterators in the order of their names, of which only the lowest one ever moves. */
module WeakWalk {
  import opened Bytes
  import opened WeakSymbols

  // ----- where the iterators stand

  /** An iterator is before its stream, on the symbol it read last, or done and on the sentinel at the end. */
  ghost predicate Standing(stream: seq<Entry>, end: Name, it: CoalIterator) {
    && it.next <= |stream|
    && (it.done ==> it.next == |stream| && it.name == end)
    && (!it.done && it.next == 0 ==> it.name == START)
    && (!it.done && it.next > 0 ==> it.name == stream[it.next - 1].name && it.weak == stream[it.next - 1].weak)
  }

  ghost predicate AllStanding(images: seq<Image>, end: Name, its: seq<CoalIterator>) {
    |its| == |images| && forall k | 0 <= k < |its| :: Standing(images[k].stream, end, its[k])
  }

  /** The order lists every iterator once. */
  ghost predicate Listed(its: seq<CoalIterator>, order: seq<nat>) {
    && |order| == |its|
    && (forall p | 0 <= p < |order| :: order[p] < |its|)
    && (forall k | 0 <= k < |its| :: k in order)
    && forall p, q | 0 <= p < q < |order| :: order[p] != order[q]
  }

  /** The names ascend from this position on. */
  ghost predicate Ascending(its: seq<CoalIterator>, order: seq<nat>, from: nat) {
    && (forall p | 0 <= p < |order| :: order[p] < |its|)
    && forall p, q | from <= p < q < |order| :: its[order[p]].name <= its[order[q]].name
  }

  // ----- what the flags and the log of processed names mean

  /** An image other than this one holds the name too. */
  ghost predicate HeldElsewhere(images: seq<Image>, k: nat, name: Name) {
    exists l :: 0 <= l < |images| && l != k && Holds(images[l], name)
  }

  /** Two images hold the name. */
  ghost predicate Shared(images: seq<Image>, name: Name) {
    exists k: nat :: k < |images| && Holds(images[k], name) && HeldElsewhere(images, k, name)
  }

  /** Two images hold the name and some holder defines it. */
  ghost predicate Coalesces(images: seq<Image>, name: Name) {
    Shared(images, name) && Pick(Holders(images, name), images, name) != 0
  }

  /** A raised flag tells of another holder; processed names have no flags left. */
  ghost predicate FlagOk(images: seq<Image>, it: CoalIterator, k: nat, processed: seq<Name>) {
    it.matches && !it.done ==> it.name != START && it.name !in processed && HeldElsewhere(images, k, it.name)
  }

  ghost predicate FlagsOk(images: seq<Image>, its: seq<CoalIterator>, processed: seq<Name>) {
    forall k | 0 <= k < |its| :: FlagOk(images, its[k], k, processed)
  }

  /** Of two neighbours on the same unprocessed symbol the first is flagged. */
  ghost predicate Pair(end: Name, a: CoalIterator, b: CoalIterator, processed: seq<Name>) {
    a.name == b.name && START < a.name < end && a.name !in processed ==> a.matches
  }

  ghost predicate PairsFlagged(end: Name, its: seq<CoalIterator>, order: seq<nat>, from: nat, processed: seq<Name>)
    requires forall p | 0 <= p < |order| :: order[p] < |its|
  {
    forall p, q | from <= p < |order| && q == p + 1 && q < |order| :: Pair(end, its[order[p]], its[order[q]], processed)
  }

  /** No holder has gone past a name that is still to be processed. */
  ghost predicate NotPassed(images: seq<Image>, its: seq<CoalIterator>, processed: seq<Name>)
    requires |its| == |images|
  {
    forall k: nat, name | k < |its| && Coalesces(images, name) && name !in processed && Holds(images[k], name) ::
      its[k].name <= name
  }

  /** The processed names ascend, and none is above the lowest iterator. */
  ghost predicate LogOk(processed: seq<Name>, low: Name) {
    && (forall i, j | 0 <= i < j < |processed| :: processed[i] < processed[j])
    && forall i | 0 <= i < |processed| :: processed[i] <= low
  }

  ghost predicate Walking(images: seq<Image>, end: Name, its: seq<CoalIterator>, order: seq<nat>, processed: seq<Name>)
  {
    && GoodImages(images, end) && |its| > 0
    && AllStanding(images, end, its) && Listed(its, order) && Ascending(its, order, 0)
    && FlagsOk(images, its, processed) && PairsFlagged(end, its, order, 0, processed)
       && NotPassed(images, its, processed)
    && LogOk(processed, its[order[0]].name)
  }

  /** After a move of the lowest iterator and before the others have been put in order again. */
  ghost predicate LowestMoved(images: seq<Image>, end: Name, its: seq<CoalIterator>, order: seq<nat>,
                              processed: seq<Name>, low: Name)
  {
    && GoodImages(images, end) && |its| > 0
    && AllStanding(images, end, its) && Listed(its, order) && Ascending(its, order, 1)
    && FlagsOk(images, its, processed) && PairsFlagged(end, its, order, 1, processed)
       && NotPassed(images, its, processed)
    && LogOk(processed, low) && low < its[order[0]].name
    && forall k | 0 <= k < |its| :: low <= its[k].name
  }

  /** The lowest name is processed, or there is nothing to do for it: the lowest iterator may move on. */
  ghost predicate Settled(images: seq<Image>, its: seq<CoalIterator>, order: seq<nat>, processed: seq<Name>) {
    && |order| > 0 && order[0] < |its|
    && (its[order[0]].name in processed || !Coalesces(images, its[order[0]].name))
  }

  // ----- one increment

  /** The effect of incrementing an iterator that is not done. */
  function Next(stream: seq<Entry>, end: Name, it: CoalIterator): CoalIterator
    requires it.next <= |stream|
  {
    if it.next < |stream| then CoalIterator(stream[it.next].name, stream[it.next].weak, false, false, it.next + 1)
    else it.(name := end, done := true)
  }

  /** What the iterator passes over is at most the name it leaves. */
  lemma NextSkipsNothing(image: Image, end: Name, it: CoalIterator, name: Name)
    requires GoodStream(image.stream, end) && Standing(image.stream, end, it) && !it.done && START < end
    ensures Standing(image.stream, end, Next(image.stream, end, it)) && it.name < Next(image.stream, end, it).name
    ensures Holds(image, name) && it.name < name ==> Next(image.stream, end, it).name <= name
  {
    if Holds(image, name) && it.name < name {
      var j :| 0 <= j < |image.stream| && image.stream[j].name == name;
      assert j >= it.next;
    }
  }

  lemma MoveLowest(images: seq<Image>, end: Name, its: seq<CoalIterator>, order: seq<nat>, processed: seq<Name>)
    requires Walking(images, end, its, order, processed) && !its[order[0]].done
    requires Settled(images, its, order, processed)
    ensures var k := order[0];
      LowestMoved(images, end, its[k := Next(images[k].stream, end, its[k])], order, processed, its[k].name)
  {
    hide Coalesces, HeldElsewhere, Holds, GoodStream;
    var k, low := order[0], its[order[0]].name;
    assert GoodStream(images[k].stream, end) && Standing(images[k].stream, end, its[k]);
    NextSkipsNothing(images[k], end, its[k], 0);
    var after := its[k := Next(images[k].stream, end, its[k])];
    forall l | 0 <= l < |its|
      ensures low <= after[l].name
    {
      assert l in order;
    }
    forall l: nat, name | l < |its| && Coalesces(images, name) && name !in processed && Holds(images[l], name)
      ensures after[l].name <= name
    {
      if l == k {
        NextSkipsNothing(images[k], end, its[k], name);
      }
    }
    assert FlagOk(images, after[k], k, processed) && forall l | 0 <= l < |its| && l != k ::
             FlagOk(images, after[l], l, processed);
    hide Next;
    forall p, q | 1 <= p < |order| && q == p + 1 && q < |order|
      ensures Pair(end, after[order[p]], after[order[q]], processed)
    {
      assert Pair(end, its[order[p]], its[order[q]], processed);
    }
  }

  // ----- putting the iterators in order again

  /** The first entry moved behind the p entries that followed it. */
  ghost function Shift(order: seq<nat>, p: nat): (r: seq<nat>)
    requires p < |order|
    ensures |r| == |order|
    ensures forall q | 0 <= q < |order| :: r[q] == if q < p then order[q + 1] else if q == p then order[0] else order[q]
  {
    order[1..p + 1] + [order[0]] + order[p + 1..]
  }

  /** The same iterators, but for flags raised on those that share this name with another. */
  ghost predicate Raised(before: seq<CoalIterator>, after: seq<CoalIterator>, name: Name) {
    && |after| == |before|
    && (forall k | 0 <= k < |before| :: after[k] == before[k].(matches := after[k].matches))
    && forall k | 0 <= k < |before| && after[k].matches != before[k].matches ::
         after[k].matches && before[k].name == name && exists l :: 0 <= l < |before| && l != k && before[l].name == name
  }

  /** The moved iterator has found its place, and is flagged if the next one is on the same name. */
  ghost predicate Resorted(before: seq<CoalIterator>, after: seq<CoalIterator>, order: seq<nat>, sorted: seq<nat>,
                           p: nat)
  {
    && p < |order| && (forall q | 0 <= q < |order| :: order[q] < |before|) && sorted == Shift(order, p)
    && (forall q | 1 <= q <= p :: before[order[q]].name < before[order[0]].name)
    && (forall q | p < q < |order| :: before[order[0]].name <= before[order[q]].name)
    && Raised(before, after, before[order[0]].name)
    && (p + 1 < |order| && before[order[p + 1]].name == before[order[0]].name ==> after[order[0]].matches)
  }

  lemma RaiseOne(before: seq<CoalIterator>, after: seq<CoalIterator>, name: Name, k: nat, l: nat)
    requires Raised(before, after, name) && k < |before| && l < |before| && k != l
    requires before[k].name == name && before[l].name == name
    ensures Raised(before, after[k := after[k].(matches := true)], name)
  {
  }

  /** How far the pass has come: the moved iterator is at p, and those between it and i are on its name. */
  ghost predicate Resorting(before: seq<CoalIterator>, after: seq<CoalIterator>, order: seq<nat>, sorted: seq<nat>,
                            p: nat, i: nat)
  {
    && p < i <= |order| && (forall q | 0 <= q < |order| :: order[q] < |before|) && sorted == Shift(order, p)
    && (forall q | 1 <= q <= p :: before[order[q]].name < before[order[0]].name)
    && (forall q | p < q < i :: before[order[q]].name == before[order[0]].name)
    && Raised(before, after, before[order[0]].name)
    && (p + 1 < i ==> after[order[0]].matches)
  }

  /** What the pass compares next. */
  lemma Neighbours(before: seq<CoalIterator>, after: seq<CoalIterator>, order: seq<nat>, sorted: seq<nat>, p: nat,
                   i: nat)
    requires Resorting(before, after, order, sorted, p, i) && i < |order| && Ascending(before, order, 1)
    ensures |after| == |before| && |sorted| == |order| && sorted[i - 1] < |before| && sorted[i] < |before|
    ensures sorted[i] == order[i] && after[sorted[i]].name == before[order[i]].name
    ensures after[sorted[i - 1]].name == before[order[0]].name
    ensures p == i - 1 || before[order[0]].name <= before[order[i]].name
    ensures p == i - 1 ==> sorted[i - 1] == order[0]
  {
    assert p < i - 1 ==> before[order[i - 1]].name == before[order[0]].name;
  }

  lemma StepEqual(before: seq<CoalIterator>, after: seq<CoalIterator>, order: seq<nat>, sorted: seq<nat>, p: nat,
                  i: nat)
    requires Resorting(before, after, order, sorted, p, i) && i < |order|
    requires Listed(before, order) && Ascending(before, order, 1)
    requires before[order[i]].name == before[order[0]].name
    ensures sorted[i - 1] < |after| && var a := sorted[i - 1];
      Resorting(before, after[a := after[a].(matches := true)], order, sorted, p, i + 1)
  {
    Neighbours(before, after, order, sorted, p, i);
    assert |after| == |before| && after[sorted[i - 1]].name == before[sorted[i - 1]].name;
    hide Raised;
    RaiseOne(before, after, before[order[0]].name, sorted[i - 1], order[i]);
  }

  lemma StepSwap(before: seq<CoalIterator>, after: seq<CoalIterator>, order: seq<nat>, sorted: seq<nat>, p: nat, i: nat)
    requires Resorting(before, after, order, sorted, p, i) && i < |order| && Ascending(before, order, 1)
    requires before[order[i]].name < before[order[0]].name
    ensures p == i - 1 && |sorted| == |order|
    ensures Resorting(before, after, order, sorted[p := order[i]][i := order[0]], i, i + 1)
  {
    hide Raised;
    Neighbours(before, after, order, sorted, p, i);
    assert Shift(order, p)[p := order[p + 1]][p + 1 := order[0]] == Shift(order, p + 1);
  }

  lemma StepStop(before: seq<CoalIterator>, after: seq<CoalIterator>, order: seq<nat>, sorted: seq<nat>, p: nat, i: nat)
    requires Resorting(before, after, order, sorted, p, i) && Ascending(before, order, 1)
    requires i < |order| ==> before[order[0]].name < before[order[i]].name
    ensures Resorted(before, after, order, sorted, p)
  {
  }

  /** One bubble pass, which stops at the first iterator that is above the one before it. */
  method Resort(its: array<CoalIterator>, order: array<nat>) returns (ghost p: nat)
    requires Listed(its[..], order[..]) && Ascending(its[..], order[..], 1) && its.Length > 0
    modifies its, order
    ensures Resorted(old(its[..]), its[..], old(order[..]), order[..], p)
  {
    ghost var was, list := its[..], order[..];
    p := 0;
    var i := 1;
    assert Resorting(was, its[..], list, order[..], p, i);
    hide Resorting, Resorted, Shift, Raised;
    while i < order.Length
      invariant i <= order.Length && Resorting(was, its[..], list, order[..], p, i)
    {
      Neighbours(was, its[..], list, order[..], p, i);
      if its[order[i - 1]].name == its[order[i]].name {
        StepEqual(was, its[..], list, order[..], p, i);
        its[order[i - 1]] := its[order[i - 1]].(matches := true);
      } else if its[order[i - 1]].name > its[order[i]].name {
        StepSwap(was, its[..], list, order[..], p, i);
        order[i - 1], order[i] := order[i], order[i - 1];
        p := i;
      } else {
        break;
      }
      i := i + 1;
    }
    StepStop(was, its[..], list, order[..], p, i);
  }

  lemma ShiftListed(its: seq<CoalIterator>, after: seq<CoalIterator>, order: seq<nat>, p: nat)
    requires Listed(its, order) && p < |order| && |after| == |its|
    ensures Listed(after, Shift(order, p))
  {
    forall k: nat | k < |its|
      ensures k in Shift(order, p)
    {
      assert k in order;
      var q: nat :| q < |order| && order[q] == k;
      assert Shift(order, p)[if q == 0 then p else if q <= p then q - 1 else q] == k;
    }
  }

  lemma PlaceStanding(images: seq<Image>, end: Name, before: seq<CoalIterator>, after: seq<CoalIterator>, name: Name)
    requires AllStanding(images, end, before) && Raised(before, after, name)
    ensures AllStanding(images, end, after)
  {
    forall k | 0 <= k < |after|
      ensures Standing(images[k].stream, end, after[k])
    {
      assert Standing(images[k].stream, end, before[k]) && after[k] == before[k].(matches := after[k].matches);
    }
  }

  /** Only the sentinel at the end is as high as that. */
  lemma NameBelowEnd(image: Image, end: Name, it: CoalIterator)
    requires GoodStream(image.stream, end) && Standing(image.stream, end, it) && !it.done && START < end
    ensures it.name < end
  {
    assert it.next > 0 ==> image.stream[it.next - 1].name < end;
  }

  lemma HeldInside(image: Image, end: Name, name: Name)
    requires GoodStream(image.stream, end) && Holds(image, name)
    ensures START < name < end
  {
  }

  /** A flag is only raised next to another holder of the name. */
  lemma PlaceFlags(images: seq<Image>, end: Name, before: seq<CoalIterator>, after: seq<CoalIterator>, name: Name,
                   processed: seq<Name>)
    requires GoodImages(images, end) && AllStanding(images, end, before) && FlagsOk(images, before, processed)
    requires Raised(before, after, name) && name !in processed && START < name
    ensures FlagsOk(images, after, processed)
  {
    hide GoodStream;
    forall k | 0 <= k < |after|
      ensures FlagOk(images, after[k], k, processed)
    {
      assert FlagOk(images, before[k], k, processed) && after[k] == before[k].(matches := after[k].matches);
      if after[k].matches != before[k].matches && !after[k].done {
        var l: nat :| l < |before| && l != k && before[l].name == name;
        assert Standing(images[l].stream, end, before[l]) && Standing(images[k].stream, end, before[k]);
        NameBelowEnd(images[k], end, before[k]);
        assert images[l].stream[before[l].next - 1].name == name;
        assert Holds(images[l], name);
      }
    }
  }

  /** Neighbours are old neighbours, or the moved iterator and what comes right before or right after it. */
  lemma PlacePairs(end: Name, before: seq<CoalIterator>, after: seq<CoalIterator>, order: seq<nat>, sorted: seq<nat>,
                   p: nat, processed: seq<Name>)
    requires Resorted(before, after, order, sorted, p) && PairsFlagged(end, before, order, 1, processed)
    ensures (forall q | 0 <= q < |sorted| :: sorted[q] < |after|) && PairsFlagged(end, after, sorted, 0, processed)
  {
    assert |after| == |before| && forall k | 0 <= k < |before| ::
             after[k].name == before[k].name && (before[k].matches ==> after[k].matches);
    hide Raised;
    forall q, r | 0 <= q < |sorted| && r == q + 1 && r < |sorted|
      ensures Pair(end, after[sorted[q]], after[sorted[r]], processed)
    {
      var oq := if q < p then q + 1 else if q == p then 0 else q;
      var or := if r < p then r + 1 else if r == p then 0 else r;
      assert sorted[q] == order[oq] && sorted[r] == order[or];
      assert oq >= 1 && or >= 1 ==> or == oq + 1 || (q < p && oq == q + 1);
      if oq >= 1 && or == oq + 1 {
        assert Pair(end, before[order[oq]], before[order[or]], processed);
      }
    }
  }

  lemma PlaceAscending(before: seq<CoalIterator>, after: seq<CoalIterator>, order: seq<nat>, sorted: seq<nat>, p: nat)
    requires Resorted(before, after, order, sorted, p) && Ascending(before, order, 1)
    ensures Ascending(after, sorted, 0)
  {
    assert |after| == |before| && forall k | 0 <= k < |before| :: after[k].name == before[k].name;
    hide Raised;
  }

  lemma PlaceMoved(images: seq<Image>, end: Name, before: seq<CoalIterator>, after: seq<CoalIterator>, order: seq<nat>,
                   sorted: seq<nat>, p: nat,
                   processed: seq<Name>, low: Name)
    requires LowestMoved(images, end, before, order, processed, low) && Resorted(before, after, order, sorted, p)
    ensures Walking(images, end, after, sorted, processed)
  {
    assert |images| == |before|;
    hide Coalesces, GoodStream, AllStanding, FlagsOk, Holds;
    var name := before[order[0]].name;
    ShiftListed(before, after, order, p);
    PlaceStanding(images, end, before, after, name);
    PlaceFlags(images, end, before, after, name, processed);
    PlacePairs(end, before, after, order, sorted, p, processed);
    PlaceAscending(before, after, order, sorted, p);
    hide Ascending, PairsFlagged;
    assert |after| == |before| && forall k | 0 <= k < |before| :: after[k].name == before[k].name;
    assert low <= after[sorted[0]].name;
  }

  // ----- processing the lowest name

  /** The iterators that are on a name, in load order, with their flags. */
  ghost function OnName(its: seq<CoalIterator>, name: Name): (r: seq<Option<bool>>)
    ensures |r| == |its| && forall k | 0 <= k < |its| :: r[k] == if its[k].name == name then Some(its[k].weak) else None
  {
    seq(|its|, k requires 0 <= k < |its| => if its[k].name == name then Some(its[k].weak) else None)
  }

  /** Some of the holders, with the same flags. */
  ghost predicate Part(found: seq<Option<bool>>, all: seq<Option<bool>>) {
    |found| == |all| && forall i | 0 <= i < |found| :: found[i] == None || found[i] == all[i]
  }

  /** Of a shared name some holders were found that define it; all of them, if all of them together define it. */
  ghost predicate FoundOk(images: seq<Image>, name: Name, found: seq<Option<bool>>) {
    && Shared(images, name) && Part(found, Holders(images, name)) && Pick(found, images, name) != 0
    && (Coalesces(images, name) ==> found == Holders(images, name))
  }

  /** An iterator on a symbol agrees with what its stream says about it. */
  lemma {:induction false} OnNameFound(image: Image, end: Name, it: CoalIterator, name: Name)
    requires GoodStream(image.stream, end) && Standing(image.stream, end, it) && it.name == name && START < name < end
    ensures Find(image.stream, name) == Some(it.weak) && Holds(image, name) && !it.done
  {
    assert image.stream[it.next - 1].name == name;
  }

  lemma {:induction false} HoldsFound(image: Image, name: Name)
    ensures Holds(image, name) <==> Find(image.stream, name).Some?
  {
  }

  lemma {:induction false} OneOnName(image: Image, end: Name, it: CoalIterator, name: Name)
    requires GoodStream(image.stream, end) && Standing(image.stream, end, it) && START < name < end
    requires name <= it.name && (Holds(image, name) ==> it.name <= name)
    ensures Holds(image, name) <==> it.name == name
    ensures Find(image.stream, name) == if it.name == name then Some(it.weak) else None
  {
    hide Find;
    HoldsFound(image, name);
    if it.name == name {
      OnNameFound(image, end, it, name);
    }
  }

  /** When a name that coalesces is the lowest, exactly its holders are on it. */
  lemma HoldersOnName(images: seq<Image>, end: Name, its: seq<CoalIterator>, order: seq<nat>, processed: seq<Name>,
                      name: Name)
    requires GoodImages(images, end) && AllStanding(images, end, its) && Listed(its, order) && Ascending(its, order, 0)
    requires NotPassed(images, its, processed) && |its| > 0
    requires name == its[order[0]].name && name !in processed && Coalesces(images, name)
    ensures START < name < end && OnName(its, name) == Holders(images, name)
    ensures forall i | 0 <= i < |its| :: Holds(images[i], name) <==> its[i].name == name
  {
    hide GoodStream, Find, Pick;
    var k: nat :| k < |images| && Holds(images[k], name) && HeldElsewhere(images, k, name);
    assert GoodStream(images[k].stream, end);
    HeldInside(images[k], end, name);
    hide Coalesces, Standing, Holds;
    forall i: nat | i < |its|
      ensures Holds(images[i], name) <==> its[i].name == name
      ensures OnName(its, name)[i] == Holders(images, name)[i]
    {
      assert i in order && GoodStream(images[i].stream, end) && Standing(images[i].stream, end, its[i]);
      OneOnName(images[i], end, its[i], name);
    }
  }

  /** When a name that coalesces is the lowest, all its holders are on it, and the first is flagged. */
  lemma AllOnName(images: seq<Image>, end: Name, its: seq<CoalIterator>, order: seq<nat>, processed: seq<Name>)
    requires Walking(images, end, its, order, processed)
    requires its[order[0]].name !in processed && Coalesces(images, its[order[0]].name)
    ensures its[order[0]].matches && !its[order[0]].done
    ensures OnName(its, its[order[0]].name) == Holders(images, its[order[0]].name)
  {
    hide GoodStream, FlagsOk, LogOk, Pick, Holds;
    var name := its[order[0]].name;
    HoldersOnName(images, end, its, order, processed, name);
    var k: nat :| k < |images| && Holds(images[k], name) && HeldElsewhere(images, k, name);
    var l: nat :| l < |images| && l != k && Holds(images[l], name);
    hide NotPassed, GoodImages, OnName, Holders, Coalesces;
    assert !its[order[0]].done by {
      assert Standing(images[order[0]].stream, end, its[order[0]]);
    }
    hide AllStanding;
    assert k in order && l in order;
    assert its[k].name == name && its[l].name == name;
    assert its[order[1]].name == name;
    assert Pair(end, its[order[0]], its[order[1]], processed);
  }

  /** The iterators on a symbol belong to holders of it. */
  lemma OnNamePart(images: seq<Image>, end: Name, its: seq<CoalIterator>, name: Name)
    requires GoodImages(images, end) && AllStanding(images, end, its) && START < name < end
    ensures Part(OnName(its, name), Holders(images, name))
  {
    hide GoodStream, Find;
    forall i | 0 <= i < |its|
      ensures OnName(its, name)[i] == None || OnName(its, name)[i] == Holders(images, name)[i]
    {
      assert GoodStream(images[i].stream, end) && Standing(images[i].stream, end, its[i]);
      if its[i].name == name {
        OnNameFound(images[i], end, its[i], name);
      }
    }
  }

  /** A flag tells of a shared name that is still to be processed. */
  lemma FlagTells(images: seq<Image>, end: Name, its: seq<CoalIterator>, processed: seq<Name>, k: nat)
    requires GoodImages(images, end) && AllStanding(images, end, its) && FlagsOk(images, its, processed)
    requires k < |its| && its[k].matches && !its[k].done
    ensures its[k].name !in processed && START < its[k].name < end && Shared(images, its[k].name)
  {
    hide GoodStream, Find, HeldElsewhere;
    assert FlagOk(images, its[k], k, processed);
    assert GoodStream(images[k].stream, end) && Standing(images[k].stream, end, its[k]);
    NameBelowEnd(images[k], end, its[k]);
    OnNameFound(images[k], end, its[k], its[k].name);
  }

  /** A flag and a target tell that the lowest name is still to be processed, with the holders found. */
  lemma TargetTells(images: seq<Image>, end: Name, its: seq<CoalIterator>, order: seq<nat>, processed: seq<Name>)
    requires Walking(images, end, its, order, processed)
    requires its[order[0]].matches && !its[order[0]].done
    requires Pick(OnName(its, its[order[0]].name), images, its[order[0]].name) != 0
    ensures var name := its[order[0]].name; name !in processed && FoundOk(images, name, OnName(its, name))
  {
    hide GoodStream, PairsFlagged, LogOk, Find, PickFrom, Pick, FlagsOk, NotPassed, AllStanding, Shared;
    var name := its[order[0]].name;
    FlagTells(images, end, its, processed, order[0]);
    OnNamePart(images, end, its, name);
    if Coalesces(images, name) {
      HoldersOnName(images, end, its, order, processed, name);
    }
  }

  /** The flags of the iterators on a name taken down. */
  ghost function Cleared(its: seq<CoalIterator>, name: Name): (r: seq<CoalIterator>)
    ensures |r| == |its|
    ensures forall k | 0 <= k < |its| :: r[k] == if its[k].name == name then its[k].(matches := false) else its[k]
  {
    seq(|its|, k requires 0 <= k < |its| => if its[k].name == name then its[k].(matches := false) else its[k])
  }

  lemma ProcessedLowest(images: seq<Image>, end: Name, its: seq<CoalIterator>, order: seq<nat>, processed: seq<Name>)
    requires Walking(images, end, its, order, processed)
    requires its[order[0]].name !in processed
    ensures Walking(images, end, Cleared(its, its[order[0]].name), order, processed + [its[order[0]].name])
  {
    hide Coalesces, GoodStream, HeldElsewhere;
    var name := its[order[0]].name;
    var after, more := Cleared(its, name), processed + [name];
    assert forall m | m !in more :: m !in processed;
    assert AllStanding(images, end, after) by {
      assert forall k | 0 <= k < |its| :: Standing(images[k].stream, end, its[k]);
    }
    assert FlagsOk(images, after, more) by {
      assert forall k | 0 <= k < |its| :: FlagOk(images, its[k], k, processed);
    }
    assert PairsFlagged(end, after, order, 0, more) by {
      hide FlagsOk, AllStanding;
      assert forall p, q | 0 <= p < |order| && q == p + 1 && q < |order| ::
               Pair(end, its[order[p]], its[order[q]], processed);
    }
  }
}
