/** The whole of weakBind: which uses are pointed where, and that each shared name is dealt with once. */
module WeakBind {
  import opened Bytes
  import opened WeakSymbols
  import opened WeakWalk

  // ----- what should be updated

  /** One update for each of the first k images that uses the name, is not bound yet, and has come far enough to be
      bound. */
  ghost function UpdatesFor(found: seq<Option<bool>>, images: seq<Image>, bound: seq<bool>, name: Name,
                            target: Address, k: nat): seq<Update>
    requires |found| == |images| == |bound| && k <= |images|
  {
    if k == 0 then [] else
      UpdatesFor(found, images, bound, name, target, k - 1)
      + if found[k - 1].Some? && !bound[k - 1] && images[k - 1].ready then [Update(k - 1, name, target)] else []
  }

  type Found = seq<Option<bool>>

  ghost predicate Sized(images: seq<Image>, names: seq<Name>, founds: seq<Found>) {
    |founds| == |names| && forall i | 0 <= i < |founds| :: |founds[i]| == |images|
  }

  /** The updates for these names, each to what is picked from the holders found. */
  ghost function AllUpdates(images: seq<Image>, bound: seq<bool>, names: seq<Name>, founds: seq<Found>): seq<Update>
    requires |bound| == |images| && Sized(images, names, founds)
  {
    if names == [] then [] else
      var n := |names| - 1;
      AllUpdates(images, bound, names[..n], founds[..n])
      + UpdatesFor(founds[n], images, bound, names[n], Pick(founds[n], images, names[n]), |images|)
  }

  lemma {:induction false} UpdateIn(found: seq<Option<bool>>, images: seq<Image>, bound: seq<bool>, name: Name,
                                    target: Address, k: nat, u: Update)
    requires |found| == |images| == |bound| && k <= |images|
    ensures u in UpdatesFor(found, images, bound, name, target, k) <==>
            u.image < k && found[u.image].Some? && !bound[u.image] && images[u.image].ready && u.name == name
            && u.target == target
  {
    if k > 0 {
      UpdateIn(found, images, bound, name, target, k - 1, u);
    }
  }

  /** This update is one of those for the name at i. */
  ghost predicate UpdateAt(images: seq<Image>, bound: seq<bool>, names: seq<Name>, founds: seq<Found>, u: Update,
                           i: nat)
    requires |bound| == |images| && Sized(images, names, founds)
  {
    && i < |names| && u.name == names[i] && u.image < |images| && founds[i][u.image].Some?
    && !bound[u.image] && images[u.image].ready && u.target == Pick(founds[i], images, u.name)
  }

  /** Exactly the unbound images found with one of these names are updated, each to the pick for it. */
  lemma {:induction false} EachUpdate(images: seq<Image>, bound: seq<bool>, names: seq<Name>, founds: seq<Found>,
                                      u: Update)
    requires |bound| == |images| && Sized(images, names, founds)
    ensures u in AllUpdates(images, bound, names, founds)
            <==> exists i: nat :: UpdateAt(images, bound, names, founds, u, i)
  {
    hide Pick, UpdatesFor;
    if names != [] {
      var n := |names| - 1;
      EachUpdate(images, bound, names[..n], founds[..n], u);
      UpdateIn(founds[n], images, bound, names[n], Pick(founds[n], images, names[n]), |images|, u);
      assert UpdateAt(images, bound, names, founds, u, n) <==>
             u in UpdatesFor(founds[n], images, bound, names[n], Pick(founds[n], images, names[n]), |images|);
      assert forall i: nat | i < n ::
          UpdateAt(images, bound, names, founds, u, i) <==> UpdateAt(images, bound, names[..n], founds[..n], u, i);
    }
  }

  /** What the walk leaves behind: ascending names, each with the holders found, and every name that coalesces. */
  ghost predicate Processed(images: seq<Image>, names: seq<Name>, founds: seq<Found>) {
    && AscendingNames(names)
    && FoundsOk(images, names, founds)
    && forall name | Coalesces(images, name) :: name in names
  }

  ghost predicate FoundsOk(images: seq<Image>, names: seq<Name>, founds: seq<Found>) {
    |founds| == |names| && forall i | 0 <= i < |names| :: FoundOk(images, names[i], founds[i])
  }

  /** For a name that coalesces, exactly its unbound users are updated, each to what is picked from all its holders. */
  lemma {:induction false} EachUse(images: seq<Image>, bound: seq<bool>, names: seq<Name>, founds: seq<Found>,
                                   u: Update)
    requires |bound| == |images| && Processed(images, names, founds) && Coalesces(images, u.name)
    ensures Sized(images, names, founds)
    ensures u in AllUpdates(images, bound, names, founds) <==>
            && u.image < |images| && Holds(images[u.image], u.name) && !bound[u.image] && images[u.image].ready
            && u.target == Pick(Holders(images, u.name), images, u.name)
  {
    hide Pick, Find, Holds, Coalesces, Shared, AllUpdates;
    FoundSizes(images, names, founds);
    EachUpdate(images, bound, names, founds, u);
    var i: nat :| i < |names| && names[i] == u.name;
    assert FoundOk(images, names[i], founds[i]);
    if u.image < |images| {
      HoldsFound(images[u.image], u.name);
    }
    assert forall j: nat | UpdateAt(images, bound, names, founds, u, j) :: j == i;
    assert UpdateAt(images, bound, names, founds, u, i) <==> u in AllUpdates(images, bound, names, founds);
  }

  lemma FoundSizes(images: seq<Image>, names: seq<Name>, founds: seq<Found>)
    requires FoundsOk(images, names, founds)
    ensures Sized(images, names, founds)
  {
    hide Pick, Coalesces, Shared;
    forall i | 0 <= i < |founds|
      ensures |founds[i]| == |images|
    {
      assert FoundOk(images, names[i], founds[i]);
    }
  }

  /** Every strong symbol of this name resolves to an address. */
  ghost predicate Decided(images: seq<Image>, name: Name) {
    forall k: nat | k < |images| && Find(images[k].stream, name) == Some(false) :: AddressIn(images[k], name) != 0
  }

  /** Some image that holds the name defines it. */
  ghost predicate DefinedSomewhere(images: seq<Image>, name: Name) {
    exists k: nat :: k < |images| && Holds(images[k], name) && AddressIn(images[k], name) != 0
  }

  /** Then the search finds something exactly if there is something to find. */
  lemma {:induction false} PickSome(found: Found, images: seq<Image>, name: Name, k: nat, target: Address)
    requires |found| == |images| && k <= |found|
    requires forall i | k <= i < |found| && found[i] == Some(false) :: AddressIn(images[i], name) != 0
    ensures PickFrom(found, images, name, k, target) != 0
            <==> target != 0 || exists i | k <= i < |found| :: found[i].Some? && AddressIn(images[i], name) != 0
    decreases |found| - k
  {
    if k < |found| && found[k] != Some(false) {
      var carried := if found[k] == Some(true) && target == 0 then AddressIn(images[k], name) else target;
      PickSome(found, images, name, k + 1, carried);
    }
  }

  /** So such a name coalesces exactly if two images hold it and one that holds it defines it. */
  lemma DecidedCoalesces(images: seq<Image>, name: Name)
    requires Decided(images, name)
    ensures Coalesces(images, name) <==> Shared(images, name) && DefinedSomewhere(images, name)
  {
    hide Find, Holds, Shared;
    var all := Holders(images, name);
    PickSome(all, images, name, 0, 0);
    forall k | 0 <= k < |images|
      ensures all[k].Some? <==> Holds(images[k], name)
    {
      HoldsFound(images[k], name);
    }
  }

  /** When its strong symbols all resolve, a name is processed exactly if it coalesces. */
  lemma ProcessedExactly(images: seq<Image>, names: seq<Name>, founds: seq<Found>, name: Name)
    requires Processed(images, names, founds) && Decided(images, name)
    ensures name in names <==> Coalesces(images, name)
  {
    hide Find, PickFrom, Shared;
    if name in names {
      var i: nat :| i < |names| && names[i] == name;
      assert FoundOk(images, names[i], founds[i]);
      var all := Holders(images, name);
      if Pick(all, images, name) == 0 {
        NothingToPick(all, founds[i], images, name, 0, 0);
      }
    }
  }

  ghost predicate Before(u: Update, v: Update) {
    u.name < v.name || (u.name == v.name && u.image < v.image)
  }

  ghost predicate Ordered(us: seq<Update>) {
    forall i, j | 0 <= i < j < |us| :: Before(us[i], us[j])
  }

  lemma OrderedAppend(us: seq<Update>, vs: seq<Update>)
    requires Ordered(us) && Ordered(vs) && forall u, v | u in us && v in vs :: Before(u, v)
    ensures Ordered(us + vs)
  {
    hide Before;
    forall i, j | 0 <= i < j < |us + vs|
      ensures Before((us + vs)[i], (us + vs)[j])
    {
      assert i < |us| ==> (us + vs)[i] in us;
      assert j >= |us| ==> (us + vs)[j] in vs;
    }
  }

  lemma {:induction false} UpdatesOrdered(found: seq<Option<bool>>, images: seq<Image>, bound: seq<bool>, name: Name,
                                          target: Address, k: nat)
    requires |found| == |images| == |bound| && k <= |images|
    ensures Ordered(UpdatesFor(found, images, bound, name, target, k))
  {
    if k > 0 {
      UpdatesOrdered(found, images, bound, name, target, k - 1);
      var older := UpdatesFor(found, images, bound, name, target, k - 1);
      forall u | u in older
        ensures Before(u, Update(k - 1, name, target))
      {
        UpdateIn(found, images, bound, name, target, k - 1, u);
      }
      OrderedAppend(older, [Update(k - 1, name, target)]);
      assert older + [] == older;
    }
  }

  ghost predicate AscendingNames(names: seq<Name>) {
    forall i, j | 0 <= i < j < |names| :: names[i] < names[j]
  }

  lemma WithoutLast(images: seq<Image>, names: seq<Name>, founds: seq<Found>, n: nat)
    requires Sized(images, names, founds) && |names| == n + 1
    ensures Sized(images, names[..n], founds[..n]) && |founds[n]| == |images|
    ensures AscendingNames(names) ==> AscendingNames(names[..n]) && forall i | 0 <= i < n :: names[..n][i] < names[n]
  {
  }

  /** The last name's updates come after those of the others. */
  lemma {:induction false} LastUpdates(images: seq<Image>, bound: seq<bool>, names: seq<Name>, founds: seq<Found>,
                                       n: nat)
    requires |bound| == |images| && Sized(images, names, founds) && |names| == n + 1
    requires Sized(images, names[..n], founds[..n]) && |founds[n]| == |images|
    ensures AllUpdates(images, bound, names, founds)
            == AllUpdates(images, bound, names[..n], founds[..n])
               + UpdatesFor(founds[n], images, bound, names[n], Pick(founds[n], images, names[n]), |images|)
  {
    hide Pick, UpdatesFor, Sized;
  }

  /** With ascending names the updates ascend by name and, for one name, by load order: no use is updated twice. */
  lemma {:induction false} NoRepeat(images: seq<Image>, bound: seq<bool>, names: seq<Name>, founds: seq<Found>)
    requires |bound| == |images| && Sized(images, names, founds) && AscendingNames(names)
    ensures Ordered(AllUpdates(images, bound, names, founds))
  {
    if names == [] {
      assert Ordered([]);
    } else {
      var n := |names| - 1;
      WithoutLast(images, names, founds, n);
      LastUpdates(images, bound, names, founds, n);
      hide Pick, Ordered, UpdatesFor, AllUpdates, Sized, AscendingNames, Before;
      var target := Pick(founds[n], images, names[n]);
      var older := AllUpdates(images, bound, names[..n], founds[..n]);
      var newer := UpdatesFor(founds[n], images, bound, names[n], target, |images|);
      NoRepeat(images, bound, names[..n], founds[..n]);
      UpdatesOrdered(founds[n], images, bound, names[n], target, |images|);
      forall u, v | u in older && v in newer
        ensures Before(u, v)
      {
        UpdateBefore(images, bound, names[..n], founds[..n], names[n], u);
        UpdateIn(founds[n], images, bound, names[n], target, |images|, v);
        BeforeByName(u, v);
      }
      OrderedAppend(older, newer);
    }
  }

  lemma BeforeByName(u: Update, v: Update)
    requires u.name < v.name
    ensures Before(u, v)
  {
  }

  lemma {:induction false} UpdateBefore(images: seq<Image>, bound: seq<bool>, names: seq<Name>, founds: seq<Found>,
                                        name: Name, u: Update)
    requires |bound| == |images| && Sized(images, names, founds) && u in AllUpdates(images, bound, names, founds)
    requires forall i | 0 <= i < |names| :: names[i] < name
    ensures u.name < name
  {
    hide AllUpdates, Pick;
    EachUpdate(images, bound, names, founds, u);
  }

  // ----- progress

  ghost function CountDone(its: seq<CoalIterator>): (n: nat)
    ensures n <= |its| && (n == |its| <==> forall k | 0 <= k < |its| :: its[k].done)
  {
    if its == [] then 0 else CountDone(its[..|its| - 1]) + if its[|its| - 1].done then 1 else 0
  }

  ghost function Steps(image: Image, it: CoalIterator): int {
    if it.done then 0 else |image.stream| - it.next + 1
  }

  ghost function Remaining(images: seq<Image>, its: seq<CoalIterator>): int
    requires |images| == |its|
  {
    if its == [] then 0 else Remaining(images[..|its| - 1], its[..|its| - 1]) + Steps(images[|its| - 1], its[|its| - 1])
  }

  lemma {:induction false} Advance(images: seq<Image>, its: seq<CoalIterator>, k: nat, it: CoalIterator)
    requires |images| == |its| && k < |its|
    ensures CountDone(its[k := it]) - CountDone(its) == (if it.done then 1 else 0) - (if its[k].done then 1 else 0)
    ensures Remaining(images, its[k := it]) - Remaining(images, its) == Steps(images[k], it) - Steps(images[k], its[k])
  {
    var n := |its| - 1;
    if k < n {
      assert its[k := it][..n] == its[..n][k := it];
      Advance(images[..n], its[..n], k, it);
    } else {
      assert its[k := it][..n] == its[..n];
    }
  }

  /** Flags have no part in the progress. */
  lemma {:induction false} SameProgress(images: seq<Image>, before: seq<CoalIterator>, after: seq<CoalIterator>)
    requires |images| == |before| == |after|
    requires forall k | 0 <= k < |before| :: after[k].done == before[k].done && after[k].next == before[k].next
    ensures CountDone(after) == CountDone(before) && Remaining(images, after) == Remaining(images, before)
  {
    if before != [] {
      SameProgress(images[..|before| - 1], before[..|before| - 1], after[..|before| - 1]);
    }
  }

  lemma {:induction false} RemainingPositive(images: seq<Image>, end: Name, its: seq<CoalIterator>)
    requires AllStanding(images, end, its)
    ensures Remaining(images, its) >= 0
  {
    if its != [] {
      assert Standing(images[|its| - 1].stream, end, its[|its| - 1]);
      RemainingPositive(images[..|its| - 1], end, its[..|its| - 1]);
    }
  }

  /** The lowest iterator is done only when all are. */
  lemma {:induction false} LowestDone(images: seq<Image>, end: Name, its: seq<CoalIterator>, order: seq<nat>,
                                      processed: seq<Name>)
    requires Walking(images, end, its, order, processed) && its[order[0]].done
    ensures CountDone(its) == |its|
  {
    hide FlagsOk, PairsFlagged, NotPassed, LogOk;
    forall k | 0 <= k < |its|
      ensures its[k].done
    {
      assert k in order && Standing(images[k].stream, end, its[k]) && GoodStream(images[k].stream, end);
    }
  }

  lemma {:induction false} StepsLeft(images: seq<Image>, end: Name, its: seq<CoalIterator>, order: seq<nat>,
                                     processed: seq<Name>)
    requires Walking(images, end, its, order, processed)
    ensures Remaining(images, its) >= 0
  {
    hide FlagsOk, PairsFlagged, NotPassed, LogOk, Listed, Ascending, AllStanding;
    RemainingPositive(images, end, its);
  }

  /** When all are done, everything that coalesces has been processed, in ascending order. */
  lemma {:induction false} AllProcessed(images: seq<Image>, end: Name, its: seq<CoalIterator>, order: seq<nat>,
                                        processed: seq<Name>)
    requires Walking(images, end, its, order, processed) && CountDone(its) == |its|
    ensures forall name | Coalesces(images, name) :: name in processed
    ensures forall i, j | 0 <= i < j < |processed| :: processed[i] < processed[j]
  {
    hide FlagsOk, PairsFlagged, Pick;
    forall name: Name | Coalesces(images, name)
      ensures name in processed
    {
      var k: nat :| k < |images| && Holds(images[k], name) && HeldElsewhere(images, k, name);
      assert Standing(images[k].stream, end, its[k]) && GoodStream(images[k].stream, end);
      assert its[k].name == end && name < end;
    }
  }

  // ----- the parts of the loop

  method IncrementCoalIterator(images: seq<Image>, end: Name, its: array<CoalIterator>, k: nat) returns (finished: bool)
    requires its.Length == |images| && k < its.Length && its[k].next <= |images[k].stream|
    modifies its
    ensures its[..]
            == if old(its[k]).done then old(its[..]) else old(its[..])[k := Next(images[k].stream, end, old(its[k]))]
    ensures finished == (!old(its[k]).done && old(its[k]).next == |images[k].stream|)
  {
    if its[k].done {
      return false;
    }
    if its[k].next < |images[k].stream| {
      var e := images[k].stream[its[k].next];
      its[k] := CoalIterator(e.name, e.weak, false, false, its[k].next + 1);
      return false;
    }
    its[k] := its[k].(done := true, name := end);
    return true;
  }

  /** The search for a definition among the iterators on a name. */
  method FindTarget(images: seq<Image>, its: array<CoalIterator>, name: Name) returns (target: Address)
    requires its.Length == |images|
    ensures target == Pick(OnName(its[..], name), images, name)
  {
    ghost var found := OnName(its[..], name);
    target := 0;
    var i := 0;
    while i < its.Length
      invariant i <= its.Length && Pick(found, images, name) == PickFrom(found, images, name, i, target)
    {
      if its[i].name == name {
        if its[i].weak {
          if target == 0 {
            target := AddressIn(images[i], name);
          }
        } else {
          target := AddressIn(images[i], name);
          if target != 0 {
            return;
          }
        }
      }
      i := i + 1;
    }
  }

  /** Point every unbound use of the name at the target and take its flags down. */
  method UpdateUses(images: seq<Image>, bound: array<bool>, its: array<CoalIterator>, name: Name, target: Address)
    returns (updates: seq<Update>)
    requires its.Length == |images| == bound.Length
    modifies its
    ensures its[..] == Cleared(old(its[..]), name)
    ensures updates == UpdatesFor(OnName(old(its[..]), name), images, bound[..], name, target, |images|)
  {
    ghost var was := its[..];
    updates := [];
    var i := 0;
    while i < its.Length
      invariant i <= its.Length
      invariant forall k | 0 <= k < its.Length :: its[k] == if k < i then Cleared(was, name)[k] else was[k]
      invariant updates == UpdatesFor(OnName(was, name), images, bound[..], name, target, i)
    {
      if its[i].name == name {
        if !bound[i] && images[i].ready {
          updates := updates + [Update(i, name, target)];
        }
        its[i] := its[i].(matches := false);
      }
      i := i + 1;
    }
  }

  /** The first part of a round: the lowest iterator moves and the others are put in order. */
  ghost predicate Moves(images: seq<Image>, end: Name, its: seq<CoalIterator>, order: seq<nat>,
                        its': seq<CoalIterator>, order': seq<nat>, p: nat)
  {
    && |its| == |images| && |order| > 0 && order[0] < |its| && its[order[0]].next <= |images[order[0]].stream|
    && Resorted(its[order[0] := Next(images[order[0]].stream, end, its[order[0]])], its', order, order', p)
  }

  /** The second part: a flagged lowest name for which the holders on it give a definition is dealt with. */
  ghost predicate Handled(images: seq<Image>, its: seq<CoalIterator>, order: seq<nat>, more: seq<Name>, found: Found,
                          its': seq<CoalIterator>)
  {
    && |its| == |images| && |order| > 0 && order[0] < |its|
    && var it := its[order[0]];
       var target := if it.matches && !it.done then Pick(OnName(its, it.name), images, it.name) else 0;
       if target == 0 then more == [] && its' == its
       else more == [it.name] && found == OnName(its, it.name) && its' == Cleared(its, it.name)
  }

  /** What one round adds: nothing, or one name with the holders found and all their updates. */
  ghost predicate Dealt(images: seq<Image>, bound: seq<bool>, more: seq<Name>, found: Found, updates: seq<Update>)
    requires |bound| == |images|
  {
    || (more == [] && updates == [])
    || (|more| == 1 && FoundOk(images, more[0], found)
        && updates == UpdatesFor(found, images, bound, more[0], Pick(found, images, more[0]), |images|))
  }

  /** What is not processed has no target, so it does not coalesce. */
  lemma NothingDue(images: seq<Image>, end: Name, its: seq<CoalIterator>, order: seq<nat>, processed: seq<Name>)
    requires Walking(images, end, its, order, processed)
    requires var it := its[order[0]]; !it.matches || it.done || Pick(OnName(its, it.name), images, it.name) == 0
    ensures Settled(images, its, order, processed)
  {
    hide GoodImages, AllStanding, Listed, FlagsOk, PairsFlagged, NotPassed, LogOk, Shared, PickFrom, OnName, Holders;
    assert |its| > 0 && |order| == |its| && order[0] < |its| by { OrderStarts(its, order); }
    if its[order[0]].name !in processed && Coalesces(images, its[order[0]].name) {
      AllOnName(images, end, its, order, processed);
    }
  }

  lemma NothingDealt(images: seq<Image>, bound: seq<bool>)
    requires |bound| == |images|
    ensures Dealt(images, bound, [], [], [])
  {
  }

  lemma {:induction false} OneDealt(images: seq<Image>, bound: seq<bool>, name: Name, found: Found)
    requires |bound| == |images| == |found| && FoundOk(images, name, found)
    ensures Dealt(images, bound, [name], found,
                  UpdatesFor(found, images, bound, name, Pick(found, images, name), |images|))
  {
  }

  lemma OrderStarts(its: seq<CoalIterator>, order: seq<nat>)
    requires Listed(its, order) && |its| > 0
    ensures |order| == |its| && order[0] < |its|
  {
  }

  lemma WalkingSizes(images: seq<Image>, end: Name, its: seq<CoalIterator>, order: seq<nat>, processed: seq<Name>)
    requires Walking(images, end, its, order, processed)
    ensures |order| == |its| == |images| > 0 && order[0] < |its|
  {
    hide Coalesces, FlagsOk, PairsFlagged, NotPassed, LogOk, GoodImages;
  }

  lemma NowSettled(images: seq<Image>, its: seq<CoalIterator>, order: seq<nat>, processed: seq<Name>)
    requires |order| > 0 && order[0] < |its|
    ensures Settled(images, Cleared(its, its[order[0]].name), order, processed + [its[order[0]].name])
  {
  }

  /** Deal with the lowest name if it is flagged; a name without any definition is left as it is. */
  method ProcessLowest(images: seq<Image>, end: Name, bound: array<bool>, its: array<CoalIterator>, order: array<nat>,
                       processed: seq<Name>)
      returns (more: seq<Name>, ghost found: Found, updates: seq<Update>)
    requires Walking(images, end, its[..], order[..], processed) && bound.Length == |images|
    modifies its
    ensures Walking(images, end, its[..], order[..], processed + more)
    ensures Settled(images, its[..], order[..], processed + more)
    ensures Dealt(images, bound[..], more, found, updates)
    ensures Handled(images, old(its[..]), order[..], more, found, its[..])
    ensures CountDone(its[..]) == CountDone(old(its[..]))
    ensures Remaining(images, its[..]) == Remaining(images, old(its[..]))
  {
    hide *;
    more, found, updates := [], [], [];
    ghost var was := its[..];
    WalkingSizes(images, end, its[..], order[..], processed);
    assert its[..][order[..][0]] == its[order[0]];
    NothingDealt(images, bound[..]);
    var name := its[order[0]].name;
    var target := 0;
    if its[order[0]].matches && !its[order[0]].done {
      target := FindTarget(images, its, name);
    }
    assert processed + [] == processed;
    if target != 0 {
      TargetTells(images, end, was, order[..], processed);
      ProcessedLowest(images, end, was, order[..], processed);
      SameProgress(images, was, Cleared(was, name));
      more, found := [name], OnName(was, name);
      updates := UpdateUses(images, bound, its, name, target);
      OneDealt(images, bound[..], name, found);
      NowSettled(images, was, order[..], processed);
    } else {
      NothingDue(images, end, was, order[..], processed);
    }
    HandledIs(images, was, order[..], more, found, its[..]);
  }

  lemma HandledIs(images: seq<Image>, its: seq<CoalIterator>, order: seq<nat>, more: seq<Name>, found: Found,
                  its': seq<CoalIterator>)
    requires |its| == |images| && |order| > 0 && order[0] < |its|
    requires var it := its[order[0]];
             var target := if it.matches && !it.done then Pick(OnName(its, it.name), images, it.name) else 0;
             if target == 0 then more == [] && its' == its
             else more == [it.name] && found == OnName(its, it.name) && its' == Cleared(its, it.name)
    ensures Handled(images, its, order, more, found, its')
  {
  }

  /** Between two rounds: the iterators, their order, and what has been dealt with. */
  datatype Stage = Stage(its: seq<CoalIterator>, order: seq<nat>, processed: seq<Name>, founds: seq<Found>)

  ghost predicate AtStart(images: seq<Image>, s: Stage) {
    && |s.its| == |s.order| == |images| && s.processed == [] && s.founds == []
    && (forall k | 0 <= k < |s.its| :: s.its[k] == CoalIterator(START, false, false, false, 0))
    && forall k | 0 <= k < |s.order| :: s.order[k] == k
  }

  /** One round, while some iterator is not done. */
  ghost predicate Rounded(images: seq<Image>, end: Name, s: Stage, t: Stage) {
    CountDone(s.its) < |s.its| && exists its, p, more, found :: RoundedBy(images, end, s, t, its, p, more, found)
  }

  ghost predicate RoundedBy(images: seq<Image>, end: Name, s: Stage, t: Stage, its: seq<CoalIterator>, p: nat,
                            more: seq<Name>, found: Found)
  {
    && Moves(images, end, s.its, s.order, its, t.order, p) && Handled(images, its, t.order, more, found, t.its)
    && t.processed == s.processed + more && t.founds == Grown(s.founds, more, found)
  }

  /** The stages of a whole walk: it starts at the beginning and ends when every iterator is done. */
  ghost predicate Stages(images: seq<Image>, end: Name, trace: seq<Stage>) {
    && trace != [] && AtStart(images, trace[0])
    && forall i | 0 <= i < |trace| - 1 :: Rounded(images, end, trace[i], trace[i + 1])
  }

  lemma StagesStart(images: seq<Image>, end: Name, s: Stage)
    requires AtStart(images, s)
    ensures Stages(images, end, [s]) && Last([s]) == s
  {
    hide AtStart;
  }

  lemma StagesNext(images: seq<Image>, end: Name, trace: seq<Stage>, t: Stage)
    requires Stages(images, end, trace) && Rounded(images, end, Last(trace), t)
    ensures Stages(images, end, trace + [t]) && Last(trace + [t]) == t
  {
    hide Rounded, AtStart;
  }

  /** An iterator on the start of each stream, in load order. */
  method InitializeIterators(images: seq<Image>, end: Name) returns (its: array<CoalIterator>, order: array<nat>)
    requires GoodImages(images, end) && |images| > 0
    ensures fresh(its) && fresh(order) && Walking(images, end, its[..], order[..], [])
    ensures Settled(images, its[..], order[..], []) && its.Length == order.Length == |images| && CountDone(its[..]) == 0
    ensures AtStart(images, Stage(its[..], order[..], [], []))
  {
    its := new CoalIterator[|images|](_ => CoalIterator(START, false, false, false, 0));
    order := new nat[|images|](i => i);
    StartWalking(images, end, its[..], order[..]);
    NoneDone(its[..]);
  }

  lemma StartWalking(images: seq<Image>, end: Name, its: seq<CoalIterator>, order: seq<nat>)
    requires GoodImages(images, end) && |its| == |order| == |images| > 0
    requires forall k | 0 <= k < |its| :: its[k] == CoalIterator(START, false, false, false, 0)
    requires forall k | 0 <= k < |order| :: order[k] == k
    ensures Walking(images, end, its, order, []) && !Coalesces(images, START)
  {
    hide Pick, HeldElsewhere;
    forall k: nat | k < |images|
      ensures !Holds(images[k], START)
    {
      assert GoodStream(images[k].stream, end);
    }
    hide Holds, GoodStream;
    forall k: nat | k < |its|
      ensures k in order
    {
      assert order[k] == k;
    }
    hide Coalesces;
  }

  lemma {:induction false} NoneDone(its: seq<CoalIterator>)
    requires forall k | 0 <= k < |its| :: !its[k].done
    ensures CountDone(its) == 0
  {
    if its != [] {
      NoneDone(its[..|its| - 1]);
    }
  }

  /** One round of the walk: move the lowest iterator, put the order right, deal with the new lowest name. */
  method Round(images: seq<Image>, end: Name, bound: array<bool>, its: array<CoalIterator>, order: array<nat>,
               processed: seq<Name>)
      returns (finished: bool, more: seq<Name>, ghost found: Found, updates: seq<Update>)
    requires Walking(images, end, its[..], order[..], processed) && bound.Length == |images|
    requires Settled(images, its[..], order[..], processed)
    requires CountDone(its[..]) < its.Length
    modifies its, order
    ensures Walking(images, end, its[..], order[..], processed + more)
    ensures Settled(images, its[..], order[..], processed + more)
    ensures Dealt(images, bound[..], more, found, updates)
    ensures CountDone(its[..]) == CountDone(old(its[..])) + if finished then 1 else 0
    ensures Remaining(images, its[..]) < Remaining(images, old(its[..]))
    ensures forall founds :: Rounded(images, end, Stage(old(its[..]), old(order[..]), processed, founds),
                                     Stage(its[..], order[..], processed + more, Grown(founds, more, found)))
  {
    hide Coalesces, FlagsOk, PairsFlagged, NotPassed, LogOk, GoodImages, Dealt, Settled;
    ghost var was, list, k, low := its[..], order[..], order[0], its[order[0]].name;
    if its[k].done {
      LowestDone(images, end, was, list, processed);
    }
    assert Standing(images[k].stream, end, its[k]);
    MoveLowest(images, end, was, list, processed);
    Advance(images, was, k, Next(images[k].stream, end, was[k]));
    finished := IncrementCoalIterator(images, end, its, order[0]);
    ghost var moved := its[..];
    hide AllStanding, Standing, Walking;
    ghost var p := Resort(its, order);
    PlaceMoved(images, end, moved, its[..], list, order[..], p, processed, low);
    SameProgress(images, moved, its[..]);
    MovedOn(images, end, was, list, its[..], order[..], p);
    ghost var sorted := its[..];
    more, found, updates := ProcessLowest(images, end, bound, its, order, processed);
    forall founds
      ensures Rounded(images, end, Stage(was, list, processed, founds),
                      Stage(its[..], order[..], processed + more, Grown(founds, more, found)))
    {
      RoundIs(images, end, Stage(was, list, processed, founds),
              Stage(its[..], order[..], processed + more, Grown(founds, more, found)), sorted, p, more, found);
    }
  }

  lemma MovedOn(images: seq<Image>, end: Name, its: seq<CoalIterator>, order: seq<nat>, its': seq<CoalIterator>,
                order': seq<nat>, p: nat)
    requires |its| == |images| && |order| > 0 && order[0] < |its| && its[order[0]].next <= |images[order[0]].stream|
    requires Resorted(its[order[0] := Next(images[order[0]].stream, end, its[order[0]])], its', order, order', p)
    ensures Moves(images, end, its, order, its', order', p)
  {
  }

  lemma RoundIs(images: seq<Image>, end: Name, s: Stage, t: Stage, its: seq<CoalIterator>, p: nat, more: seq<Name>,
                found: Found)
    requires CountDone(s.its) < |s.its| && Moves(images, end, s.its, s.order, its, t.order, p)
    requires Handled(images, its, t.order, more, found, t.its)
    requires t.processed == s.processed + more && t.founds == Grown(s.founds, more, found)
    ensures Rounded(images, end, s, t)
  {
    hide CountDone, Moves, Handled, Grown;
    assert RoundedBy(images, end, s, t, its, p, more, found);
  }

  /** Two images have coalesced exports, and some image is not bound yet. */
  ghost predicate WorthWhile(images: seq<Image>, bound: seq<bool>) {
    && (exists k, l :: 0 <= k < l < |images| && images[k].coalescedExports && images[l].coalescedExports)
    && exists k :: 0 <= k < |bound| && !bound[k]
  }

  method CountNeeds(images: seq<Image>, bound: array<bool>) returns (needed: bool)
    requires bound.Length == |images|
    ensures needed <==> WorthWhile(images, bound[..])
    ensures needed ==>
              (exists k, l :: 0 <= k < l < |images| && images[k].coalescedExports && images[l].coalescedExports)
    ensures needed ==> exists k :: 0 <= k < bound.Length && !bound[k]
    ensures !needed && (exists k :: 0 <= k < bound.Length && !bound[k]) ==>
              forall k, l | 0 <= k < l < |images| :: !(images[k].coalescedExports && images[l].coalescedExports)
  {
    var unbound, defining, i := 0, 0, 0;
    while i < |images|
      invariant i <= |images|
      invariant unbound > 0 <==> exists k :: 0 <= k < i && !bound[k]
      invariant defining > 0 <==> exists k :: 0 <= k < i && images[k].coalescedExports
      invariant defining > 1
                <==> exists k, l :: 0 <= k < l < i && images[k].coalescedExports && images[l].coalescedExports
      invariant unbound >= 0 && defining >= 0
    {
      if !bound[i] {
        unbound := unbound + 1;
      }
      if images[i].coalescedExports {
        defining := defining + 1;
      }
      i := i + 1;
    }
    needed := defining > 1 && unbound > 0;
    assert forall k | 0 <= k < bound.Length :: bound[..][k] == bound[k];
  }

  /** The log so far: each processed name with the holders found, and all the updates for them. */
  ghost predicate Logged(images: seq<Image>, bound: seq<bool>, processed: seq<Name>, founds: seq<Found>,
                         updates: seq<Update>)
    requires |bound| == |images|
  {
    && Sized(images, processed, founds) && FoundsOk(images, processed, founds)
    && updates == AllUpdates(images, bound, processed, founds)
  }

  lemma NothingYet(images: seq<Image>, bound: seq<bool>)
    requires |bound| == |images|
    ensures Logged(images, bound, [], [], [])
  {
  }

  /** The holders found for the processed names, after one round. */
  ghost function Grown(founds: seq<Found>, more: seq<Name>, found: Found): seq<Found> {
    if more == [] then founds else founds + [found]
  }

  /** One more processed name adds its updates at the end. */
  lemma LogGrows(images: seq<Image>, bound: seq<bool>, processed: seq<Name>, founds: seq<Found>, updates: seq<Update>,
                 more: seq<Name>, found: Found, new': seq<Update>)
    requires |bound| == |images| && Logged(images, bound, processed, founds, updates)
    requires Dealt(images, bound, more, found, new')
    ensures Logged(images, bound, processed + more, Grown(founds, more, found), updates + new')
  {
    hide FoundOk, Pick, UpdatesFor;
    var all := Grown(founds, more, found);
    if more == [] {
      assert processed + more == processed && updates + new' == updates;
    } else {
      assert forall i | 0 <= i < |processed| :: FoundOk(images, (processed + more)[i], all[i]);
      assert FoundsOk(images, processed + more, all);
      FoundSizes(images, processed + more, all);
      assert (processed + more)[..|processed|] == processed && all[..|founds|] == founds;
    }
  }

  /** A round, with the log kept. */
  method LoggedRound(images: seq<Image>, end: Name, bound: array<bool>, its: array<CoalIterator>, order: array<nat>,
                     processed: seq<Name>, ghost founds: seq<Found>, updates: seq<Update>)
      returns (finished: bool, processed': seq<Name>, ghost founds': seq<Found>, updates': seq<Update>)
    requires Walking(images, end, its[..], order[..], processed) && Settled(images, its[..], order[..], processed)
    requires bound.Length == |images| && CountDone(its[..]) < its.Length
    requires Logged(images, bound[..], processed, founds, updates)
    modifies its, order
    ensures Walking(images, end, its[..], order[..], processed') && Settled(images, its[..], order[..], processed')
    ensures CountDone(its[..]) == CountDone(old(its[..])) + if finished then 1 else 0
    ensures 0 <= Remaining(images, old(its[..])) && Remaining(images, its[..]) < Remaining(images, old(its[..]))
    ensures Logged(images, bound[..], processed', founds', updates')
    ensures Rounded(images, end, Stage(old(its[..]), old(order[..]), processed, founds),
                    Stage(its[..], order[..], processed', founds'))
  {
    StepsLeft(images, end, its[..], order[..], processed);
    hide Walking, Settled, CountDone, Remaining, Logged, Dealt, Grown, Rounded;
    ghost var found;
    var more, new';
    finished, more, found, new' := Round(images, end, bound, its, order, processed);
    LogGrows(images, bound[..], processed, founds, updates, more, found, new');
    processed', founds', updates' := processed + more, Grown(founds, more, found), updates + new';
  }

  /** Every name that two images hold and some holder defines is processed once, with all its holders; no other name is
      processed unless one of its strong symbols has no address. */
  method Walk(images: seq<Image>, end: Name, bound: array<bool>)
      returns (processed: seq<Name>, ghost founds: seq<Found>, updates: seq<Update>, ghost trace: seq<Stage>)
    requires GoodImages(images, end) && bound.Length == |images| > 0
    ensures Sized(images, processed, founds) && Processed(images, processed, founds)
    ensures updates == AllUpdates(images, bound[..], processed, founds)
    ensures forall name | Decided(images, name) :: name in processed <==> Coalesces(images, name)
    ensures Stages(images, end, trace) && CountDone(Last(trace).its) == |Last(trace).its|
    ensures Last(trace).processed == processed && Last(trace).founds == founds
  {
    hide *;
    var its, order := InitializeIterators(images, end);
    processed, founds, updates, trace := Rounds(images, end, bound, its, order);
    WalkEnds(images, end, its[..], order[..], bound[..], processed, founds, updates);
  }

  /** The loop: rounds until every iterator is done. */
  method Rounds(images: seq<Image>, end: Name, bound: array<bool>, its: array<CoalIterator>, order: array<nat>)
      returns (processed: seq<Name>, ghost founds: seq<Found>, updates: seq<Update>, ghost trace: seq<Stage>)
    requires Walking(images, end, its[..], order[..], []) && Settled(images, its[..], order[..], [])
    requires bound.Length == |images| && CountDone(its[..]) == 0
    requires AtStart(images, Stage(its[..], order[..], [], []))
    modifies its, order
    ensures Walking(images, end, its[..], order[..], processed) && CountDone(its[..]) == its.Length
    ensures Logged(images, bound[..], processed, founds, updates)
    ensures Stages(images, end, trace) && Last(trace) == Stage(its[..], order[..], processed, founds)
  {
    hide *;
    processed, founds, updates := [], [], [];
    var doneCount := 0;
    NothingYet(images, bound[..]);
    WalkingSizes(images, end, its[..], order[..], []);
    trace := [Stage(its[..], order[..], [], [])];
    StagesStart(images, end, Stage(its[..], order[..], [], []));
    ghost var was := bound[..];
    while doneCount != its.Length
      invariant Walking(images, end, its[..], order[..], processed)
      invariant Settled(images, its[..], order[..], processed)
      invariant doneCount == CountDone(its[..]) <= its.Length
      invariant bound[..] == was && Logged(images, was, processed, founds, updates)
      invariant trace != [] && Stages(images, end, trace)
      invariant Last(trace) == Stage(its[..], order[..], processed, founds)
      decreases Remaining(images, its[..])
    {
      var finished;
      finished, processed, founds, updates := LoggedRound(images, end, bound, its, order, processed, founds, updates);
      StagesNext(images, end, trace, Stage(its[..], order[..], processed, founds));
      trace := trace + [Stage(its[..], order[..], processed, founds)];
      if finished {
        doneCount := doneCount + 1;
      }
    }
  }

  lemma {:induction false} WalkEnds(images: seq<Image>, end: Name, its: seq<CoalIterator>, order: seq<nat>,
                                    bound: seq<bool>, processed: seq<Name>, founds: seq<Found>, updates: seq<Update>)
    requires |bound| == |images| && Logged(images, bound, processed, founds, updates)
    requires Walking(images, end, its, order, processed) && CountDone(its) == |its|
    ensures Sized(images, processed, founds) && updates == AllUpdates(images, bound, processed, founds)
    ensures Processed(images, processed, founds)
    ensures forall name | Decided(images, name) :: name in processed <==> Coalesces(images, name)
  {
    hide Coalesces, Walking, CountDone, FoundsOk, Decided, Sized, AllUpdates;
    AllProcessed(images, end, its, order, processed);
    forall name | Decided(images, name)
      ensures name in processed <==> Coalesces(images, name)
    {
      ProcessedExactly(images, processed, founds, name);
    }
  }

  /** Nothing happens unless there is something to coalesce; afterwards every image counts as bound. */
  method BindWeakSymbols(images: seq<Image>, end: Name, bound: array<bool>)
    returns (processed: seq<Name>, ghost founds: seq<Found>, updates: seq<Update>)
    requires GoodImages(images, end) && bound.Length == |images|
    modifies bound
    ensures Sized(images, processed, founds)
    ensures updates == AllUpdates(images, old(bound[..]), processed, founds)
    ensures WorthWhile(images, old(bound[..])) ==> Processed(images, processed, founds)
    ensures forall k | 0 <= k < bound.Length :: bound[k] == (old(bound[k]) || WorthWhile(images, old(bound[..])))
    ensures !WorthWhile(images, old(bound[..])) ==> processed == []
  {
    processed, founds, updates := [], [], [];
    var needed := CountNeeds(images, bound);
    if needed {
      ghost var trace;
      processed, founds, updates, trace := Walk(images, end, bound);
      var i := 0;
      while i < bound.Length
        invariant i <= bound.Length
        invariant forall k | 0 <= k < bound.Length :: bound[k] == (old(bound[k]) || k < i)
      {
        bound[i] := true;
        i := i + 1;
      }
    }
  }

  // ----- a name that does not coalesce and is processed all the same

  /** Two weak holders of a name, one with an address, and after them a strong holder without one. */
  function UndecidedImages(): seq<Image> {
    [Image([Entry(1, true)], map[1 := 7], true, true), Image([Entry(1, true)], map[], true, true),
     Image([Entry(1, false)], map[], true, true)]
  }

  lemma UndecidedPicks()
    ensures !Coalesces(UndecidedImages(), 1) && Pick(Holders(UndecidedImages(), 1), UndecidedImages(), 1) == 0
    ensures Holders(UndecidedImages(), 1) == [Some(true), Some(true), Some(false)]
    ensures Pick([Some(true), Some(true), None], UndecidedImages(), 1) == 7
  {
    var images, all, fewer := UndecidedImages(), Holders(UndecidedImages(), 1), [Some(true), Some(true), None];
    assert all == [Some(true), Some(true), Some(false)];
    assert PickFrom(all, images, 1, 2, 7) == PickFrom(all, images, 1, 3, 0) == 0;
    assert PickFrom(all, images, 1, 1, 7) == 0;
    assert PickFrom(fewer, images, 1, 2, 7) == PickFrom(fewer, images, 1, 3, 7) == 7;
    assert PickFrom(fewer, images, 1, 1, 7) == 7;
  }

  /** An iterator before its stream without a flag; on the name, or done, whatever its flag. */
  ghost predicate Before1(it: CoalIterator) { it == CoalIterator(START, false, false, false, 0) }
  ghost predicate On1(it: CoalIterator, weak: bool) { it == CoalIterator(1, weak, it.matches, false, 1) }
  ghost predicate Done1(it: CoalIterator) { it.name == 2 && it.done }

  /** A position is what the order requires it to be. */
  lemma Place(its: seq<CoalIterator>, order: seq<nat>, its': seq<CoalIterator>, order': seq<nat>, p: nat, end: Name)
    requires Moves(UndecidedImages(), end, its, order, its', order', p) && |order| == 3
    ensures |its'| == 3 && p < 3
    ensures p == 0 ==> order' == order
    ensures p == 1 ==> order' == [order[1], order[0], order[2]]
    ensures p == 2 ==> order' == [order[1], order[2], order[0]]
  {
    hide Next;
  }

  lemma FirstRound(i0: seq<CoalIterator>, i1: seq<CoalIterator>, o1: seq<nat>, p: nat)
    requires |i0| == 3 && Before1(i0[0]) && Before1(i0[1]) && Before1(i0[2])
    requires Moves(UndecidedImages(), 2, i0, [0, 1, 2], i1, o1, p)
    ensures |i1| == 3 && o1 == [1, 2, 0] && On1(i1[0], true) && Before1(i1[1]) && Before1(i1[2])
  {
    Place(i0, [0, 1, 2], i1, o1, p, 2);
  }

  lemma SecondRound(i1: seq<CoalIterator>, i2: seq<CoalIterator>, o2: seq<nat>, p: nat)
    requires |i1| == 3 && On1(i1[0], true) && Before1(i1[1]) && Before1(i1[2])
    requires Moves(UndecidedImages(), 2, i1, [1, 2, 0], i2, o2, p)
    ensures |i2| == 3 && o2 == [2, 1, 0] && On1(i2[0], true) && On1(i2[1], true) && Before1(i2[2]) && i2[1].matches
  {
    Place(i1, [1, 2, 0], i2, o2, p, 2);
  }

  lemma ThirdRound(i2: seq<CoalIterator>, i3: seq<CoalIterator>, o3: seq<nat>, p: nat)
    requires |i2| == 3 && On1(i2[0], true) && On1(i2[1], true) && Before1(i2[2]) && i2[1].matches
    requires Moves(UndecidedImages(), 2, i2, [2, 1, 0], i3, o3, p)
    ensures |i3| == 3 && o3 == [2, 1, 0] && On1(i3[0], true) && On1(i3[1], true) && On1(i3[2], false) && i3[1].matches
    ensures OnName(i3, 1) == [Some(true), Some(true), Some(false)]
  {
    Place(i2, [2, 1, 0], i3, o3, p, 2);
  }

  lemma FourthRound(i3: seq<CoalIterator>, i4: seq<CoalIterator>, o4: seq<nat>, p: nat)
    requires |i3| == 3 && On1(i3[0], true) && On1(i3[1], true) && On1(i3[2], false) && i3[1].matches
    requires Moves(UndecidedImages(), 2, i3, [2, 1, 0], i4, o4, p)
    ensures |i4| == 3 && o4 == [1, 0, 2] && On1(i4[0], true) && On1(i4[1], true) && Done1(i4[2]) && i4[1].matches
    ensures OnName(i4, 1) == [Some(true), Some(true), None]
  {
    Place(i3, [2, 1, 0], i4, o4, p, 2);
  }

  lemma FifthRound(i4: seq<CoalIterator>, i5: seq<CoalIterator>, o5: seq<nat>, p: nat)
    requires |i4| == 3 && On1(i4[0], true) && On1(i4[1], true) && Done1(i4[2]) && !i4[0].matches
    requires Moves(UndecidedImages(), 2, i4, [1, 0, 2], i5, o5, p)
    ensures |i5| == 3 && o5 == [0, 1, 2] && On1(i5[0], true) && Done1(i5[1]) && Done1(i5[2]) && !i5[0].matches
  {
    Place(i4, [1, 0, 2], i5, o5, p, 2);
  }

  lemma SixthRound(i5: seq<CoalIterator>, i6: seq<CoalIterator>, o6: seq<nat>, p: nat)
    requires |i5| == 3 && On1(i5[0], true) && Done1(i5[1]) && Done1(i5[2])
    requires Moves(UndecidedImages(), 2, i5, [0, 1, 2], i6, o6, p)
    ensures |i6| == 3 && o6 == [0, 1, 2] && Done1(i6[0]) && Done1(i6[1]) && Done1(i6[2])
  {
    Place(i5, [0, 1, 2], i6, o6, p, 2);
  }

  /** The stages on these images. In the first three rounds nothing is processed: the lowest iterator is before its
      stream, or nothing is picked. The strong holder leaves in the fourth, and then the name is processed with the two
      holders left. */
  ghost predicate StageAt(s: Stage, n: nat) {
    && |s.its| == 3
    && s.processed == (if n < 4 then [] else [1])
    && s.founds == (if n < 4 then [] else [[Some(true), Some(true), None]])
    && match n
       case 0 => s.order == [0, 1, 2] && Before1(s.its[0]) && Before1(s.its[1]) && Before1(s.its[2])
       case 1 => s.order == [1, 2, 0] && On1(s.its[0], true) && Before1(s.its[1]) && Before1(s.its[2])
       case 2 =>
         s.order == [2, 1, 0] && On1(s.its[0], true) && On1(s.its[1], true) && Before1(s.its[2]) && s.its[1].matches
       case 3 =>
         s.order == [2, 1, 0] && On1(s.its[0], true) && On1(s.its[1], true) && On1(s.its[2], false) && s.its[1].matches
       case 4 =>
         s.order == [1, 0, 2] && On1(s.its[0], true) && On1(s.its[1], true) && Done1(s.its[2]) && !s.its[0].matches
       case 5 =>
         s.order == [0, 1, 2] && On1(s.its[0], true) && Done1(s.its[1]) && Done1(s.its[2]) && !s.its[0].matches
       case _ => Done1(s.its[0]) && Done1(s.its[1]) && Done1(s.its[2])
  }

  lemma NothingHandled(its: seq<CoalIterator>, order: seq<nat>, more: seq<Name>, found: Found, its': seq<CoalIterator>)
    requires Handled(UndecidedImages(), its, order, more, found, its')
    requires !its[order[0]].matches || its[order[0]].done
             || Pick(OnName(its, its[order[0]].name), UndecidedImages(), its[order[0]].name) == 0
    ensures more == [] && its' == its
  {
    hide Pick, OnName, UndecidedImages;
  }

  lemma NameHandled(its: seq<CoalIterator>, order: seq<nat>, more: seq<Name>, found: Found, its': seq<CoalIterator>)
    requires Handled(UndecidedImages(), its, order, more, found, its')
    requires |its| == 3 && order[0] == 1 && On1(its[1], true) && its[1].matches
    requires OnName(its, 1) == [Some(true), Some(true), None]
    ensures more == [1] && found == [Some(true), Some(true), None] && its' == Cleared(its, 1)
  {
    hide Pick, OnName, UndecidedImages, Cleared;
    UndecidedPicks();
  }

  lemma StageFollows(s: Stage, t: Stage, n: nat)
    requires n < 6 && StageAt(s, n) && Rounded(UndecidedImages(), 2, s, t)
    ensures StageAt(t, n + 1)
  {
    hide Moves, Handled, UndecidedImages, Pick, OnName, Cleared, CountDone;
    var its, p, more, found :| RoundedBy(UndecidedImages(), 2, s, t, its, p, more, found);
    if n == 0 {
      FirstRound(s.its, its, t.order, p);
      NothingHandled(its, t.order, more, found, t.its);
    } else if n == 1 {
      SecondRound(s.its, its, t.order, p);
      NothingHandled(its, t.order, more, found, t.its);
    } else if n == 2 {
      ThirdRound(s.its, its, t.order, p);
      UndecidedPicks();
      NothingHandled(its, t.order, more, found, t.its);
    } else if n == 3 {
      FourthRound(s.its, its, t.order, p);
      NameHandled(its, t.order, more, found, t.its);
      ClearedOne(its);
    } else if n == 4 {
      FifthRound(s.its, its, t.order, p);
      NothingHandled(its, t.order, more, found, t.its);
    } else {
      SixthRound(s.its, its, t.order, p);
      NothingHandled(its, t.order, more, found, t.its);
    }
  }

  lemma ClearedOne(its: seq<CoalIterator>)
    requires |its| == 3 && On1(its[0], true) && On1(its[1], true) && Done1(its[2])
    ensures var c := Cleared(its, 1);
            |c| == 3 && On1(c[0], true) && On1(c[1], true) && Done1(c[2]) && !c[0].matches
  {
  }

  lemma {:induction false} EachStage(trace: seq<Stage>, n: nat)
    requires Stages(UndecidedImages(), 2, trace) && n < |trace| && n <= 6
    ensures StageAt(trace[n], n)
  {
    hide UndecidedImages, Rounded;
    if n > 0 {
      EachStage(trace, n - 1);
      StageFollows(trace[n - 1], trace[n], n - 1);
    } else {
      assert |UndecidedImages()| == 3 by { ThreeImages(); }
      assert trace[0].order == [0, 1, 2];
    }
  }

  lemma ThreeImages()
    ensures |UndecidedImages()| == 3 && GoodImages(UndecidedImages(), 2)
  {
  }

  /** So every walk on these images processes the name, with two of its three holders, though nothing is picked from all
      of them. */
  lemma ProcessedLate(trace: seq<Stage>)
    requires Stages(UndecidedImages(), 2, trace) && CountDone(Last(trace).its) == |Last(trace).its|
    ensures Last(trace).processed == [1] && Last(trace).founds == [[Some(true), Some(true), None]]
  {
    hide UndecidedImages, Rounded, CountDone;
    var n := |trace| - 1;
    if n < 6 {
      EachStage(trace, n);
      StillGoing(trace[n], n);
    } else {
      EachStage(trace, 6);
      if n > 6 {
        assert Rounded(UndecidedImages(), 2, trace[6], trace[7]);
        NotRounded(trace[6], trace[7]);
      }
    }
  }

  lemma StillGoing(s: Stage, n: nat)
    requires n < 6 && StageAt(s, n)
    ensures CountDone(s.its) < |s.its|
  {
    assert !s.its[0].done;
  }

  lemma NotRounded(s: Stage, t: Stage)
    requires StageAt(s, 6)
    ensures !Rounded(UndecidedImages(), 2, s, t)
  {
    assert forall k | 0 <= k < 3 :: s.its[k].done;
  }

  /** The walk on these images, none of them bound: the two weak holders are pointed at the definition, the strong one
      is left out. */
  method WalkLate() returns (processed: seq<Name>, updates: seq<Update>)
    ensures !Coalesces(UndecidedImages(), 1) && processed == [1] && updates == [Update(0, 1, 7), Update(1, 1, 7)]
  {
    hide UndecidedImages, Pick, Coalesces, Stages, CountDone, Processed, Holders, Decided, AllUpdates;
    UndecidedPicks();
    ThreeImages();
    var bound := new bool[3](_ => false);
    ghost var founds, trace;
    processed, founds, updates, trace := Walk(UndecidedImages(), 2, bound);
    ProcessedLate(trace);
    assert bound[..] == [false, false, false];
    LateUpdates();
  }

  lemma {:induction false} LateUpdates()
    ensures AllUpdates(UndecidedImages(), [false, false, false], [1], [[Some(true), Some(true), None]])
            == [Update(0, 1, 7), Update(1, 1, 7)]
  {
    hide Pick;
    UndecidedPicks();
    var images, found: Found, bound := UndecidedImages(), [Some(true), Some(true), None], [false, false, false];
    assert [1][..0] == [] && [found][..0] == [];
    assert AllUpdates(images, bound, [], []) == [];
    assert UpdatesFor(found, images, bound, 1, 7, 0) == [];
    assert UpdatesFor(found, images, bound, 1, 7, 1) == [Update(0, 1, 7)];
    assert UpdatesFor(found, images, bound, 1, 7, 2) == [Update(0, 1, 7), Update(1, 1, 7)];
    assert UpdatesFor(found, images, bound, 1, 7, 3) == [Update(0, 1, 7), Update(1, 1, 7)];
  }
}
