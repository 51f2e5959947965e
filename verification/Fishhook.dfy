/** Rebinding symbols at run time: repeated calls stack up, each gives back what was there before. */
module Fishhook {
  import opened Bytes

  type Address = nat

  /** What to put in place of a symbol, and the cell that receives the old value, if any. */
  datatype Rebinding = Rebinding(name: Str, replacement: Address, replaced: Option<nat>)

  /** A run of slots that one section of lazy or non-lazy symbol pointers describes. */
  datatype Section = Section(start: nat, count: nat)

  /** The rebindings of one call. */
  type Call = seq<Rebinding>

  // ----- which rebinding applies

  /** The first rebinding of a name in one call. */
  function FirstIn(call: Call, name: Str): (j: nat)
    ensures j <= |call| && (forall i | 0 <= i < j :: call[i].name != name) && (j < |call| ==> call[j].name == name)
  {
    if call == [] || call[0].name == name then 0 else 1 + FirstIn(call[1..], name)
  }

  /** The latest call that rebinds a name; calls are kept latest first. */
  function Latest(calls: seq<Call>, name: Str): (e: nat)
    ensures e <= |calls| && (forall i | 0 <= i < e :: FirstIn(calls[i], name) == |calls[i]|)
    ensures e < |calls| ==> FirstIn(calls[e], name) < |calls[e]|
  {
    if calls == [] || FirstIn(calls[0], name) < |calls[0]| then 0 else 1 + Latest(calls[1..], name)
  }

  /** What a slot of this name should hold after these calls. */
  function Wanted(calls: seq<Call>, name: Str, original: Str -> Address): Address {
    var e := Latest(calls, name);
    if e < |calls| then calls[e][FirstIn(calls[e], name)].replacement else original(name)
  }

  /** A call that does not mention a name changes nothing for it. */
  lemma {:induction false} WantedBefore(calls: seq<Call>, name: Str, original: Str -> Address)
    requires calls != [] && Latest(calls, name) != 0
    ensures Wanted(calls, name, original) == Wanted(calls[1..], name, original)
  {
    assert Latest(calls, name) == 1 + Latest(calls[1..], name);
  }

  /** The search of perform_rebinding_with_section. */
  method FindRebinding(calls: seq<Call>, name: Str) returns (e: nat, j: nat)
    ensures e == Latest(calls, name) && (e < |calls| ==> j == FirstIn(calls[e], name))
  {
    e, j := 0, 0;
    while e < |calls|
      invariant e <= |calls| && forall i | 0 <= i < e :: FirstIn(calls[i], name) == |calls[i]|
    {
      j := 0;
      while j < |calls[e]|
        invariant j <= |calls[e]| && forall i | 0 <= i < j :: calls[e][i].name != name
      {
        if calls[e][j].name == name {
          return;
        }
        j := j + 1;
      }
      e := e + 1;
    }
  }

  // ----- one slot

  /** The symbol a slot is bound by; absolute and local slots have none. */
  type Symbol = Option<Str>

  /** The name that rebindings are compared with: the symbol without its leading character. */
  function KeyOf(symbol: Symbol): Option<Str> {
    if symbol.Some? && |symbol.value| > 1 then Some(symbol.value[1..]) else None
  }

  /** The slots and the cells that receive old values. */
  datatype Memory = Memory(bindings: seq<Address>, cells: seq<Address>)

  /** The effect of one round of the loop of perform_rebinding_with_section. */
  function Visit(calls: seq<Call>, symbol: Symbol, i: nat, m: Memory): Memory
    requires i < |m.bindings| && CellsExist(calls, |m.cells|)
  {
    var key := KeyOf(symbol);
    if key == None then m else
      var e := Latest(calls, key.value);
      if e == |calls| then m else
        var r := calls[e][FirstIn(calls[e], key.value)];
        Memory(m.bindings[i := r.replacement],
               if r.replaced.Some? && m.bindings[i] != r.replacement then m.cells[r.replaced.value := m.bindings[i]]
               else m.cells)
  }

  /** Every rebinding that asks for the old value has a cell for it. */
  ghost predicate CellsExist(calls: seq<Call>, count: nat) {
    forall e, j | 0 <= e < |calls| && 0 <= j < |calls[e]| && calls[e][j].replaced.Some? ::
      calls[e][j].replaced.value < count
  }

  /** No two rebindings share a cell. */
  ghost predicate CellsApart(calls: seq<Call>, count: nat) {
    && CellsExist(calls, count)
    && forall e, j, d, h | 0 <= e < |calls| && 0 <= j < |calls[e]| && 0 <= d < |calls| && 0 <= h < |calls[d]|
       && (e, j) != (d, h)
           && calls[e][j].replaced.Some? && calls[d][h].replaced.Some? :: calls[e][j].replaced != calls[d][h].replaced
  }

  /** The slot carries this name. */
  ghost predicate Bound(symbols: seq<Symbol>, i: nat, name: Str) {
    i < |symbols| && KeyOf(symbols[i]) == Some(name)
  }

  /** A call that changed what a name is bound to has saved what it was bound to before. */
  ghost predicate Saved(calls: seq<Call>, e: nat, name: Str, original: Str -> Address, cells: seq<Address>)
    requires e < |calls| && CellsApart(calls, |cells|)
  {
    var j, before := FirstIn(calls[e], name), Wanted(calls[e + 1..], name, original);
    j < |calls[e]| && calls[e][j].replaced.Some? && calls[e][j].replacement != before ==>
      cells[calls[e][j].replaced.value] == before
  }

  /** Visited slots hold what they should after all these calls, the other slots what they should before the latest
      one. */
  ghost predicate SlotsHold(symbols: seq<Symbol>, slots: set<nat>, calls: seq<Call>, visited: set<nat>,
                            original: Str -> Address, bindings: seq<Address>)
    requires |bindings| == |symbols| && calls != []
  {
    forall i: nat, name | i in slots && Bound(symbols, i, name) ::
      bindings[i] == Wanted(if i in visited then calls else calls[1..], name, original)
  }

  /** The older calls have saved what they replaced, and so has the latest one for the names it has met. */
  ghost predicate AllSaved(symbols: seq<Symbol>, slots: set<nat>, calls: seq<Call>, visited: set<nat>,
                           original: Str -> Address, cells: seq<Address>)
    requires CellsApart(calls, |cells|)
  {
    forall e: nat, i: nat, name | e < |calls| && i in slots && Bound(symbols, i, name) && (e > 0 || i in visited) ::
      Saved(calls, e, name, original, cells)
  }

  /** In the middle of a scan for the latest call. */
  ghost predicate Scanned(symbols: seq<Symbol>, slots: set<nat>, calls: seq<Call>, visited: set<nat>,
                          original: Str -> Address, m: Memory)
  {
    && |m.bindings| == |symbols| && calls != [] && CellsApart(calls, |m.cells|)
    && SlotsHold(symbols, slots, calls, visited, original, m.bindings)
    && AllSaved(symbols, slots, calls, visited, original, m.cells)
  }

  /** Between scans: every slot holds the latest replacement of its name, and every call saved what it replaced. */
  ghost predicate Hooked(symbols: seq<Symbol>, slots: set<nat>, calls: seq<Call>, original: Str -> Address, m: Memory) {
    && |m.bindings| == |symbols| && CellsApart(calls, |m.cells|)
    && (forall i: nat, name | i in slots && Bound(symbols, i, name) :: m.bindings[i] == Wanted(calls, name, original))
    && (forall e: nat, i: nat, name | e < |calls| && i in slots && Bound(symbols, i, name) ::
          Saved(calls, e, name, original, m.cells))
  }

  /** A slot whose name the latest call does not rebind, or that was visited already, is left alone with every cell. */
  lemma {:induction false} VisitAgain(symbols: seq<Symbol>, slots: set<nat>, calls: seq<Call>, visited: set<nat>,
                                      original: Str -> Address, m: Memory, i: nat, name: Str)
    requires Scanned(symbols, slots, calls, visited, original, m) && i in slots && Bound(symbols, i, name)
    requires i in visited || Latest(calls, name) != 0
    ensures Visit(calls, symbols[i], i, m) == m
    ensures m.bindings[i] == Wanted(calls, name, original)
  {
    hide Saved, CellsApart;
    if Latest(calls, name) != 0 {
      WantedBefore(calls, name, original);
    }
    assert m.bindings[i] == Wanted(calls, name, original);
  }

  /** A first visit saves the old value and leaves the cells that belong to other names and other calls. */
  lemma {:induction false} VisitSaves(calls: seq<Call>, symbol: Symbol, i: nat, m: Memory, original: Str -> Address,
                                      name: Str, e: nat, other: Str)
    requires CellsApart(calls, |m.cells|) && e < |calls| && i < |m.bindings|
    requires KeyOf(symbol) == Some(name) && Latest(calls, name) == 0
    requires m.bindings[i] == Wanted(calls[1..], name, original)
    requires (other == name && e == 0) || Saved(calls, e, other, original, m.cells)
    ensures |Visit(calls, symbol, i, m).cells| == |m.cells|
    ensures Saved(calls, e, other, original, Visit(calls, symbol, i, m).cells)
  {
    hide KeyOf, Wanted;
    var r := calls[0][FirstIn(calls[0], name)];
    var j := FirstIn(calls[e], other);
    if j < |calls[e]| && (e, j) != (0, FirstIn(calls[0], name)) {
      assert r.replaced.Some? && calls[e][j].replaced.Some? ==> calls[e][j].replaced != r.replaced;
    }
  }

  /** What a first visit writes into the slot, and that no cell goes away. */
  lemma {:induction false} VisitWrites(calls: seq<Call>, symbol: Symbol, i: nat, m: Memory, original: Str -> Address,
                                       name: Str)
    requires KeyOf(symbol) == Some(name) && Latest(calls, name) == 0 && calls != [] && i < |m.bindings|
    requires CellsExist(calls, |m.cells|)
    ensures var after := Visit(calls, symbol, i, m);
            after.bindings == m.bindings[i := Wanted(calls, name, original)] && |after.cells| == |m.cells|
  {
    hide KeyOf;
  }

  /** One more slot holds the latest replacement. */
  lemma {:induction false} SlotsNext(symbols: seq<Symbol>, slots: set<nat>, calls: seq<Call>, visited: set<nat>,
                                     original: Str -> Address, bindings: seq<Address>, i: nat, name: Str)
    requires |bindings| == |symbols| && calls != [] && i in slots && Bound(symbols, i, name)
    requires SlotsHold(symbols, slots, calls, visited, original, bindings)
    ensures SlotsHold(symbols, slots, calls, visited + {i}, original, bindings[i := Wanted(calls, name, original)])
  {
    hide Wanted, KeyOf;
  }

  /** One more name has been saved for. */
  lemma {:induction false} SavedNext(symbols: seq<Symbol>, slots: set<nat>, calls: seq<Call>, visited: set<nat>,
                                     original: Str -> Address, m: Memory, i: nat, name: Str)
    requires Scanned(symbols, slots, calls, visited, original, m) && i in slots && Bound(symbols, i, name)
    requires i !in visited && Latest(calls, name) == 0
    requires |Visit(calls, symbols[i], i, m).cells| == |m.cells|
    ensures AllSaved(symbols, slots, calls, visited + {i}, original, Visit(calls, symbols[i], i, m).cells)
  {
    hide Visit, KeyOf, Saved, Wanted, CellsExist;
    forall e: nat, k: nat, other |
      e < |calls| && k in slots && Bound(symbols, k, other) && (e > 0 || k in visited + {i})
      ensures Saved(calls, e, other, original, Visit(calls, symbols[i], i, m).cells)
    {
      assert k == i ==> other == name;
      VisitSaves(calls, symbols[i], i, m, original, name, e, other);
    }
  }

  /** A first visit by the latest call keeps the picture. */
  lemma {:induction false} FirstVisit(symbols: seq<Symbol>, slots: set<nat>, calls: seq<Call>, visited: set<nat>,
                                      original: Str -> Address, m: Memory, i: nat, name: Str)
    requires Scanned(symbols, slots, calls, visited, original, m) && i in slots && Bound(symbols, i, name)
    requires i !in visited && Latest(calls, name) == 0
    ensures Scanned(symbols, slots, calls, visited + {i}, original, Visit(calls, symbols[i], i, m))
  {
    hide Visit, KeyOf, Saved, Wanted, SlotsHold, AllSaved, CellsExist;
    VisitWrites(calls, symbols[i], i, m, original, name);
    SlotsNext(symbols, slots, calls, visited, original, m.bindings, i, name);
    SavedNext(symbols, slots, calls, visited, original, m, i, name);
  }

  /** One round keeps the picture, with one more slot visited. */
  lemma VisitScanned(symbols: seq<Symbol>, slots: set<nat>, calls: seq<Call>, visited: set<nat>,
                     original: Str -> Address, m: Memory, i: nat)
    requires Scanned(symbols, slots, calls, visited, original, m) && i in slots && i < |symbols|
    ensures Scanned(symbols, slots, calls, visited + {i}, original, Visit(calls, symbols[i], i, m))
  {
    hide Wanted, CellsApart;
    if KeyOf(symbols[i]) != None {
      var name := KeyOf(symbols[i]).value;
      assert Bound(symbols, i, name);
      if i in visited || Latest(calls, name) != 0 {
        VisitAgain(symbols, slots, calls, visited, original, m, i, name);
      } else {
        FirstVisit(symbols, slots, calls, visited, original, m, i, name);
      }
    }
  }

  // ----- whole scans

  /** The slots in this order exist. */
  ghost predicate Slots(order: seq<nat>, count: nat) {
    forall k | 0 <= k < |order| :: order[k] < count
  }

  ghost predicate Among(order: seq<nat>, slots: set<nat>) {
    forall k | 0 <= k < |order| :: order[k] in slots
  }

  /** The effect of visiting these slots in turn. */
  ghost function VisitAll(calls: seq<Call>, symbols: seq<Symbol>, order: seq<nat>, m: Memory): (after: Memory)
    requires |m.bindings| == |symbols| && CellsExist(calls, |m.cells|) && Slots(order, |symbols|)
    ensures |after.bindings| == |m.bindings| && |after.cells| == |m.cells|
  {
    if order == [] then m else
      var last := order[|order| - 1];
      Visit(calls, symbols[last], last, VisitAll(calls, symbols, order[..|order| - 1], m))
  }

  lemma {:induction false} VisitAllSplit(calls: seq<Call>, symbols: seq<Symbol>, first: seq<nat>, second: seq<nat>,
                                         m: Memory)
    requires |m.bindings| == |symbols| && CellsExist(calls, |m.cells|)
    requires Slots(first, |symbols|) && Slots(second, |symbols|)
    ensures VisitAll(calls, symbols, first + second, m)
            == VisitAll(calls, symbols, second, VisitAll(calls, symbols, first, m))
  {
    hide Visit;
    if second == [] {
      assert first + second == first;
    } else {
      assert (first + second)[..|first + second| - 1] == first + second[..|second| - 1];
      VisitAllSplit(calls, symbols, first, second[..|second| - 1], m);
    }
  }

  /** A scan that meets every slot leaves every slot with its latest replacement and every old value saved. */
  lemma {:induction false} ScanHooks(symbols: seq<Symbol>, calls: seq<Call>, original: Str -> Address, m: Memory,
                                     order: seq<nat>, slots: set<nat>)
    requires Scanned(symbols, slots, calls, {}, original, m) && Slots(order, |symbols|) && Among(order, slots)
    ensures Scanned(symbols, slots, calls, Members(order), original, VisitAll(calls, symbols, order, m))
  {
    assert CellsExist(calls, |m.cells|);
    hide SlotsHold, AllSaved, Visit, CellsApart;
    if order == [] {
      assert Members(order) == {};
    } else {
      var n := |order| - 1;
      ScanHooks(symbols, calls, original, m, order[..n], slots);
      VisitScanned(symbols, slots, calls, Members(order[..n]), original, VisitAll(calls, symbols, order[..n], m),
                   order[n]);
      assert (Members(order[..n])) + {order[n]} == Members(order) by {
        assert order == order[..n] + [order[n]];
      }
    }
  }

  /** A new call shifts the older ones by one place and leaves what they saved. */
  lemma ShiftSaved(calls: seq<Call>, call: Call, e: nat, name: Str, original: Str -> Address, cells: seq<Address>)
    requires CellsApart(calls, |cells|) && CellsApart([call] + calls, |cells|)
    requires e < |calls| && Saved(calls, e, name, original, cells)
    ensures Saved([call] + calls, e + 1, name, original, cells)
  {
    hide CellsApart, CellsExist;
    assert ([call] + calls)[e + 2..] == calls[e + 1..];
  }

  /** One more call, followed by a scan of every slot, keeps every slot and every saved value right. */
  lemma {:induction false} CallHooks(symbols: seq<Symbol>, calls: seq<Call>, call: Call, original: Str -> Address,
                                     m: Memory, order: seq<nat>)
    requires Slots(order, |symbols|) && Hooked(symbols, Members(order), calls, original, m)
    requires CellsApart([call] + calls, |m.cells|)
    ensures Hooked(symbols, Members(order), [call] + calls, original, VisitAll([call] + calls, symbols, order, m))
  {
    hide Saved, CellsExist, CellsApart, Wanted, VisitAll;
    var all, slots := [call] + calls, Members(order);
    assert SlotsHold(symbols, slots, all, {}, original, m.bindings) by {
      assert all[1..] == calls;
    }
    forall e: nat, i: nat, name | e < |all| && i in slots && Bound(symbols, i, name) && e > 0
      ensures Saved(all, e, name, original, m.cells)
    {
      ShiftSaved(calls, call, e - 1, name, original, m.cells);
    }
    ScanHooks(symbols, all, original, m, order, slots);
  }

  /** Scanning again changes nothing. */
  lemma {:induction false} RescanStill(symbols: seq<Symbol>, slots: set<nat>, calls: seq<Call>,
                                       original: Str -> Address, m: Memory, order: seq<nat>)
    requires Hooked(symbols, slots, calls, original, m) && Slots(order, |symbols|) && Among(order, slots)
    ensures VisitAll(calls, symbols, order, m) == m
  {
    if order != [] {
      var i := order[|order| - 1];
      RescanStill(symbols, slots, calls, original, m, order[..|order| - 1]);
      assert KeyOf(symbols[i]) != None ==> Bound(symbols, i, KeyOf(symbols[i]).value);
    }
  }

  /** Slots that are not met or have no name stay as they are, and so do cells that no first rebinding of a name asks
      for. */
  lemma {:induction false} ScanLeavesAlone(calls: seq<Call>, symbols: seq<Symbol>, order: seq<nat>, m: Memory)
    requires |m.bindings| == |symbols| && CellsExist(calls, |m.cells|) && Slots(order, |symbols|)
    ensures forall k | 0 <= k < |symbols| && (k !in order || KeyOf(symbols[k]) == None) ::
              VisitAll(calls, symbols, order, m).bindings[k] == m.bindings[k]
    ensures forall c | 0 <= c < |m.cells|
            && (forall e, j | 0 <= e < |calls| && 0 <= j < |calls[e]| :: calls[e][j].replaced != Some(c)) ::
      VisitAll(calls, symbols, order, m).cells[c] == m.cells[c]
  {
    if order != [] {
      ScanLeavesAlone(calls, symbols, order[..|order| - 1], m);
    }
  }

  /** When every call rebinds the name, each call saved the replacement of the call before it, and the first call the
      original. */
  lemma {:induction false} SavedChain(symbols: seq<Symbol>, slots: set<nat>, calls: seq<Call>,
                                      original: Str -> Address, m: Memory, i: nat, name: Str, e: nat)
    requires Hooked(symbols, slots, calls, original, m) && i in slots && Bound(symbols, i, name) && e < |calls|
    requires forall d | 0 <= d < |calls| :: FirstIn(calls[d], name) < |calls[d]|
    requires calls[e][FirstIn(calls[e], name)].replaced.Some?
    ensures m.bindings[i] == calls[0][FirstIn(calls[0], name)].replacement
    ensures var r := calls[e][FirstIn(calls[e], name)];
      var before := if e + 1 < |calls| then calls[e + 1][FirstIn(calls[e + 1], name)].replacement else original(name);
      r.replacement != before ==> m.cells[r.replaced.value] == before
  {
    assert Saved(calls, e, name, original, m.cells);
    var rest := calls[e + 1..];
    assert rest != [] ==> rest[0] == calls[e + 1];
  }

  /**
    * An image loaded later starts from the original value. The scan that meets it keeps what the latest call for the
    * name has saved exactly if that call saves nothing, asks for the original value or for what was there before, or
    * found the original value itself: otherwise the chain through the older call is lost.
    */
  lemma {:induction false} LateImage(symbols: seq<Symbol>, slots: set<nat>, calls: seq<Call>, original: Str -> Address,
                                     m: Memory, i: nat, name: Str, old_: nat)
    requires Hooked(symbols, slots, calls, original, m) && old_ in slots && Bound(symbols, old_, name)
    requires Bound(symbols, i, name) && m.bindings[i] == original(name) && Latest(calls, name) < |calls|
    ensures var e := Latest(calls, name);
            var r, before := calls[e][FirstIn(calls[e], name)], Wanted(calls[e + 1..], name, original);
            var after := Visit(calls, symbols[i], i, m);
            && |after.cells| == |m.cells| && after.bindings == m.bindings[i := r.replacement]
            && (Saved(calls, e, name, original, after.cells)
                <==> r.replaced.None? || r.replacement == original(name) || r.replacement == before
                     || before == original(name))
  {
    hide CellsApart, CellsExist, Wanted;
    var e := Latest(calls, name);
    assert Saved(calls, e, name, original, m.cells);
    if calls[e][FirstIn(calls[e], name)].replaced.Some? {
      CellThere(calls, |m.cells|, e, FirstIn(calls[e], name));
    }
  }

  lemma CellThere(calls: seq<Call>, count: nat, e: nat, j: nat)
    requires CellsApart(calls, count) && e < |calls| && j < |calls[e]| && calls[e][j].replaced.Some?
    ensures calls[e][j].replaced.value < count
  {
  }

  const LATER: Call := [Rebinding([102], 20, Some(0))]
  const EARLIER: Call := [Rebinding([102], 10, None)]

  lemma TwoCalls(original: Str -> Address)
    ensures Latest([LATER, EARLIER], [102]) == 0 && FirstIn(LATER, [102]) == 0 && FirstIn(EARLIER, [102]) == 0
    ensures KeyOf(Some([95, 102])) == Some([102])
    ensures Wanted([LATER, EARLIER], [102], original) == 20 && Wanted([LATER, EARLIER][1..], [102], original) == 10
  {
    assert [95, 102][1..] == [102];
    assert [LATER, EARLIER][1..] == [EARLIER];
  }

  lemma TwoCallsHooked(original: Str -> Address)
    ensures CellsApart([LATER, EARLIER], 1)
    ensures Hooked([Some([95, 102])], {0}, [LATER, EARLIER], original, Memory([20], [10]))
  {
    hide Wanted, Latest, FirstIn, KeyOf;
    TwoCalls(original);
    forall e: nat, name | e < 2 && Bound([Some([95, 102])], 0, name)
      ensures Saved([LATER, EARLIER], e, name, original, [10])
    {
      assert name == [102];
    }
  }

  /** Two calls for one name, and an image that is loaded afterwards: the latest call now gives back the original
      value. */
  lemma LateImageForgets(original: Str -> Address)
    requires original([102]) == 5
    ensures
      var symbol: Symbol := Some([95, 102]);
      var m := Memory([20], [10]);
      && Hooked([symbol], {0}, [LATER, EARLIER], original, m)
      && CellsExist([LATER, EARLIER], 1)
      && Visit([LATER, EARLIER], symbol, 1, m.(bindings := [20, original([102])])) == Memory([20, 20], [5])
  {
    hide Hooked, Wanted, Latest, FirstIn, KeyOf;
    TwoCalls(original);
    TwoCallsHooked(original);
  }

  // ----- the running process

  /** The slots of one section, in order. */
  function Span(start: nat, count: nat): (r: seq<nat>)
    ensures |r| == count && forall k | 0 <= k < count :: r[k] == start + k
  {
    seq(count, k requires 0 <= k < count => start + k)
  }

  /** The slots of these sections, in order. */
  function Order(sections: seq<Section>): seq<nat> {
    if sections == [] then [] else Order(sections[..|sections| - 1]) + Span(Last(sections).start, Last(sections).count)
  }

  /** These calls, latest first. */
  function Reversed(news: seq<Call>): (r: seq<Call>)
    ensures |r| == |news| && forall k | 0 <= k < |news| :: r[k] == news[|news| - 1 - k]
  {
    seq(|news|, k requires 0 <= k < |news| => news[|news| - 1 - k])
  }

  lemma ReversedNext(news: seq<Call>, k: nat, count: nat)
    requires k < |news| && CellsApart(Reversed(news), count)
    ensures Reversed(news[..k + 1]) == [news[k]] + Reversed(news[..k]) && CellsApart(Reversed(news[..k + 1]), count)
  {
    var a, b, skipped := Reversed(news), Reversed(news[..k + 1]), |news| - k - 1;
    assert forall e | 0 <= e < |b| :: b[e] == a[e + skipped];
  }

  /** The symbol pointers of a process, by section, and the calls made so far, latest first. */
  class Process {
    const symbols: seq<Symbol>
    const sections: seq<Section>
    const bindings: array<Address>
    const cells: array<Address>
    var calls: seq<Call>

    constructor (symbols: seq<Symbol>, sections: seq<Section>, bindings: array<Address>, cells: array<Address>)
      ensures this.symbols == symbols && this.sections == sections
      ensures this.bindings == bindings && this.cells == cells && calls == []
    {
      this.symbols, this.sections, this.bindings, this.cells, calls := symbols, sections, bindings, cells, [];
    }

    ghost function Contents(): Memory
      reads bindings, cells
    {
      Memory(bindings[..], cells[..])
    }

    /** The tables fit together. */
    ghost predicate Valid() {
      && |symbols| == bindings.Length && bindings != cells
      && forall s | 0 <= s < |sections| :: sections[s].start + sections[s].count <= bindings.Length
    }

    /** One round of the loop of perform_rebinding_with_section. */
    method VisitSlot(i: nat)
      requires Valid() && i < bindings.Length && CellsExist(calls, cells.Length)
      modifies bindings, cells
      ensures Contents() == Visit(calls, symbols[i], i, old(Contents()))
    {
      var symbol := symbols[i];
      if symbol == None || |symbol.value| <= 1 {
        return;
      }
      var e, j := FindRebinding(calls, symbol.value[1..]);
      if e < |calls| {
        var r := calls[e][j];
        if r.replaced != None && bindings[i] != r.replacement {
          cells[r.replaced.value] := bindings[i];
        }
        bindings[i] := r.replacement;
      }
    }

    method PerformRebindingWithSection(section: Section)
      requires Valid() && section.start + section.count <= bindings.Length && CellsExist(calls, cells.Length)
      modifies bindings, cells
      ensures Slots(Span(section.start, section.count), |symbols|)
      ensures Contents() == VisitAll(calls, symbols, Span(section.start, section.count), old(Contents()))
    {
      hide Visit, CellsExist;
      ghost var order := Span(section.start, section.count);
      var i := 0;
      while i < section.count
        invariant i <= section.count && Slots(order[..i], |symbols|)
        invariant Contents() == VisitAll(calls, symbols, order[..i], old(Contents()))
      {
        VisitSlot(section.start + i);
        i := i + 1;
        assert order[..i][..i - 1] == order[..i - 1];
      }
      assert order[..i] == order;
    }

    /** Scan every image; a first call reaches the images that are there through the callback it registers. */
    method RebindSymbolsForImages()
      requires Valid() && CellsExist(calls, cells.Length)
      modifies bindings, cells
      ensures Slots(Order(sections), |symbols|)
      ensures Contents() == VisitAll(calls, symbols, Order(sections), old(Contents()))
    {
      hide Visit, CellsExist;
      var s := 0;
      assert sections[..0] == [];
      while s < |sections|
        invariant s <= |sections| && Slots(Order(sections[..s]), |symbols|)
        invariant Contents() == VisitAll(calls, symbols, Order(sections[..s]), old(Contents()))
      {
        PerformRebindingWithSection(sections[s]);
        ghost var before := Order(sections[..s]);
        VisitAllSplit(calls, symbols, before, Span(sections[s].start, sections[s].count), old(Contents()));
        s := s + 1;
        assert sections[..s][..s - 1] == sections[..s - 1] && Last(sections[..s]) == sections[s - 1];
      }
      assert sections[..s] == sections;
    }

    /** Without room for the entry nothing happens; otherwise the call is put first and every image is scanned. */
    method RebindSymbols(call: Call, room: bool, ghost original: Str -> Address) returns (r: int)
      requires Valid() && Slots(Order(sections), |symbols|)
      requires Hooked(symbols, Members(Order(sections)), calls, original, Contents())
      requires CellsApart([call] + calls, cells.Length)
      modifies this, bindings, cells
      ensures r == if room then 0 else -1
      ensures calls == if room then [call] + old(calls) else old(calls)
      ensures CellsExist([call] + old(calls), cells.Length)
      ensures Contents() == if room then VisitAll(calls, symbols, Order(sections), old(Contents())) else old(Contents())
      ensures Hooked(symbols, Members(Order(sections)), calls, original, Contents())
    {
      if !room {
        return -1;
      }
      calls := [call] + calls;
      RebindSymbolsForImages();
      CallHooks(symbols, old(calls), call, original, old(Contents()), Order(sections));
      return 0;
    }

    /** Any number of calls, from the original state: every slot holds the latest replacement, every old value is
        saved. */
    method RebindAll(news: seq<Call>, ghost original: Str -> Address)
      requires Valid() && Slots(Order(sections), |symbols|) && calls == [] && CellsApart(Reversed(news), cells.Length)
      requires forall i: nat, name | i in Members(Order(sections)) && Bound(symbols, i, name) ::
                 bindings[i] == original(name)
      modifies this, bindings, cells
      ensures calls == Reversed(news)
      ensures Hooked(symbols, Members(Order(sections)), calls, original, Contents())
    {
      var k := 0;
      while k < |news|
        invariant k <= |news| && calls == Reversed(news[..k])
        invariant Hooked(symbols, Members(Order(sections)), calls, original, Contents())
      {
        hide Hooked, CellsApart, CellsExist;
        ReversedNext(news, k, cells.Length);
        var _ := RebindSymbols(news[k], true, original);
        k := k + 1;
      }
      assert news[..k] == news;
    }
  }

  // ----- by the bytes of the names

  /** After the calls, a slot whose symbol is some byte (the underscore) followed by a name holds the replacement of the
      latest call with an entry for the name, the first such entry, or the original value if there is none. */
  lemma {:induction false} HookedSlot(symbols: seq<Symbol>, slots: set<nat>, calls: seq<Call>,
                                      original: Str -> Address, m: Memory, i: nat, c: byte, name: Str, e: nat, j: nat)
    requires Hooked(symbols, slots, calls, original, m) && i in slots && i < |symbols|
    requires symbols[i] == Some([c] + name) && name != []
    requires e <= |calls| && (e < |calls| ==> j < |calls[e]| && calls[e][j].name == name)
    requires forall d, h | 0 <= d < |calls| && 0 <= h < |calls[d]| && (d < e || (d == e && h < j)) ::
               calls[d][h].name != name
    ensures m.bindings[i] == if e < |calls| then calls[e][j].replacement else original(name)
  {
    assert ([c] + name)[1..] == name;
    assert Bound(symbols, i, name);
    WantedIs(calls, name, original, e, j);
  }

  lemma {:induction false} WantedIs(calls: seq<Call>, name: Str, original: Str -> Address, e: nat, j: nat)
    requires e <= |calls| && (e < |calls| ==> j < |calls[e]| && calls[e][j].name == name)
    requires forall d, h | 0 <= d < |calls| && 0 <= h < |calls[d]| && (d < e || (d == e && h < j)) ::
               calls[d][h].name != name
    ensures Wanted(calls, name, original) == if e < |calls| then calls[e][j].replacement else original(name)
  {
    if e < |calls| {
      EntryIs(calls[e], name, j);
    }
    forall d: nat | d < e
      ensures FirstIn(calls[d], name) == |calls[d]|
    {
    }
    var l := Latest(calls, name);
    assert !(l < e) && !(e < l);
  }

  lemma {:induction false} EntryIs(call: Call, name: Str, j: nat)
    requires j < |call| && call[j].name == name && forall h | 0 <= h < j :: call[h].name != name
    ensures FirstIn(call, name) == j
  {
    var l := FirstIn(call, name);
    assert !(l < j) && !(j < l);
  }

  /** A slot without a symbol, or with one of fewer than two bytes, is never touched. */
  lemma {:induction false} NamelessSlot(calls: seq<Call>, symbols: seq<Symbol>, order: seq<nat>, m: Memory, i: nat)
    requires |m.bindings| == |symbols| && CellsExist(calls, |m.cells|) && Slots(order, |symbols|) && i < |symbols|
    requires symbols[i] == None || |symbols[i].value| < 2
    ensures VisitAll(calls, symbols, order, m).bindings[i] == m.bindings[i]
  {
    ScanLeavesAlone(calls, symbols, order, m);
  }
}
