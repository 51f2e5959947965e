/** Sources and observers of run loops: which modes hold them and what they know about it, over every history. */
module RunLoopItems {
  import opened Bytes

  type Name = nat

  /** A source of version 0 or 1. `runLoops` is its bag of run loops, None while the bag has not been created. */
  class Source {
    const version1: bool
    var runLoops: Option<multiset<RunLoop>>
    var valid: bool

    constructor (version1: bool)
      ensures this.version1 == version1 && runLoops == None && valid
    {
      this.version1, runLoops, valid := version1, None, true;
    }
  }

  class Observer {
    const order: int
    var runLoop: RunLoop?
    var rlCount: int
    var valid: bool

    constructor (order: int)
      ensures this.order == order && runLoop == null && rlCount == 0 && valid
    {
      this.order, runLoop, rlCount, valid := order, null, 0, true;
    }
  }

  /** The two source sets of a mode. */
  datatype Sources = Sources(sources0: set<Source>, sources1: set<Source>)

  predicate Holds(s: Sources, x: Source) {
    x in s.sources0 || x in s.sources1
  }

  /** The sets with a source in the one of its version. */
  ghost function Joined(s: Sources, x: Source): Sources {
    if Holds(s, x) then s
    else if x.version1 then s.(sources1 := s.sources1 + {x})
    else s.(sources0 := s.sources0 + {x})
  }

  /** The modes that hold a source. */
  ghost function HoldingSource(sources: map<Name, Sources>, x: Source): (ms: set<Name>)
    ensures forall m :: m in ms <==> m in sources && Holds(sources[m], x)
  {
    set m | m in sources && Holds(sources[m], x)
  }

  ghost function HoldingObserver(observers: map<Name, seq<Observer>>, x: Observer): (ms: set<Name>)
    ensures forall m :: m in ms <==> m in observers && x in observers[m]
  {
    set m | m in observers && x in observers[m]
  }

  lemma OneMore(a: set<Name>, b: set<Name>, m: Name)
    requires m !in a && b == a + {m}
    ensures |b| == |a| + 1
  {
  }

  lemma SourceJoins(before: map<Name, Sources>, m: Name, s: Sources, x: Source)
    requires !(m in before && Holds(before[m], x)) && Holds(s, x)
    requires forall y | y != x :: Holds(s, y) <==> m in before && Holds(before[m], y)
    ensures |HoldingSource(before[m := s], x)| == |HoldingSource(before, x)| + 1
    ensures forall y | y != x :: HoldingSource(before[m := s], y) == HoldingSource(before, y)
  {
    hide HoldingSource;
    OneMore(HoldingSource(before, x), HoldingSource(before[m := s], x), m);
    forall y | y != x
      ensures HoldingSource(before[m := s], y) == HoldingSource(before, y)
    {
    }
  }

  lemma SourceLeaves(before: map<Name, Sources>, m: Name, s: Sources, x: Source)
    requires m in before && Holds(before[m], x) && !Holds(s, x)
    requires forall y | y != x :: Holds(s, y) <==> Holds(before[m], y)
    ensures |HoldingSource(before[m := s], x)| == |HoldingSource(before, x)| - 1
    ensures HoldingSource(before[m := s], x) == HoldingSource(before, x) - {m}
    ensures forall y | y != x :: HoldingSource(before[m := s], y) == HoldingSource(before, y)
  {
    hide HoldingSource;
    OneMore(HoldingSource(before[m := s], x), HoldingSource(before, x), m);
    forall y | y != x
      ensures HoldingSource(before[m := s], y) == HoldingSource(before, y)
    {
    }
  }

  lemma SourceEmpty(x: Source)
    ensures forall y :: !Holds(Sources({}, {}), y)
  {
  }

  /** What a source knows of the run loops whose modes hold it: their number, run loop by run loop; nothing at all if it
      has no bag. */
  ghost predicate BagRight(x: Source, r: RunLoop)
    reads x`runLoops, r`sources
  {
    var n := |HoldingSource(r.sources, x)|;
    match x.runLoops
    case None => n == 0
    case Some(bag) => bag[r] == n
  }

  ghost predicate SourceWorld(rls: set<RunLoop>, xs: set<Source>)
    reads rls`sources, xs`runLoops
  {
    && (forall x, r | x in xs && r in rls :: BagRight(x, r))
    && (forall x, r | x in xs && x.runLoops.Some? && r in x.runLoops.value :: r in rls)
  }

  /** Invalidated sources are in no mode. */
  ghost predicate SourcesRetired(rls: set<RunLoop>, xs: set<Source>)
    reads rls`sources, xs`valid
  {
    forall x, r | x in xs && !x.valid && r in rls :: HoldingSource(r.sources, x) == {}
  }

  // ----- observers

  ghost predicate InOrder(q: seq<Observer>) {
    forall i, j | 0 <= i < j < |q| :: q[i].order <= q[j].order
  }

  /** The observer stands behind every observer of its order or a lower one, and before all others. */
  ghost predicate InsertedAt(q: seq<Observer>, x: Observer, i: nat, q': seq<Observer>) {
    && i <= |q| && q' == q[..i] + [x] + q[i..]
    && (forall k | 0 <= k < i :: q[k].order <= x.order) && (forall k | i <= k < |q| :: q[k].order > x.order)
  }

  /** The insertion loop of CFRunLoopAddObserver, from the end of the array. */
  method InsertObserver(q: seq<Observer>, x: Observer) returns (q': seq<Observer>, i: nat)
    requires InOrder(q)
    ensures InsertedAt(q, x, i, q')
    ensures i <= |q| && q' == q[..i] + [x] + q[i..]
    ensures (forall k | 0 <= k < i :: q[k].order <= x.order) && forall k | i <= k < |q| :: x.order < q[k].order
  {
    i := |q|;
    while i > 0
      invariant i <= |q| && forall k | i <= k < |q| :: q[k].order > x.order
    {
      if q[i - 1].order <= x.order {
        return q[..i] + [x] + q[i..], i;
      }
      i := i - 1;
    }
    return [x] + q, 0;
  }

  /** Observers of one order stay in the order they were added in. */
  lemma AddedLaterBehind(q: seq<Observer>, x: Observer, i: nat, q1: seq<Observer>, y: Observer, j: nat,
                         q2: seq<Observer>)
    requires InOrder(q) && InsertedAt(q, x, i, q1) && InsertedAt(q1, y, j, q2) && x.order == y.order
    ensures i < j && q2[i] == x && q2[j] == y
  {
    assert q1[i] == x;
  }

  lemma InsertedInOrder(q: seq<Observer>, x: Observer, i: nat, q': seq<Observer>)
    requires InOrder(q) && NoDup(q) && x !in q && InsertedAt(q, x, i, q')
    ensures InOrder(q') && NoDup(q') && x in q'
    ensures forall y | y != x :: y in q' <==> y in q
  {
    forall k | 0 <= k < |q'|
      ensures q'[k] == if k < i then q[k] else if k == i then x else q[k - 1]
    {
    }
    assert q'[i] == x;
    forall y | y in q
      ensures y in q'
    {
      var k :| 0 <= k < |q| && q[k] == y;
      assert q'[if k < i then k else k + 1] == y;
    }
  }

  /** The first position of an observer in an array, taken out. */
  method TakeOutObserver(q: seq<Observer>, x: Observer) returns (found: bool, rest: seq<Observer>)
    requires InOrder(q) && NoDup(q)
    ensures found <==> x in q
    ensures InOrder(rest) && NoDup(rest) && x !in rest && forall y | y != x :: y in rest <==> y in q
  {
    found, rest := false, q;
    for i := 0 to |q|
      invariant x !in q[..i]
    {
      if q[i] == x {
        rest := q[..i] + q[i + 1..];
        TakenOut(q, i, rest);
        return true, rest;
      }
    }
    assert q[..|q|] == q;
  }

  lemma TakenOut(q: seq<Observer>, i: nat, rest: seq<Observer>)
    requires InOrder(q) && NoDup(q) && i < |q| && rest == q[..i] + q[i + 1..]
    ensures InOrder(rest) && NoDup(rest) && q[i] !in rest && forall y | y != q[i] :: y in rest <==> y in q
  {
    forall k | 0 <= k < |rest|
      ensures rest[k] == q[if k < i then k else k + 1] && rest[k] != q[i]
    {
    }
    forall y | y in q && y != q[i]
      ensures y in rest
    {
      var k :| 0 <= k < |q| && q[k] == y;
      assert rest[if k < i then k else k - 1] == y;
    }
  }

  lemma ObserverJoins(before: map<Name, seq<Observer>>, m: Name, q: seq<Observer>, x: Observer)
    requires !(m in before && x in before[m]) && x in q
    requires forall y | y != x :: y in q <==> m in before && y in before[m]
    ensures |HoldingObserver(before[m := q], x)| == |HoldingObserver(before, x)| + 1
    ensures forall y | y != x :: HoldingObserver(before[m := q], y) == HoldingObserver(before, y)
  {
    hide HoldingObserver;
    OneMore(HoldingObserver(before, x), HoldingObserver(before[m := q], x), m);
    forall y | y != x
      ensures HoldingObserver(before[m := q], y) == HoldingObserver(before, y)
    {
    }
  }

  lemma ObserverLeaves(before: map<Name, seq<Observer>>, m: Name, q: seq<Observer>, x: Observer)
    requires m in before && x in before[m] && x !in q
    requires forall y | y != x :: y in q <==> y in before[m]
    ensures |HoldingObserver(before[m := q], x)| == |HoldingObserver(before, x)| - 1
    ensures HoldingObserver(before[m := q], x) == HoldingObserver(before, x) - {m}
    ensures forall y | y != x :: HoldingObserver(before[m := q], y) == HoldingObserver(before, y)
  {
    hide HoldingObserver;
    OneMore(HoldingObserver(before[m := q], x), HoldingObserver(before, x), m);
    forall y | y != x
      ensures HoldingObserver(before[m := q], y) == HoldingObserver(before, y)
    {
    }
  }

  /** What an observer knows of one run loop: if it is its own, how many modes hold it there; otherwise that none
      does. */
  ghost predicate CountRight(x: Observer, r: RunLoop)
    reads x`runLoop, x`rlCount, r`observers
  {
    var n := |HoldingObserver(r.observers, x)|;
    if x.runLoop == r then x.rlCount == n && n > 0 else n == 0
  }

  /** Every observer's count is the number of modes that hold it; observer arrays are sorted by order. */
  ghost predicate ObserverWorld(rls: set<RunLoop>, os: set<Observer>)
    reads rls`observers, os`runLoop, os`rlCount
  {
    && (forall x, r | x in os && r in rls :: CountRight(x, r))
    && (forall x | x in os :: (x.runLoop == null ==> x.rlCount == 0) && (x.runLoop != null ==> x.runLoop in rls))
    && (forall r, m | r in rls && m in r.observers :: InOrder(r.observers[m]) && NoDup(r.observers[m]))
  }

  ghost predicate ObserversRetired(os: set<Observer>)
    reads os`runLoop, os`valid
  {
    forall x | x in os && !x.valid :: x.runLoop == null
  }

  class RunLoop {
    var sources: map<Name, Sources>
    var observers: map<Name, seq<Observer>>
    var commonModes: set<Name>
    var commonSources: set<Source>
    var commonObservers: set<Observer>

    /** A new run loop: its default mode is a common one and has no sets yet. */
    constructor (defaultMode: Name)
      ensures sources == map[] && observers == map[] && commonModes == {defaultMode}
      ensures commonSources == {} && commonObservers == {}
    {
      sources, observers, commonModes, commonSources, commonObservers := map[], map[], {defaultMode}, {}, {};
    }

    /** The modes that have source sets or an observer array; the others do not matter here. */
    function AllModes(): set<Name>
      reads this`sources, this`observers
    {
      sources.Keys + observers.Keys
    }

    function SourcesIn(m: Name): Sources
      reads this`sources
    {
      if m in sources then sources[m] else Sources({}, {})
    }

    /** The guarded part of CFRunLoopAddSource for one mode. */
    method JoinSource(x: Source, m: Name)
      modifies this`sources, x`runLoops
      ensures sources == old(sources)[m := Joined(old(SourcesIn(m)), x)]
      ensures Holds(sources[m], x) && forall y | y != x :: Holds(sources[m], y) <==> Holds(old(SourcesIn(m)), y)
      ensures old(Holds(SourcesIn(m), x)) ==> sources == old(sources) && x.runLoops == old(x.runLoops)
      ensures !old(Holds(SourcesIn(m), x)) ==>
                x.runLoops
                == Some((if old(x.runLoops) == None then multiset{} else old(x.runLoops).value) + multiset{this})
    {
      var s := SourcesIn(m);
      if !(x in s.sources0 || x in s.sources1) {
        s := if x.version1 then s.(sources1 := s.sources1 + {x}) else s.(sources0 := s.sources0 + {x});
        var bag := if x.runLoops == None then multiset{} else x.runLoops.value;
        x.runLoops := Some(bag + multiset{this});
      }
      sources := sources[m := s];
    }

    /** CFRunLoopAddSource for one mode. */
    method AddSource(x: Source, m: Name, ghost rls: set<RunLoop>, ghost xs: set<Source>)
      requires SourceWorld(rls, xs) && this in rls && x in xs
      modifies this`sources, x`runLoops
      ensures SourceWorld(rls, xs) && (old(SourcesRetired(rls, xs)) ==> SourcesRetired(rls, xs))
      ensures sources == if x.valid then old(sources)[m := Joined(old(SourcesIn(m)), x)] else old(sources)
      ensures x.valid ==> Holds(sources[m], x)
      ensures x.valid && x !in old(SourcesIn(m)).sources0 && x !in old(SourcesIn(m)).sources1 ==>
                if x.version1 then x in sources[m].sources1 && x !in sources[m].sources0
                else x in sources[m].sources0 && x !in sources[m].sources1
    {
      if !x.valid {
        return;
      }
      hide Holds, HoldingSource;
      ghost var before := sources;
      JoinSource(x, m);
      if !old(Holds(SourcesIn(m), x)) {
        SourceEmpty(x);
        SourceJoins(before, m, sources[m], x);
      }
      forall y, r | y in xs && r in rls
        ensures BagRight(y, r) && (y != x ==> HoldingSource(r.sources, y) == HoldingSource(old(r.sources), y))
      {
        assert old(BagRight(y, r));
      }
    }

    /** The guarded part of CFRunLoopRemoveSource for one mode. A source without a bag is not counted. */
    method LeaveSource(x: Source, m: Name)
      requires m in sources && Holds(sources[m], x)
      modifies this`sources, x`runLoops
      ensures m in sources && sources == old(sources)[m := sources[m]]
      ensures sources[m] == Sources(old(sources[m]).sources0 - {x}, old(sources[m]).sources1 - {x})
      ensures x.runLoops == if old(x.runLoops) == None then None else Some(old(x.runLoops).value - multiset{this})
    {
      var s := sources[m];
      if x.runLoops != None {
        x.runLoops := Some(x.runLoops.value - multiset{this});
      }
      sources := sources[m := Sources(s.sources0 - {x}, s.sources1 - {x})];
    }

    /** CFRunLoopRemoveSource for one mode. The source need not be among those whose bags are right. */
    method RemoveSource(x: Source, m: Name, ghost rls: set<RunLoop>, ghost xs: set<Source>)
      requires SourceWorld(rls, xs) && this in rls
      modifies this`sources, x`runLoops
      ensures SourceWorld(rls, xs) && (old(SourcesRetired(rls, xs)) ==> SourcesRetired(rls, xs))
      ensures x.runLoops.None? == old(x.runLoops.None?)
      ensures sources.Keys == old(sources.Keys) && HoldingSource(sources, x) == HoldingSource(old(sources), x) - {m}
      ensures forall k | k in sources && k != m :: sources[k] == old(sources[k])
      ensures m in sources ==> sources[m] == Sources(old(sources[m]).sources0 - {x}, old(sources[m]).sources1 - {x})
    {
      if m in sources && (x in sources[m].sources0 || x in sources[m].sources1) {
        ghost var before := sources;
        assert x in xs ==> BagRight(x, this);
        LeaveSource(x, m);
        SourceLeaves(before, m, sources[m], x);
        forall y, r | y in xs && r in rls
          ensures BagRight(y, r) && HoldingSource(r.sources, y) <= HoldingSource(old(r.sources), y)
        {
          assert old(BagRight(y, r));
        }
      }
    }

    /** CFRunLoopAddSource for the common modes. */
    method AddSourceToCommonModes(x: Source, ghost rls: set<RunLoop>, ghost xs: set<Source>)
      requires SourceWorld(rls, xs) && this in rls && x in xs
      modifies this`sources, this`commonSources, x`runLoops
      ensures SourceWorld(rls, xs) && (old(SourcesRetired(rls, xs)) ==> SourcesRetired(rls, xs))
      ensures commonSources == if x.valid then old(commonSources) + {x} else old(commonSources)
      ensures x.valid ==> forall m | m in commonModes :: m in sources && Holds(sources[m], x)
    {
      if !x.valid {
        return;
      }
      commonSources := commonSources + {x};
      var todo := commonModes;
      while todo != {}
        invariant todo <= commonModes && SourceWorld(rls, xs)
        invariant old(SourcesRetired(rls, xs)) ==> SourcesRetired(rls, xs)
        invariant commonSources == old(commonSources) + {x}
        invariant forall m | m in commonModes - todo :: m in sources && Holds(sources[m], x)
      {
        var m :| m in todo;
        AddSource(x, m, rls, xs);
        todo := todo - {m};
      }
    }

    /** CFRunLoopRemoveSource for the common modes. */
    method RemoveSourceFromCommonModes(x: Source, ghost rls: set<RunLoop>, ghost xs: set<Source>)
      requires SourceWorld(rls, xs) && this in rls
      modifies this`sources, this`commonSources, x`runLoops
      ensures SourceWorld(rls, xs) && (old(SourcesRetired(rls, xs)) ==> SourcesRetired(rls, xs))
      ensures x.runLoops.None? == old(x.runLoops.None?) && commonSources == old(commonSources) - {x}
      ensures HoldingSource(sources, x) == if x in old(commonSources) then HoldingSource(old(sources), x) - commonModes
                                           else HoldingSource(old(sources), x)
    {
      if x in commonSources {
        commonSources := commonSources - {x};
        var todo := commonModes;
        while todo != {}
          invariant todo <= commonModes && SourceWorld(rls, xs)
          invariant old(SourcesRetired(rls, xs)) ==> SourcesRetired(rls, xs)
          invariant x.runLoops.None? == old(x.runLoops.None?) && commonSources == old(commonSources) - {x}
          invariant HoldingSource(sources, x) == HoldingSource(old(sources), x) - (commonModes - todo)
        {
          var m :| m in todo;
          RemoveSource(x, m, rls, xs);
          todo := todo - {m};
        }
      }
    }

    /** __CFRunLoopSourceRemoveFromRunLoop: out of every mode there is. */
    method RemoveSourceEverywhere(x: Source, ghost rls: set<RunLoop>, ghost xs: set<Source>)
      requires SourceWorld(rls, xs) && this in rls
      modifies this`sources, this`commonSources, x`runLoops
      ensures SourceWorld(rls, xs) && (old(SourcesRetired(rls, xs)) ==> SourcesRetired(rls, xs))
      ensures x.runLoops.None? == old(x.runLoops.None?) && HoldingSource(sources, x) == {}
      ensures commonSources == old(commonSources) - {x}
    {
      var todo := AllModes();
      while todo != {}
        invariant SourceWorld(rls, xs) && (old(SourcesRetired(rls, xs)) ==> SourcesRetired(rls, xs))
        invariant x.runLoops.None? == old(x.runLoops.None?) && commonSources == old(commonSources)
        invariant HoldingSource(sources, x) <= todo
      {
        var m :| m in todo;
        RemoveSource(x, m, rls, xs);
        todo := todo - {m};
      }
      RemoveSourceFromCommonModes(x, rls, xs);
    }

    function ObserversIn(m: Name): seq<Observer>
      reads this`observers
    {
      if m in observers then observers[m] else []
    }

    /** A valid observer that does not belong to another run loop. */
    predicate Accepts(x: Observer)
      reads x`valid, x`runLoop
    {
      x.valid && (x.runLoop == null || x.runLoop == this)
    }

    /** The guarded part of CFRunLoopAddObserver for one mode, with __CFRunLoopObserverSchedule. */
    method JoinObserver(x: Observer, m: Name)
      requires InOrder(ObserversIn(m)) && NoDup(ObserversIn(m))
      modifies this`observers, x`runLoop, x`rlCount
      ensures m in observers && observers == old(observers)[m := observers[m]]
      ensures x in old(ObserversIn(m)) ==>
                observers[m] == old(ObserversIn(m)) && x.runLoop == old(x.runLoop) && x.rlCount == old(x.rlCount)
      ensures x !in old(ObserversIn(m)) ==>
                && (exists i :: InsertedAt(old(ObserversIn(m)), x, i, observers[m]))
                && x.rlCount == old(x.rlCount) + 1 && x.runLoop == if old(x.rlCount) == 0 then this else old(x.runLoop)
    {
      var q := ObserversIn(m);
      if x !in q {
        var q', i := InsertObserver(q, x);
        assert InsertedAt(old(ObserversIn(m)), x, i, q');
        q := q';
        if x.rlCount == 0 {
          x.runLoop := this;
        }
        x.rlCount := x.rlCount + 1;
      }
      observers := observers[m := q];
    }

    /** CFRunLoopAddObserver for one mode. */
    method AddObserver(x: Observer, m: Name, ghost rls: set<RunLoop>, ghost os: set<Observer>)
      requires ObserverWorld(rls, os) && this in rls && x in os
      modifies this`observers, x`runLoop, x`rlCount
      ensures ObserverWorld(rls, os) && (old(ObserversRetired(os)) ==> ObserversRetired(os))
      ensures old(Accepts(x)) ==> Accepts(x) && m in observers && x in observers[m]
      ensures old(Accepts(x)) && x !in old(ObserversIn(m)) ==>
                (exists i :: InsertedAt(old(ObserversIn(m)), x, i, observers[m])) && x.runLoop == this
      ensures old(Accepts(x)) && x in old(ObserversIn(m)) ==> observers[m] == old(ObserversIn(m))
      ensures forall k | k in old(observers) && (k != m || !old(Accepts(x))) ::
                k in observers && observers[k] == old(observers[k])
      ensures x.valid && (old(x.runLoop) == null || old(x.runLoop) == this) ==> m in observers && x in observers[m]
      ensures !x.valid || (old(x.runLoop) != null && old(x.runLoop) != this) ==> observers == old(observers)
    {
      if !x.valid || (x.runLoop != null && x.runLoop != this) {
        return;
      }
      ghost var before, q := observers, ObserversIn(m);
      assert CountRight(x, this);
      JoinObserver(x, m);
      if x in q {
        assert observers == before;
      } else {
        ghost var i :| InsertedAt(q, x, i, observers[m]);
        InsertedInOrder(q, x, i, observers[m]);
        ObserverJoins(before, m, observers[m], x);
      }
      forall y, r | y in os && r in rls
        ensures CountRight(y, r)
      {
        assert old(CountRight(y, r));
      }
    }

    /** The guarded part of CFRunLoopRemoveObserver for one mode, with __CFRunLoopObserverCancel. */
    method LeaveObserver(x: Observer, m: Name)
      requires m in observers && InOrder(observers[m]) && NoDup(observers[m])
      modifies this`observers, x`runLoop, x`rlCount
      ensures m in observers && observers == old(observers)[m := observers[m]]
      ensures InOrder(observers[m]) && NoDup(observers[m])
      ensures x !in observers[m] && forall y | y != x :: y in observers[m] <==> y in old(observers[m])
      ensures x !in old(observers[m]) ==>
                observers == old(observers) && x.rlCount == old(x.rlCount) && x.runLoop == old(x.runLoop)
      ensures x in old(observers[m]) ==>
                x.rlCount == old(x.rlCount) - 1 && x.runLoop == if x.rlCount == 0 then null else old(x.runLoop)
    {
      var found, rest := TakeOutObserver(observers[m], x);
      if found {
        observers := observers[m := rest];
        x.rlCount := x.rlCount - 1;
        if x.rlCount == 0 {
          x.runLoop := null;
        }
      } else {
        assert observers == observers[m := observers[m]];
      }
    }

    /** CFRunLoopRemoveObserver for one mode. */
    method RemoveObserver(x: Observer, m: Name, ghost rls: set<RunLoop>, ghost os: set<Observer>)
      requires ObserverWorld(rls, os) && this in rls && x in os
      modifies this`observers, x`runLoop, x`rlCount
      ensures ObserverWorld(rls, os) && (old(ObserversRetired(os)) ==> ObserversRetired(os))
      ensures observers.Keys == old(observers.Keys)
      ensures HoldingObserver(observers, x) == HoldingObserver(old(observers), x) - {m}
      ensures x.runLoop == null || x.runLoop == old(x.runLoop)
      ensures forall k | k in observers && k != m :: observers[k] == old(observers[k])
      ensures m in observers ==> forall y | y != x :: y in observers[m] <==> y in old(observers[m])
    {
      hide InOrder, NoDup, HoldingObserver;
      if m in observers {
        ghost var before := observers;
        assert CountRight(x, this);
        LeaveObserver(x, m);
        if x in before[m] {
          ObserverLeaves(before, m, observers[m], x);
          forall y, r | y in os && r in rls
            ensures CountRight(y, r)
          {
            assert old(CountRight(y, r));
          }
        }
      }
    }

    /** CFRunLoopAddObserver for the common modes. */
    method AddObserverToCommonModes(x: Observer, ghost rls: set<RunLoop>, ghost os: set<Observer>)
      requires ObserverWorld(rls, os) && this in rls && x in os
      modifies this`observers, this`commonObservers, x`runLoop, x`rlCount
      ensures ObserverWorld(rls, os) && (old(ObserversRetired(os)) ==> ObserversRetired(os))
      ensures commonObservers == if old(Accepts(x)) then old(commonObservers) + {x} else old(commonObservers)
      ensures old(Accepts(x)) ==> forall m | m in commonModes :: m in observers && x in observers[m]
    {
      if !x.valid || (x.runLoop != null && x.runLoop != this) {
        return;
      }
      commonObservers := commonObservers + {x};
      var todo := commonModes;
      while todo != {}
        invariant todo <= commonModes && ObserverWorld(rls, os) && (old(ObserversRetired(os)) ==> ObserversRetired(os))
        invariant Accepts(x) && commonObservers == old(commonObservers) + {x}
        invariant forall m | m in commonModes - todo :: m in observers && x in observers[m]
      {
        var m :| m in todo;
        AddObserver(x, m, rls, os);
        todo := todo - {m};
      }
    }

    /** CFRunLoopRemoveObserver for the common modes. */
    method RemoveObserverFromCommonModes(x: Observer, ghost rls: set<RunLoop>, ghost os: set<Observer>)
      requires ObserverWorld(rls, os) && this in rls && x in os
      modifies this`observers, this`commonObservers, x`runLoop, x`rlCount
      ensures ObserverWorld(rls, os) && (old(ObserversRetired(os)) ==> ObserversRetired(os))
      ensures commonObservers == old(commonObservers) - {x} && (x.runLoop == null || x.runLoop == old(x.runLoop))
      ensures HoldingObserver(observers, x)
              == if x in old(commonObservers) then HoldingObserver(old(observers), x) - commonModes
                                               else HoldingObserver(old(observers), x)
    {
      if x in commonObservers {
        commonObservers := commonObservers - {x};
        var todo := commonModes;
        while todo != {}
          invariant todo <= commonModes && ObserverWorld(rls, os)
          invariant old(ObserversRetired(os)) ==> ObserversRetired(os)
          invariant commonObservers == old(commonObservers) - {x} && (x.runLoop == null || x.runLoop == old(x.runLoop))
          invariant HoldingObserver(observers, x) == HoldingObserver(old(observers), x) - (commonModes - todo)
        {
          var m :| m in todo;
          RemoveObserver(x, m, rls, os);
          todo := todo - {m};
        }
      }
    }

    /** The loop of CFRunLoopObserverInvalidate: out of every mode there is. */
    method RemoveObserverEverywhere(x: Observer, ghost rls: set<RunLoop>, ghost os: set<Observer>)
      requires ObserverWorld(rls, os) && this in rls && x in os
      requires x.runLoop == this && !x.valid && ObserversRetired(os - {x})
      modifies this`observers, this`commonObservers, x`runLoop, x`rlCount
      ensures ObserverWorld(rls, os) && ObserversRetired(os)
      ensures commonObservers == old(commonObservers) - {x}
    {
      var todo := AllModes();
      while todo != {}
        invariant ObserverWorld(rls, os) && ObserversRetired(os - {x}) && (x.runLoop == null || x.runLoop == this)
        invariant HoldingObserver(observers, x) <= todo && commonObservers == old(commonObservers)
      {
        var m :| m in todo;
        RemoveObserver(x, m, rls, os);
        todo := todo - {m};
      }
      RemoveObserverFromCommonModes(x, rls, os);
      assert CountRight(x, this);
    }

    /** CFRunLoopAddCommonMode: the common items join the new common mode. */
    method AddCommonMode(m: Name, ghost rls: set<RunLoop>, ghost xs: set<Source>, ghost os: set<Observer>)
      requires SourceWorld(rls, xs) && ObserverWorld(rls, os)
      requires this in rls && commonSources <= xs && commonObservers <= os
      modifies this`sources, this`observers, this`commonModes
      modifies commonSources`runLoops, commonObservers`runLoop, commonObservers`rlCount
      ensures SourceWorld(rls, xs) && ObserverWorld(rls, os)
      ensures old(SourcesRetired(rls, xs)) ==> SourcesRetired(rls, xs)
      ensures old(ObserversRetired(os)) ==> ObserversRetired(os)
      ensures commonModes == old(commonModes) + {m}
      ensures m !in old(commonModes) ==>
                forall x | x in commonSources && x.valid :: m in sources && Holds(sources[m], x)
      ensures m !in old(commonModes) ==>
                forall o | o in commonObservers && old(Accepts(o)) :: m in observers && o in observers[m]
    {
      hide SourceWorld, ObserverWorld, SourcesRetired, ObserversRetired, Holds;
      if m !in commonModes {
        commonModes := commonModes + {m};
        AddCommonSources(m, rls, xs);
        AddCommonObservers(m, rls, os);
      }
    }

    /** The common sources join a mode. */
    method AddCommonSources(m: Name, ghost rls: set<RunLoop>, ghost xs: set<Source>)
      requires SourceWorld(rls, xs) && this in rls && commonSources <= xs
      modifies this`sources, commonSources`runLoops
      ensures SourceWorld(rls, xs) && (old(SourcesRetired(rls, xs)) ==> SourcesRetired(rls, xs))
      ensures forall x | x in commonSources && x.valid :: m in sources && Holds(sources[m], x)
    {
      var items := commonSources;
      while items != {}
        invariant items <= commonSources && SourceWorld(rls, xs)
        invariant old(SourcesRetired(rls, xs)) ==> SourcesRetired(rls, xs)
        invariant forall x | x in commonSources - items && x.valid :: m in sources && Holds(sources[m], x)
      {
        var x :| x in items;
        AddSource(x, m, rls, xs);
        items := items - {x};
      }
    }

    /** And so do the common observers. */
    method AddCommonObservers(m: Name, ghost rls: set<RunLoop>, ghost os: set<Observer>)
      requires ObserverWorld(rls, os) && this in rls && commonObservers <= os
      modifies this`observers, commonObservers`runLoop, commonObservers`rlCount
      ensures ObserverWorld(rls, os) && (old(ObserversRetired(os)) ==> ObserversRetired(os))
      ensures forall o | o in commonObservers && old(Accepts(o)) :: m in observers && o in observers[m]
    {
      var watchers := commonObservers;
      while watchers != {}
        invariant watchers <= commonObservers && ObserverWorld(rls, os)
        invariant old(ObserversRetired(os)) ==> ObserversRetired(os)
        invariant forall o | o in watchers :: Accepts(o) == old(Accepts(o))
        invariant forall o | o in commonObservers - watchers && old(Accepts(o)) :: m in observers && o in observers[m]
      {
        var x :| x in watchers;
        AddObserver(x, m, rls, os);
        watchers := watchers - {x};
      }
    }
  }

  /** CFRunLoopObserverInvalidate: afterwards no mode of any run loop holds the observer. */
  method InvalidateObserver(x: Observer, ghost rls: set<RunLoop>, ghost os: set<Observer>)
    requires ObserverWorld(rls, os) && ObserversRetired(os) && x in os
    modifies x, (if x.runLoop == null then {} else {x.runLoop})`observers
    modifies (if x.runLoop == null then {} else {x.runLoop})`commonObservers
    ensures forall r | r in rls :: r.commonObservers <= old(r.commonObservers)
    ensures ObserverWorld(rls, os) && ObserversRetired(os) && !x.valid
    ensures forall r | r in rls :: HoldingObserver(r.observers, x) == {}
  {
    if x.valid {
      var rl := x.runLoop;
      x.valid := false;
      if rl != null {
        rl.RemoveObserverEverywhere(x, rls, os);
      }
    }
    forall r | r in rls
      ensures HoldingObserver(r.observers, x) == {}
    {
      assert CountRight(x, r);
    }
  }

  /** CFRunLoopSourceInvalidate: afterwards no mode of any run loop holds the source. The source gives up its bag before
      it is removed, so that the removals do not count. */
  method InvalidateSource(x: Source, ghost rls: set<RunLoop>, ghost xs: set<Source>)
    requires SourceWorld(rls, xs) && SourcesRetired(rls, xs) && x in xs
    modifies x, (if x.runLoops == None then {} else set r | r in x.runLoops.value)`sources
    modifies (if x.runLoops == None then {} else set r | r in x.runLoops.value)`commonSources
    ensures SourceWorld(rls, xs) && SourcesRetired(rls, xs) && !x.valid
    ensures forall r | r in rls :: HoldingSource(r.sources, x) == {}
    ensures forall r | r in rls :: r.commonSources <= old(r.commonSources)
  {
    if x.valid {
      var rloops := x.runLoops;
      x.valid := false;
      if rloops != None {
        x.runLoops := None;
        ghost var others := xs - {x};
        var todo := set r | r in rloops.value;
        while todo != {}
          invariant todo <= set r | r in rloops.value
          invariant SourceWorld(rls, others) && SourcesRetired(rls, others) && x.runLoops == None && !x.valid
          invariant forall r | r in rls && r !in todo :: HoldingSource(r.sources, x) == {}
          invariant forall r | r in rls :: r.commonSources <= old(r.commonSources)
        {
          var r :| r in todo;
          r.RemoveSourceEverywhere(x, rls, others);
          todo := todo - {r};
        }
      }
    }
  }

  // ----- histories

  /** What can be done, to run loops, sources and observers given as objects or by number. */
  datatype Op<R, S, O> =
    | AddSourceTo(r: R, x: S, m: Name)
    | AddSourceToCommon(r: R, x: S)
    | RemoveSourceFrom(r: R, x: S, m: Name)
    | RemoveSourceFromCommon(r: R, x: S)
    | RetireSource(x: S)
    | AddObserverTo(r: R, o: O, m: Name)
    | AddObserverToCommon(r: R, o: O)
    | RemoveObserverFrom(r: R, o: O, m: Name)
    | RemoveObserverFromCommon(r: R, o: O)
    | RetireObserver(o: O)
    | MakeCommon(r: R, m: Name)

  type ObjectOp = Op<RunLoop, Source, Observer>

  ghost predicate Known(op: ObjectOp, rls: set<RunLoop>, xs: set<Source>, os: set<Observer>) {
    match op
    case AddSourceTo(r, x, _) => r in rls && x in xs
    case AddSourceToCommon(r, x) => r in rls && x in xs
    case RemoveSourceFrom(r, x, _) => r in rls && x in xs
    case RemoveSourceFromCommon(r, x) => r in rls && x in xs
    case RetireSource(x) => x in xs
    case AddObserverTo(r, o, _) => r in rls && o in os
    case AddObserverToCommon(r, o) => r in rls && o in os
    case RemoveObserverFrom(r, o, _) => r in rls && o in os
    case RemoveObserverFromCommon(r, o) => r in rls && o in os
    case RetireObserver(o) => o in os
    case MakeCommon(r, _) => r in rls
  }

  ghost predicate World(rls: set<RunLoop>, xs: set<Source>, os: set<Observer>)
    reads rls, xs, os
  {
    && SourceWorld(rls, xs) && SourcesRetired(rls, xs) && ObserverWorld(rls, os) && ObserversRetired(os)
    && forall r | r in rls :: r.commonSources <= xs && r.commonObservers <= os
  }

  lemma KnownRunLoops(rls: set<RunLoop>, xs: set<Source>, x: Source)
    requires SourceWorld(rls, xs) && x in xs
    ensures x.runLoops.Some? ==> forall r | r in x.runLoops.value :: r in rls
  {
  }

  lemma KnownRunLoop(rls: set<RunLoop>, os: set<Observer>, x: Observer)
    requires ObserverWorld(rls, os) && x in os
    ensures x.runLoop != null ==> x.runLoop in rls
  {
  }

  /** Whatever is added, removed or invalidated, bags and counts stay right and observer arrays sorted. */
  method Perform(op: ObjectOp, ghost rls: set<RunLoop>, ghost xs: set<Source>, ghost os: set<Observer>)
    requires World(rls, xs, os) && Known(op, rls, xs, os)
    modifies rls, xs, os
    ensures World(rls, xs, os)
  {
    hide SourceWorld, ObserverWorld, SourcesRetired, ObserversRetired, Holds, Joined, HoldingSource, HoldingObserver,
         InsertedAt;
    match op
    case AddSourceTo(r, x, m) => r.AddSource(x, m, rls, xs);
    case AddSourceToCommon(r, x) => r.AddSourceToCommonModes(x, rls, xs);
    case RemoveSourceFrom(r, x, m) => r.RemoveSource(x, m, rls, xs);
    case RemoveSourceFromCommon(r, x) => r.RemoveSourceFromCommonModes(x, rls, xs);
    case RetireSource(x) =>
      KnownRunLoops(rls, xs, x);
      InvalidateSource(x, rls, xs);
    case AddObserverTo(r, o, m) => r.AddObserver(o, m, rls, os);
    case AddObserverToCommon(r, o) => r.AddObserverToCommonModes(o, rls, os);
    case RemoveObserverFrom(r, o, m) => r.RemoveObserver(o, m, rls, os);
    case RemoveObserverFromCommon(r, o) => r.RemoveObserverFromCommonModes(o, rls, os);
    case RetireObserver(o) =>
      KnownRunLoop(rls, os, o);
      InvalidateObserver(o, rls, os);
    case MakeCommon(r, m) => r.AddCommonMode(m, rls, xs, os);
  }

  method History(ops: seq<ObjectOp>, ghost rls: set<RunLoop>, ghost xs: set<Source>, ghost os: set<Observer>)
    requires World(rls, xs, os) && forall i | 0 <= i < |ops| :: Known(ops[i], rls, xs, os)
    modifies rls, xs, os
    ensures World(rls, xs, os)
  {
    for i := 0 to |ops|
      invariant World(rls, xs, os)
    {
      Perform(ops[i], rls, xs, os);
    }
  }

  // ----- from the start

  /** Before anything is created. */
  lemma NothingYet()
    ensures World({}, {}, {})
  {
  }

  method MakeRunLoop(defaultMode: Name, ghost rls: set<RunLoop>, ghost xs: set<Source>, ghost os: set<Observer>)
    returns (r: RunLoop)
    requires World(rls, xs, os)
    ensures fresh(r) && World(rls + {r}, xs, os)
  {
    r := new RunLoop(defaultMode);
    forall x | x in xs
      ensures BagRight(x, r) && HoldingSource(r.sources, x) == {}
    {
      assert HoldingSource(r.sources, x) == {};
      if x.runLoops.Some? {
        assert r !in x.runLoops.value;
      }
    }
    forall o | o in os
      ensures CountRight(o, r)
    {
      assert HoldingObserver(r.observers, o) == {};
    }
  }

  method MakeSource(version1: bool, ghost rls: set<RunLoop>, ghost xs: set<Source>, ghost os: set<Observer>)
    returns (x: Source)
    requires World(rls, xs, os)
    ensures fresh(x) && World(rls, xs + {x}, os)
  {
    x := new Source(version1);
    forall r | r in rls
      ensures HoldingSource(r.sources, x) == {} && BagRight(x, r)
    {
      assert HoldingSource(r.sources, x) == {};
    }
  }

  method MakeObserver(order: int, ghost rls: set<RunLoop>, ghost xs: set<Source>, ghost os: set<Observer>)
    returns (o: Observer)
    requires World(rls, xs, os)
    ensures fresh(o) && World(rls, xs, os + {o})
  {
    o := new Observer(order);
    forall r | r in rls
      ensures CountRight(o, r)
    {
      assert HoldingObserver(r.observers, o) == {};
    }
  }

  /** A program: it creates run loops, sources and observers and works on those it has created, by their numbers. */
  datatype Command =
    | NewRunLoop(defaultMode: Name)
    | NewSource(version1: bool)
    | NewObserver(order: int)
    | Use(op: Op<nat, nat, nat>)

  /** What a program has created. */
  datatype Items = Items(rls: seq<RunLoop>, xs: seq<Source>, os: seq<Observer>)

  /** How much of each kind. */
  datatype Counts = Counts(loops: nat, sources: nat, observers: nat)

  function CountsOf(cmds: seq<Command>): Counts {
    if cmds == [] then Counts(0, 0, 0)
    else
      var n := CountsOf(cmds[..|cmds| - 1]);
      match cmds[|cmds| - 1]
      case NewRunLoop(_) => n.(loops := n.loops + 1)
      case NewSource(_) => n.(sources := n.sources + 1)
      case NewObserver(_) => n.(observers := n.observers + 1)
      case Use(_) => n
  }

  function SizesOf(items: Items): Counts {
    Counts(|items.rls|, |items.xs|, |items.os|)
  }

  /** The numbers stand for what has been created. */
  predicate Meant(op: Op<nat, nat, nat>, n: Counts) {
    match op
    case AddSourceTo(r, x, _) => r < n.loops && x < n.sources
    case AddSourceToCommon(r, x) => r < n.loops && x < n.sources
    case RemoveSourceFrom(r, x, _) => r < n.loops && x < n.sources
    case RemoveSourceFromCommon(r, x) => r < n.loops && x < n.sources
    case RetireSource(x) => x < n.sources
    case AddObserverTo(r, o, _) => r < n.loops && o < n.observers
    case AddObserverToCommon(r, o) => r < n.loops && o < n.observers
    case RemoveObserverFrom(r, o, _) => r < n.loops && o < n.observers
    case RemoveObserverFromCommon(r, o) => r < n.loops && o < n.observers
    case RetireObserver(o) => o < n.observers
    case MakeCommon(r, _) => r < n.loops
  }

  function Resolve(op: Op<nat, nat, nat>, i: Items): ObjectOp
    requires Meant(op, SizesOf(i))
  {
    match op
    case AddSourceTo(r, x, m) => AddSourceTo(i.rls[r], i.xs[x], m)
    case AddSourceToCommon(r, x) => AddSourceToCommon(i.rls[r], i.xs[x])
    case RemoveSourceFrom(r, x, m) => RemoveSourceFrom(i.rls[r], i.xs[x], m)
    case RemoveSourceFromCommon(r, x) => RemoveSourceFromCommon(i.rls[r], i.xs[x])
    case RetireSource(x) => RetireSource(i.xs[x])
    case AddObserverTo(r, o, m) => AddObserverTo(i.rls[r], i.os[o], m)
    case AddObserverToCommon(r, o) => AddObserverToCommon(i.rls[r], i.os[o])
    case RemoveObserverFrom(r, o, m) => RemoveObserverFrom(i.rls[r], i.os[o], m)
    case RemoveObserverFromCommon(r, o) => RemoveObserverFromCommon(i.rls[r], i.os[o])
    case RetireObserver(o) => RetireObserver(i.os[o])
    case MakeCommon(r, m) => MakeCommon(i.rls[r], m)
  }

  ghost predicate WorldOf(i: Items)
    reads i.rls, i.xs, i.os
  {
    World(SetOf(i.rls), SetOf(i.xs), SetOf(i.os))
  }

  lemma ResolvedKnown(op: Op<nat, nat, nat>, i: Items)
    requires Meant(op, SizesOf(i))
    ensures Known(Resolve(op, i), SetOf(i.rls), SetOf(i.xs), SetOf(i.os))
  {
  }

  lemma CountsNext(cmds: seq<Command>, n: nat)
    requires n < |cmds|
    ensures CountsOf(cmds[..0]) == Counts(0, 0, 0)
    ensures var c := CountsOf(cmds[..n]);
            CountsOf(cmds[..n + 1]) == match cmds[n]
                                       case NewRunLoop(_) => c.(loops := c.loops + 1)
                                       case NewSource(_) => c.(sources := c.sources + 1)
                                       case NewObserver(_) => c.(observers := c.observers + 1)
                                       case Use(_) => c
  {
    assert cmds[..n + 1][..n] == cmds[..n];
  }

  /** Whatever program is run, from nothing: bags and counts are right and observer arrays sorted at its end. */
  method FromStart(cmds: seq<Command>) returns (i: Items)
    requires forall n | 0 <= n < |cmds| && cmds[n].Use? :: Meant(cmds[n].op, CountsOf(cmds[..n]))
    ensures WorldOf(i) && SizesOf(i) == CountsOf(cmds)
    ensures fresh(i.rls) && fresh(i.xs) && fresh(i.os)
  {
    hide World, Known, Meant, Resolve, CountsOf;
    i := Items([], [], []);
    NothingYet();
    assert SetOf(i.rls) == {} && SetOf(i.xs) == {} && SetOf(i.os) == {};
    assert CountsOf([]) == Counts(0, 0, 0) by { NoCounts(); }
    assert cmds[..0] == [];
    for n := 0 to |cmds|
      invariant WorldOf(i) && SizesOf(i) == CountsOf(cmds[..n])
      invariant fresh(i.rls) && fresh(i.xs) && fresh(i.os)
    {
      CountsNext(cmds, n);
      match cmds[n]
      case NewRunLoop(defaultMode) =>
        var r := MakeRunLoop(defaultMode, SetOf(i.rls), SetOf(i.xs), SetOf(i.os));
        SetOfNext(i.rls, r);
        i := i.(rls := i.rls + [r]);
      case NewSource(version1) =>
        var x := MakeSource(version1, SetOf(i.rls), SetOf(i.xs), SetOf(i.os));
        SetOfNext(i.xs, x);
        i := i.(xs := i.xs + [x]);
      case NewObserver(order) =>
        var o := MakeObserver(order, SetOf(i.rls), SetOf(i.xs), SetOf(i.os));
        SetOfNext(i.os, o);
        i := i.(os := i.os + [o]);
      case Use(op) =>
        ResolvedKnown(op, i);
        Perform(Resolve(op, i), SetOf(i.rls), SetOf(i.xs), SetOf(i.os));
    }
    assert cmds[..|cmds|] == cmds;
  }

  lemma NoCounts()
    ensures CountsOf([]) == Counts(0, 0, 0)
  {
  }
}
