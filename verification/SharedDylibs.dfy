/** Which libraries go into the shared cache: those that depend only on others that do. */
module SharedDylibs {
  import opened Bytes

  type Lib = nat

  /** What a dependency's name leads to: a known library, nothing by that name but something by its real path, or
      nothing. */
  datatype Dependency = Resolved(lib: Lib) | Aliased | Missing

  type Graph = map<Lib, seq<Dependency>>

  ghost predicate Closes(g: Graph) {
    forall x, i | x in g && 0 <= i < |g[x]| && g[x][i].Resolved? :: g[x][i].lib in g
  }

  // ----- the search, with its memory threaded through

  function CanBeShared(g: Graph, possibleLibs: set<Lib>, shareable: map<Lib, bool>, x: Lib): (r: (bool, map<Lib, bool>))
    requires Closes(g) && x in g
    ensures shareable.Keys <= r.1.Keys && x in r.1.Keys && r.1[x] == r.0
    ensures forall y | y in shareable :: r.1[y] == shareable[y]
    decreases g.Keys - shareable.Keys, 0
  {
    if x in shareable then (shareable[x], shareable)
    else if x !in possibleLibs then (false, shareable[x := false])
    else
      assert x in g.Keys - shareable.Keys;
      var (ok, memo) := AllShared(g, possibleLibs, shareable[x := true], x, 0);
      (ok, if ok then memo else memo[x := false])
  }

  /** The loop over the dependencies, from one on. */
  function AllShared(g: Graph, possibleLibs: set<Lib>, shareable: map<Lib, bool>, x: Lib,
                     i: nat): (r: (bool, map<Lib, bool>))
    requires Closes(g) && x in g && i <= |g[x]|
    ensures shareable.Keys <= r.1.Keys && forall y | y in shareable :: r.1[y] == shareable[y]
    decreases g.Keys - shareable.Keys, 1 + |g[x]| - i
  {
    if i == |g[x]| then (true, shareable)
    else
      match g[x][i]
      case Aliased => AllShared(g, possibleLibs, shareable, x, i + 1)
      case Missing => (false, shareable)
      case Resolved(y) =>
        var (ok, memo) := CanBeShared(g, possibleLibs, shareable, y);
        if ok then AllShared(g, possibleLibs, memo, x, i + 1) else (false, memo)
  }

  /** canBeShared. */
  method Search(g: Graph, possibleLibs: set<Lib>, shareable: map<Lib, bool>, layout: Lib)
    returns (ok: bool, shareableMap: map<Lib, bool>)
    requires Closes(g) && layout in g
    ensures (ok, shareableMap) == CanBeShared(g, possibleLibs, shareable, layout)
    decreases g.Keys - shareable.Keys
  {
    if layout in shareable {
      return shareable[layout], shareable;
    }
    if layout !in possibleLibs {
      return false, shareable[layout := false];
    }
    assert layout in g.Keys - shareable.Keys;
    shareableMap := shareable[layout := true];
    ghost var whole := AllShared(g, possibleLibs, shareableMap, layout, 0);
    var i := 0;
    while i < |g[layout]|
      invariant i <= |g[layout]| && shareable.Keys + {layout} <= shareableMap.Keys
      invariant AllShared(g, possibleLibs, shareableMap, layout, i) == whole
      decreases |g[layout]| - i
    {
      var found;
      match g[layout][i] {
        case Aliased =>
        case Missing =>
          return false, shareableMap[layout := false];
        case Resolved(lib) =>
          found, shareableMap := Search(g, possibleLibs, shareableMap, lib);
          if !found {
            return false, shareableMap[layout := false];
          }
      }
      i := i + 1;
    }
    ok := true;
  }

  /** The loop of findSharedDylibs, over the candidates in some order. */
  method FindSharedDylibs(g: Graph, possibleLibs: seq<Lib>) returns (sharedLibs: set<Lib>)
    requires Closes(g) && forall i | 0 <= i < |possibleLibs| :: possibleLibs[i] in g
    ensures sharedLibs == Shared(g, possibleLibs, |possibleLibs|).0
  {
    sharedLibs := {};
    var shareableMap: map<Lib, bool> := map[];
    for n := 0 to |possibleLibs|
      invariant (sharedLibs, shareableMap) == Shared(g, possibleLibs, n)
    {
      var ok;
      ok, shareableMap := Search(g, Members(possibleLibs), shareableMap, possibleLibs[n]);
      if ok {
        sharedLibs := sharedLibs + {possibleLibs[n]};
      }
    }
  }

  /** The result and the memory after `n` candidates. */
  function Shared(g: Graph, possibleLibs: seq<Lib>, n: nat): (set<Lib>, map<Lib, bool>)
    requires Closes(g) && n <= |possibleLibs| && forall i | 0 <= i < |possibleLibs| :: possibleLibs[i] in g
  {
    if n == 0 then ({}, map[])
    else
      var (libs, memo) := Shared(g, possibleLibs, n - 1);
      var (ok, memo') := CanBeShared(g, Members(possibleLibs), memo, possibleLibs[n - 1]);
      (if ok then libs + {possibleLibs[n - 1]} else libs, memo')
  }

  // ----- the greatest set of candidates that depends only on itself

  /** Candidates whose dependencies are all found, and among them unless aliased. */
  ghost predicate Closed(g: Graph, possibleLibs: set<Lib>, c: set<Lib>) {
    && c <= possibleLibs
    && forall x, i | x in c && x in g && 0 <= i < |g[x]| ::
         g[x][i] != Missing && (g[x][i].Resolved? ==> g[x][i].lib in c)
  }

  ghost predicate InGreatest(g: Graph, possibleLibs: set<Lib>, x: Lib) {
    exists c: set<Lib> :: Closed(g, possibleLibs, c) && x in c
  }

  // ----- nothing that could be shared is left out

  /** Nothing marked unshareable belongs to a closed set. */
  ghost predicate NoneLost(g: Graph, possibleLibs: set<Lib>, memo: map<Lib, bool>) {
    forall y | y in memo && InGreatest(g, possibleLibs, y) :: memo[y]
  }

  lemma DependencyInGreatest(g: Graph, possibleLibs: set<Lib>, x: Lib, i: nat)
    requires x in g && i < |g[x]| && InGreatest(g, possibleLibs, x)
    ensures x in possibleLibs && g[x][i] != Missing
    ensures g[x][i].Resolved? ==> InGreatest(g, possibleLibs, g[x][i].lib)
  {
    var c :| Closed(g, possibleLibs, c) && x in c;
  }

  lemma {:induction false} SearchKeeps(g: Graph, possibleLibs: set<Lib>, memo: map<Lib, bool>, x: Lib)
    requires Closes(g) && x in g && NoneLost(g, possibleLibs, memo)
    ensures NoneLost(g, possibleLibs, CanBeShared(g, possibleLibs, memo, x).1)
    decreases g.Keys - memo.Keys, 0
  {
    hide InGreatest;
    if x !in memo && x in possibleLibs {
      assert x in g.Keys - memo.Keys;
      LoopKeeps(g, possibleLibs, memo[x := true], x, 0);
    } else if x !in memo && InGreatest(g, possibleLibs, x) {
      GreatestPossible(g, possibleLibs, x);
    }
  }

  lemma GreatestPossible(g: Graph, possibleLibs: set<Lib>, x: Lib)
    requires InGreatest(g, possibleLibs, x)
    ensures x in possibleLibs
  {
  }

  lemma {:induction false} LoopKeeps(g: Graph, possibleLibs: set<Lib>, memo: map<Lib, bool>, x: Lib, i: nat)
    requires Closes(g) && x in g && i <= |g[x]| && NoneLost(g, possibleLibs, memo)
    ensures var (ok, memo') := AllShared(g, possibleLibs, memo, x, i);
            NoneLost(g, possibleLibs, memo') && (InGreatest(g, possibleLibs, x) ==> ok)
    decreases g.Keys - memo.Keys, 1 + |g[x]| - i
  {
    hide InGreatest;
    if i < |g[x]| {
      if InGreatest(g, possibleLibs, x) {
        DependencyInGreatest(g, possibleLibs, x, i);
      }
      match g[x][i]
      case Aliased => LoopKeeps(g, possibleLibs, memo, x, i + 1);
      case Missing =>
      case Resolved(y) =>
        SearchKeeps(g, possibleLibs, memo, y);
        var (ok, memo') := CanBeShared(g, possibleLibs, memo, y);
        if ok {
          LoopKeeps(g, possibleLibs, memo', x, i + 1);
        }
    }
  }

  // ----- and nothing else is let in, unless dependencies go round in circles among what has to stay out

  /** A chain of dependencies inside a set of libraries. */
  ghost predicate Chain(g: Graph, inside: set<Lib>, path: seq<Lib>) {
    && path != [] && (forall k | 0 <= k < |path| :: path[k] in g && path[k] in inside)
    && forall k, j | 0 <= k && j == k + 1 < |path| :: Resolved(path[j]) in g[path[k]]
  }

  ghost predicate Reaches(g: Graph, inside: set<Lib>, x: Lib, y: Lib) {
    exists path: seq<Lib> :: Chain(g, inside, path) && path[0] == x && path[|path| - 1] == y
  }

  /** No two libraries of the set reach each other; one may depend on itself. */
  ghost predicate NoCircle(g: Graph, inside: set<Lib>) {
    forall x, y | Reaches(g, inside, x, y) && Reaches(g, inside, y, x) :: x == y
  }

  /** The candidates that have to stay out. */
  ghost function Outside(g: Graph, possibleLibs: set<Lib>): set<Lib> {
    set x | x in possibleLibs && !InGreatest(g, possibleLibs, x)
  }

  lemma ReachesItself(g: Graph, inside: set<Lib>, x: Lib)
    requires x in g && x in inside
    ensures Reaches(g, inside, x, x)
  {
    assert Chain(g, inside, [x]);
  }

  lemma ReachesNext(g: Graph, inside: set<Lib>, x: Lib, y: Lib, z: Lib)
    requires Reaches(g, inside, x, y) && Resolved(z) in g[y] && z in g && z in inside
    ensures Reaches(g, inside, x, z)
  {
    var path :| Chain(g, inside, path) && path[0] == x && path[|path| - 1] == y;
    assert Chain(g, inside, path + [z]);
  }

  /** Whatever has been looked at to the end and has to stay out is marked so. */
  ghost predicate Exact(g: Graph, possibleLibs: set<Lib>, memo: map<Lib, bool>, open: set<Lib>) {
    && (forall y | y in memo && y !in open && !InGreatest(g, possibleLibs, y) :: !memo[y])
    && forall y | y in open :: y in memo && y in possibleLibs
  }

  /** What is still being looked at and has to stay out leads to the library in question. */
  ghost predicate Leading(g: Graph, possibleLibs: set<Lib>, open: set<Lib>, x: Lib) {
    forall y | y in open && !InGreatest(g, possibleLibs, y) :: Reaches(g, Outside(g, possibleLibs), y, x)
  }

  /** If all other dependencies of a candidate are found and can stay, so can the candidate. */
  lemma GreatestCloses(g: Graph, possibleLibs: set<Lib>, x: Lib)
    requires x in g && x in possibleLibs
    requires forall i | 0 <= i < |g[x]| :: Stays(g, possibleLibs, x, g[x][i])
    ensures InGreatest(g, possibleLibs, x)
  {
    var all := set y | y in possibleLibs && InGreatest(g, possibleLibs, y);
    forall y, i | y in all + {x} && y in g && 0 <= i < |g[y]|
      ensures g[y][i] != Missing && (g[y][i].Resolved? ==> g[y][i].lib in all + {x})
    {
      if y in all {
        DependencyInGreatest(g, possibleLibs, y, i);
      } else {
        assert Stays(g, possibleLibs, x, g[x][i]);
      }
      if g[y][i].Resolved? && g[y][i].lib != x {
        GreatestPossible(g, possibleLibs, g[y][i].lib);
      }
    }
    assert Closed(g, possibleLibs, all + {x});
  }

  /** A dependency of a library that does not keep it out. */
  ghost predicate Stays(g: Graph, possibleLibs: set<Lib>, x: Lib, d: Dependency) {
    d != Missing && (d.Resolved? ==> d.lib == x || InGreatest(g, possibleLibs, d.lib))
  }

  lemma {:induction false} SearchExact(g: Graph, possibleLibs: set<Lib>, memo: map<Lib, bool>, open: set<Lib>, x: Lib)
    requires Closes(g) && x in g && NoCircle(g, Outside(g, possibleLibs)) && Exact(g, possibleLibs, memo, open)
    requires x in Outside(g, possibleLibs) ==> Leading(g, possibleLibs, open, x)
    ensures var (ok, memo') := CanBeShared(g, possibleLibs, memo, x);
            Exact(g, possibleLibs, memo', open) && (ok && x !in open ==> InGreatest(g, possibleLibs, x))
    decreases g.Keys - memo.Keys, 0
  {
    hide InGreatest, Reaches;
    if x !in memo && x in possibleLibs {
      assert x in g.Keys - memo.Keys;
      if x in Outside(g, possibleLibs) {
        ReachesItself(g, Outside(g, possibleLibs), x);
      }
      LoopExact(g, possibleLibs, memo[x := true], open + {x}, x, 0);
    }
  }

  /** A dependency that is still being looked at and has to stay out can only be the library itself. */
  lemma BackToItself(g: Graph, possibleLibs: set<Lib>, open: set<Lib>, x: Lib, i: nat)
    requires Closes(g) && x in g && x in possibleLibs && i < |g[x]| && g[x][i].Resolved?
    requires NoCircle(g, Outside(g, possibleLibs)) && g[x][i].lib in open && open <= possibleLibs
    requires x in Outside(g, possibleLibs) ==> Leading(g, possibleLibs, open, x)
    ensures g[x][i].lib == x || InGreatest(g, possibleLibs, g[x][i].lib)
  {
    var y, out := g[x][i].lib, Outside(g, possibleLibs);
    if !InGreatest(g, possibleLibs, y) {
      if InGreatest(g, possibleLibs, x) {
        DependencyInGreatest(g, possibleLibs, x, i);
      }
      ReachesItself(g, out, x);
      ReachesNext(g, out, x, x, y);
    }
  }

  lemma {:induction false} LoopExact(g: Graph, possibleLibs: set<Lib>, memo: map<Lib, bool>, open: set<Lib>, x: Lib,
                                     i: nat)
    requires Closes(g) && x in g && x in possibleLibs && x in open && i <= |g[x]|
    requires NoCircle(g, Outside(g, possibleLibs)) && Exact(g, possibleLibs, memo, open)
    requires x in Outside(g, possibleLibs) ==> Leading(g, possibleLibs, open, x)
    requires forall j | 0 <= j < i :: Stays(g, possibleLibs, x, g[x][j])
    ensures var (ok, memo') := AllShared(g, possibleLibs, memo, x, i);
            Exact(g, possibleLibs, memo', open) && (ok ==> InGreatest(g, possibleLibs, x))
    decreases g.Keys - memo.Keys, 1 + |g[x]| - i
  {
    hide InGreatest, Reaches, NoCircle;
    if i == |g[x]| {
      GreatestCloses(g, possibleLibs, x);
    } else {
      match g[x][i]
      case Aliased => LoopExact(g, possibleLibs, memo, open, x, i + 1);
      case Missing =>
      case Resolved(y) =>
        if y in Outside(g, possibleLibs) {
          OutsideDependency(g, possibleLibs, open, x, i);
        }
        SearchExact(g, possibleLibs, memo, open, y);
        var (ok, memo') := CanBeShared(g, possibleLibs, memo, y);
        if ok {
          if y in open {
            BackToItself(g, possibleLibs, open, x, i);
          }
          LoopExact(g, possibleLibs, memo', open, x, i + 1);
        }
    }
  }

  /** What leads to a library leads to its dependencies. */
  lemma OutsideDependency(g: Graph, possibleLibs: set<Lib>, open: set<Lib>, x: Lib, i: nat)
    requires Closes(g) && x in g && x in possibleLibs && i < |g[x]| && g[x][i].Resolved?
    requires x in Outside(g, possibleLibs) ==> Leading(g, possibleLibs, open, x)
    requires g[x][i].lib in Outside(g, possibleLibs)
    ensures Leading(g, possibleLibs, open, g[x][i].lib)
  {
    if InGreatest(g, possibleLibs, x) {
      DependencyInGreatest(g, possibleLibs, x, i);
    }
    forall y | y in open && !InGreatest(g, possibleLibs, y)
      ensures Reaches(g, Outside(g, possibleLibs), y, g[x][i].lib)
    {
      ReachesNext(g, Outside(g, possibleLibs), y, x, g[x][i].lib);
    }
  }

  // ----- for all candidates together

  /** The shared set always contains the greatest closed set of candidates. */
  lemma {:induction false} NothingLost(g: Graph, possibleLibs: seq<Lib>, n: nat)
    requires Closes(g) && n <= |possibleLibs| && forall i | 0 <= i < |possibleLibs| :: possibleLibs[i] in g
    ensures var (libs, memo) := Shared(g, possibleLibs, n);
            && NoneLost(g, Members(possibleLibs), memo)
            && forall i | 0 <= i < n && InGreatest(g, Members(possibleLibs), possibleLibs[i]) :: possibleLibs[i] in libs
  {
    if n > 0 {
      hide InGreatest;
      NothingLost(g, possibleLibs, n - 1);
      SearchKeeps(g, Members(possibleLibs), Shared(g, possibleLibs, n - 1).1, possibleLibs[n - 1]);
    }
  }

  /** And is exactly that set if no circle runs through candidates that have to stay out. */
  lemma {:induction false} NothingExtra(g: Graph, possibleLibs: seq<Lib>, n: nat)
    requires Closes(g) && n <= |possibleLibs| && forall i | 0 <= i < |possibleLibs| :: possibleLibs[i] in g
    requires NoCircle(g, Outside(g, Members(possibleLibs)))
    ensures var (libs, memo) := Shared(g, possibleLibs, n);
            && Exact(g, Members(possibleLibs), memo, {})
            && forall x | x in libs :: InGreatest(g, Members(possibleLibs), x)
  {
    if n > 0 {
      hide InGreatest, NoCircle;
      NothingExtra(g, possibleLibs, n - 1);
      SearchExact(g, Members(possibleLibs), Shared(g, possibleLibs, n - 1).1, {}, possibleLibs[n - 1]);
    }
  }

  /** The shared set is the greatest closed set of candidates. */
  ghost predicate SharesGreatest(g: Graph, possibleLibs: seq<Lib>)
    requires Closes(g) && forall i | 0 <= i < |possibleLibs| :: possibleLibs[i] in g
  {
    forall x :: x in Shared(g, possibleLibs, |possibleLibs|).0 <==> InGreatest(g, Members(possibleLibs), x)
  }

  lemma SharedExactly(g: Graph, possibleLibs: seq<Lib>)
    requires Closes(g) && (forall i | 0 <= i < |possibleLibs| :: possibleLibs[i] in g)
    requires NoCircle(g, Outside(g, Members(possibleLibs)))
    ensures SharesGreatest(g, possibleLibs)
  {
    NothingLost(g, possibleLibs, |possibleLibs|);
    NothingExtra(g, possibleLibs, |possibleLibs|);
    forall x | InGreatest(g, Members(possibleLibs), x)
      ensures x in Shared(g, possibleLibs, |possibleLibs|).0
    {
      GreatestPossible(g, Members(possibleLibs), x);
      var i :| 0 <= i < |possibleLibs| && possibleLibs[i] == x;
    }
  }

  // ----- circles are exactly what can go wrong

  /** The same dependencies, with one more that is missing for some libraries. */
  ghost function WithMissing(g: Graph, broken: set<Lib>): (h: Graph)
    ensures h.Keys == g.Keys && forall x | x in g :: h[x] == if x in broken then g[x] + [Missing] else g[x]
  {
    map x | x in g :: if x in broken then g[x] + [Missing] else g[x]
  }

  /** The search is exact whatever is missing, whichever candidates there are, and in whatever order they come. */
  ghost predicate AlwaysExact(g: Graph)
    requires Closes(g)
  {
    forall broken: set<Lib>, possibleLibs: seq<Lib> | Inside(g, possibleLibs) ::
      Closes(WithMissing(g, broken)) && SharesGreatest(WithMissing(g, broken), possibleLibs)
  }

  ghost predicate Inside(g: Graph, possibleLibs: seq<Lib>) {
    forall i | 0 <= i < |possibleLibs| :: possibleLibs[i] in g
  }

  /** No dependency is missing. */
  ghost predicate Whole(g: Graph) {
    forall x | x in g :: Missing !in g[x]
  }

  lemma SameChains(g: Graph, broken: set<Lib>, inside: set<Lib>, x: Lib, y: Lib)
    requires Reaches(WithMissing(g, broken), inside, x, y)
    ensures Reaches(g, g.Keys, x, y)
  {
    var h := WithMissing(g, broken);
    var path :| Chain(h, inside, path) && path[0] == x && path[|path| - 1] == y;
    assert Chain(g, g.Keys, path);
  }

  /** Without circles of two or more libraries the search is always exact. */
  lemma NoCircleExact(g: Graph)
    requires Closes(g) && NoCircle(g, g.Keys)
    ensures AlwaysExact(g)
  {
    forall broken: set<Lib>, possibleLibs: seq<Lib> | Inside(g, possibleLibs)
      ensures Closes(WithMissing(g, broken)) && SharesGreatest(WithMissing(g, broken), possibleLibs)
    {
      var h := WithMissing(g, broken);
      var out := Outside(h, Members(possibleLibs));
      forall x, y | Reaches(h, out, x, y) && Reaches(h, out, y, x)
        ensures x == y
      {
        SameChains(g, broken, out, x, y);
        SameChains(g, broken, out, y, x);
      }
      SharedExactly(h, possibleLibs);
    }
  }

  // A circle is let in when the first library that is searched is the one with a missing dependency.

  /** Only the library `x` has a missing dependency, as its last one. */
  ghost predicate LastMissing(h: Graph, x: Lib) {
    && x in h && h[x] != [] && h[x][|h[x]| - 1] == Missing
    && forall z, i | z in h && 0 <= i < |h[z]| && h[z][i] == Missing :: z == x && i == |h[x]| - 1
  }

  ghost predicate AllTrue(memo: map<Lib, bool>) {
    forall y | y in memo :: memo[y]
  }

  /** What a library depends on has been looked at. */
  ghost predicate Followed(h: Graph, z: Lib, from: nat, memo: map<Lib, bool>)
    requires z in h
  {
    forall i | from <= i < |h[z]| && h[z][i].Resolved? :: h[z][i].lib in memo
  }

  ghost predicate NewFollowed(h: Graph, memo: map<Lib, bool>, memo': map<Lib, bool>) {
    forall z | z in memo' && z !in memo && z in h :: Followed(h, z, 0, memo')
  }

  lemma {:induction false} LetIn(h: Graph, x: Lib, memo: map<Lib, bool>, y: Lib)
    requires Closes(h) && LastMissing(h, x) && AllTrue(memo) && x in memo && y in h
    ensures var (ok, memo') := CanBeShared(h, h.Keys, memo, y);
            ok && AllTrue(memo') && NewFollowed(h, memo, memo')
    decreases h.Keys - memo.Keys, 0
  {
    if y !in memo {
      assert y in h.Keys - memo.Keys;
      LetInLoop(h, x, memo[y := true], y, 0);
    }
  }

  lemma {:induction false} LetInLoop(h: Graph, x: Lib, memo: map<Lib, bool>, z: Lib, i: nat)
    requires Closes(h) && LastMissing(h, x) && AllTrue(memo) && x in memo
    requires z in h && i <= |h[z]| && (z == x ==> i < |h[z]|)
    ensures var (ok, memo') := AllShared(h, h.Keys, memo, z, i);
            ok == (z != x) && AllTrue(memo') && NewFollowed(h, memo, memo') && Followed(h, z, i, memo')
    decreases h.Keys - memo.Keys, 1 + |h[z]| - i
  {
    if i < |h[z]| {
      match h[z][i]
      case Aliased => LetInLoop(h, x, memo, z, i + 1);
      case Missing =>
      case Resolved(y) =>
        LetIn(h, x, memo, y);
        var memo' := CanBeShared(h, h.Keys, memo, y).1;
        LetInLoop(h, x, memo', z, i + 1);
    }
  }

  /** Whatever is closed under dependencies contains all that its members reach. */
  lemma {:induction false} AlongChain(g: Graph, inside: set<Lib>, path: seq<Lib>, c: set<Lib>, k: nat)
    requires Chain(g, inside, path) && k < |path| && path[0] in c
    requires forall z, y | z in c && z in g && Resolved(y) in g[z] :: y in c
    ensures path[k] in c
  {
    if k > 0 {
      AlongChain(g, inside, path, c, k - 1);
      assert Resolved(path[k]) in g[path[k - 1]];
    }
  }

  lemma ReachedIn(g: Graph, x: Lib, y: Lib, c: set<Lib>)
    requires Reaches(g, g.Keys, x, y) && x in c && forall z, v | z in c && z in g && Resolved(v) in g[z] :: v in c
    ensures y in c
  {
    var path :| Chain(g, g.Keys, path) && path[0] == x && path[|path| - 1] == y;
    AlongChain(g, g.Keys, path, c, |path| - 1);
  }

  /** Nothing that reaches a library with a missing dependency can be in a closed set. */
  lemma BrokenStaysOut(g: Graph, possibleLibs: set<Lib>, x: Lib, y: Lib)
    requires Reaches(g, g.Keys, y, x) && x in g
    ensures !InGreatest(WithMissing(g, {x}), possibleLibs, y)
  {
    var h := WithMissing(g, {x});
    assert h[x][|g[x]|] == Missing;
    forall c: set<Lib> | Closed(h, possibleLibs, c)
      ensures y !in c
    {
      if y in c {
        ClosedReaches(g, possibleLibs, x, y, c);
      }
    }
  }

  lemma ClosedReaches(g: Graph, possibleLibs: set<Lib>, x: Lib, y: Lib, c: set<Lib>)
    requires Reaches(g, g.Keys, y, x) && x in g && y in c && Closed(WithMissing(g, {x}), possibleLibs, c)
    ensures x in c
  {
    var h := WithMissing(g, {x});
    forall z, v | z in c && z in g && Resolved(v) in g[z]
      ensures v in c
    {
      var i :| 0 <= i < |g[z]| && g[z][i] == Resolved(v);
      assert h[z][i] == Resolved(v);
    }
    ReachedIn(g, y, x, c);
  }

  /** The search for the broken library fails, but leaves all that it reaches marked as shareable. */
  lemma {:induction false} FirstSearch(g: Graph, x: Lib, y: Lib)
    requires Closes(g) && Whole(g) && x in g && x != y && Reaches(g, g.Keys, x, y)
    ensures var h := WithMissing(g, {x}); Closes(h)
    ensures var h := WithMissing(g, {x});
            var (ok, memo) := CanBeShared(h, h.Keys, map[], x);
            !ok && y in memo && memo[y]
  {
    var h := WithMissing(g, {x});
    var none: map<Lib, bool> := map[];
    LetInLoop(h, x, none[x := true], x, 0);
    var memo := AllShared(h, h.Keys, none[x := true], x, 0).1;
    forall z, v | z in memo.Keys && z in g && Resolved(v) in g[z]
      ensures v in memo.Keys
    {
      var i :| 0 <= i < |g[z]| && g[z][i] == Resolved(v);
      assert h[z][i] == Resolved(v);
      assert Followed(h, z, 0, memo);
    }
    ReachedIn(g, x, y, memo.Keys);
  }

  /** What is marked as shareable early is let in when its turn comes. */
  lemma {:induction false} LetInLater(h: Graph, possibleLibs: seq<Lib>, n: nat, y: Lib)
    requires Closes(h) && 0 < n <= |possibleLibs| && Inside(h, possibleLibs)
    requires y in Shared(h, possibleLibs, 1).1 && Shared(h, possibleLibs, 1).1[y]
    ensures y in Shared(h, possibleLibs, n).1 && Shared(h, possibleLibs, n).1[y]
    ensures (exists k | 1 <= k < n :: possibleLibs[k] == y) ==> y in Shared(h, possibleLibs, n).0
  {
    if n > 1 {
      LetInLater(h, possibleLibs, n - 1, y);
    }
  }

  /** The libraries of a set in some order. */
  ghost function Listed(libs: set<Lib>): (r: seq<Lib>)
    ensures forall x :: x in r <==> x in libs
    decreases libs
  {
    if libs == {} then [] else
      var x :| x in libs;
      [x] + Listed(libs - {x})
  }

  lemma {:induction false} MarkedFirst(h: Graph, possibleLibs: seq<Lib>, k: nat, y: Lib)
    requires Closes(h) && Inside(h, possibleLibs) && 0 < k < |possibleLibs| && possibleLibs[k] == y
    requires var memo := CanBeShared(h, Members(possibleLibs), map[], possibleLibs[0]).1; y in memo && memo[y]
    ensures y in Shared(h, possibleLibs, |possibleLibs|).0
  {
    assert Shared(h, possibleLibs, 0) == ({}, map[]);
    assert Shared(h, possibleLibs, 1).1 == CanBeShared(h, Members(possibleLibs), map[], possibleLibs[0]).1;
    LetInLater(h, possibleLibs, |possibleLibs|, y);
  }

  /** Two libraries that reach each other: with something missing for one of them, the other is let in wrongly. */
  lemma CircleInexact(g: Graph, x: Lib, y: Lib)
    requires Closes(g) && Whole(g) && x in g && y in g && x != y
    requires Reaches(g, g.Keys, x, y) && Reaches(g, g.Keys, y, x)
    ensures var possibleLibs := [x] + Listed(g.Keys);
            && Inside(g, possibleLibs) && Closes(WithMissing(g, {x}))
            && !SharesGreatest(WithMissing(g, {x}), possibleLibs)
  {
    hide Closes, Whole, Reaches, InGreatest, CanBeShared, Shared, Inside, Listed, Members;
    var h, possibleLibs := WithMissing(g, {x}), [x] + Listed(g.Keys);
    FirstSearch(g, x, y);
    var k := Position(g, x, y);
    MarkedFirst(h, possibleLibs, k, y);
    BrokenStaysOut(g, Members(possibleLibs), x, y);
  }

  lemma Position(g: Graph, x: Lib, y: Lib) returns (k: nat)
    requires x in g && y in g
    ensures Inside(g, [x] + Listed(g.Keys)) && Inside(WithMissing(g, {x}), [x] + Listed(g.Keys))
    ensures Members([x] + Listed(g.Keys)) == g.Keys
    ensures 0 < k < |[x] + Listed(g.Keys)| && ([x] + Listed(g.Keys))[k] == y
  {
    hide Listed;
    k := InTail(x, Listed(g.Keys), y);
    assert forall z :: z in [x] + Listed(g.Keys) <==> z in g.Keys;
  }

  lemma InTail(x: Lib, s: seq<Lib>, y: Lib) returns (k: nat)
    requires y in s
    ensures 0 < k < |[x] + s| && ([x] + s)[k] == y
  {
    var j: nat :| j < |s| && s[j] == y;
    k := j + 1;
  }

  /** The search is exact whatever is missing and in whatever order it goes if and only if no two libraries reach each
      other. */
  lemma AlwaysExactIff(g: Graph)
    requires Closes(g) && Whole(g)
    ensures AlwaysExact(g) <==> NoCircle(g, g.Keys)
  {
    hide Reaches, SharesGreatest, Closes, Whole, WithMissing, Listed, Inside;
    if NoCircle(g, g.Keys) {
      NoCircleExact(g);
    }
    if AlwaysExact(g) {
      forall x, y | Reaches(g, g.Keys, x, y) && Reaches(g, g.Keys, y, x)
        ensures x == y
      {
        if x != y {
          EndsKnown(g, x, y);
          CircleInexact(g, x, y);
        }
      }
    }
  }

  lemma EndsKnown(g: Graph, x: Lib, y: Lib)
    requires Reaches(g, g.Keys, x, y)
    ensures x in g && y in g
  {
  }

  /** The order decides, too: 1 needs 2 and something missing, and 2 needs 1; searched first, 1 lets 2 in. */
  lemma CircleLetsIn()
    ensures var g: Graph := map[1 := [Resolved(2), Missing], 2 := [Resolved(1)]];
            && Closes(g) && !InGreatest(g, Members([1, 2]), 2)
            && Shared(g, [1, 2], 2).0 == {2} && Shared(g, [2, 1], 2).0 == {}
  {
    var g: Graph := map[1 := [Resolved(2), Missing], 2 := [Resolved(1)]];
    var p := {1, 2};
    OneFirst(g);
    TwoFirst(g);
    Both(g, 1, 2, map[1 := false, 2 := true]);
    assert {2, 1} == p;
    Both(g, 2, 1, map[1 := false, 2 := false]);
    forall c: set<Lib> | Closed(g, p, c)
      ensures 2 !in c
    {
      assert g[2][0] == Resolved(1) && g[1][1] == Missing;
    }
  }

  /** The search for one library first settles the other one, too. */
  lemma {:induction false} Both(g: Graph, x: Lib, y: Lib, memo: map<Lib, bool>)
    requires Closes(g) && x in g && y in g && x in memo && y in memo && x != y
    requires CanBeShared(g, {x, y}, map[], x) == (false, memo)
    ensures Members([x, y]) == {x, y}
    ensures Shared(g, [x, y], 2).0 == if memo[y] then {y} else {}
  {
    hide CanBeShared, Closes;
    assert Members([x, y]) == {x, y};
    assert Shared(g, [x, y], 0) == ({}, map[]);
    assert Shared(g, [x, y], 1) == ({}, memo);
    SettledLookup(g, {x, y}, memo, y);
  }

  lemma {:induction false} SettledLookup(g: Graph, possible: set<Lib>, memo: map<Lib, bool>, y: Lib)
    requires Closes(g) && y in memo && y in g
    ensures CanBeShared(g, possible, memo, y) == (memo[y], memo)
  {
  }

  lemma {:induction false} OneFirst(g: Graph)
    requires g == map[1 := [Resolved(2), Missing], 2 := [Resolved(1)]]
    ensures Closes(g) && CanBeShared(g, {1, 2}, map[], 1) == (false, map[1 := false, 2 := true])
  {
    var p, both := {1, 2}, map[1 := true, 2 := true];
    assert AllShared(g, p, both, 2, 1) == (true, both);
    assert CanBeShared(g, p, both, 1).0;
    assert AllShared(g, p, both, 2, 0) == (true, both);
    assert CanBeShared(g, p, map[1 := true], 2) == (true, both);
    assert AllShared(g, p, both, 1, 1) == (false, both);
    assert AllShared(g, p, map[1 := true], 1, 0) == (false, both);
    var none: map<Lib, bool> := map[];
    assert none[1 := true] == map[1 := true] && both[1 := false] == map[1 := false, 2 := true];
  }

  lemma {:induction false} TwoFirst(g: Graph)
    requires g == map[1 := [Resolved(2), Missing], 2 := [Resolved(1)]]
    ensures Closes(g) && CanBeShared(g, {1, 2}, map[], 2) == (false, map[1 := false, 2 := false])
  {
    var p, both := {1, 2}, map[1 := true, 2 := true];
    assert CanBeShared(g, p, both, 2).0;
    assert AllShared(g, p, both, 1, 1) == (false, both);
    assert AllShared(g, p, both, 1, 0) == (false, both);
    var one := map[1 := false, 2 := true];
    assert both[1 := false] == one && map[2 := true][1 := true] == both;
    assert CanBeShared(g, p, map[2 := true], 1) == (false, one);
    assert AllShared(g, p, map[2 := true], 2, 0) == (false, one);
    var none: map<Lib, bool> := map[];
    assert none[2 := true] == map[2 := true] && one[2 := false] == map[1 := false, 2 := false];
  }
}
