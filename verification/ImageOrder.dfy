/** Images and the images they depend on: depths that order them, initialisation from the bottom up. */
module ImageOrder {
  import opened Bytes

  const DEPENDENTS_INITIALIZED := 45
  const INITIALIZED := 50

  class ImageLoader {
    const libs: seq<ImageLoader?>
    var fDepth: u32
    var fState: nat

    constructor (libs: seq<ImageLoader?>)
      ensures this.libs == libs && fDepth == 0 && fState == 0
    {
      this.libs, fDepth, fState := libs, 0, 0;
    }

    /** recursiveUpdateDepth: this image and everything below it get their final depths. */
    method RecursiveUpdateDepth(maxDepth: u32, ghost g: Graph, ghost prior: map<ImageLoader, nat>) returns (depth: u32)
      requires Acyclic(g) && this in g.all && prior.Keys == g.all && NoUnderflow(g, prior, maxDepth)
      requires Settling(g, prior, maxDepth, g.rank[this])
      modifies g.all`fDepth
      ensures depth == fDepth && Settled(g, prior, maxDepth, this)
      ensures forall y | y in g.all ::
                y.fDepth == old(y.fDepth) || (g.rank[y] <= g.rank[this] && Settled(g, prior, maxDepth, y))
      decreases g.rank[this]
    {
      hide Reachable, Final, LeastOf, NoUnderflow;
      if fDepth == 0 {
        fDepth := maxDepth;
        var minDependentDepth := maxDepth;
        var i := 0;
        LeastStart(g, prior, maxDepth, this);
        while i < |libs|
          invariant i <= |libs|
          invariant minDependentDepth == LeastOf(g, prior, maxDepth, this, i)
          invariant forall j | 0 <= j < i && libs[j] != null :: libs[j] in g.all && Settled(g, prior, maxDepth, libs[j])
          invariant forall y | y in g.all && y != this ::
                      y.fDepth == old(y.fDepth) || (g.rank[y] < g.rank[this] && Settled(g, prior, maxDepth, y))
        {
          LeastNext(g, prior, maxDepth, this, i);
          var dependentImage := libs[i];
          if dependentImage != null {
            label before:
            Lower(g, this, i);
            forall x | x in g.all && g.rank[x] < g.rank[this]
              ensures x.fDepth != 0 ==> Settled(g, prior, maxDepth, x)
            {
              Below(g, x);
              assert old(x.fDepth) != 0 ==> old(Settled(g, prior, maxDepth, x));
            }
            var d := dependentImage.RecursiveUpdateDepth(maxDepth, g, prior);
            forall x | x in g.all && g.rank[x] < g.rank[this] && old@before(Settled(g, prior, maxDepth, x))
              ensures Settled(g, prior, maxDepth, x)
            {
              Below(g, x);
            }
            ItselfSettled(g, prior, maxDepth, dependentImage);
            if d < minDependentDepth {
              minDependentDepth := d;
            }
          }
          i := i + 1;
        }
        FinalIs(g, prior, maxDepth, this);
        fDepth := minDependentDepth - 1;
      }
      return fDepth;
    }

    /** recursiveInitialization, for initialisers that do not throw and do not load further images. */
    method RecursiveInitialization(context: LinkContext, ghost g: Graph)
      requires Acyclic(g) && this in g.all && DeeperBelow(g)
      requires BottomUp(context.initialized, g) && Ready(g, context.initialized, g.rank[this])
      modifies g.all`fState, context
      ensures BottomUp(context.initialized, g) && this in context.initialized
      ensures old(context.initialized) <= context.initialized
      ensures forall x | x in g.all ::
                || (x.fState == old(x.fState) && (x in context.initialized <==> x in old(context.initialized)))
                || (x in Reachable(g, this) && x.fState == INITIALIZED && x in context.initialized
                    && x !in old(context.initialized))
      decreases g.rank[this]
    {
      hide Reachable, BottomUp;
      if fState < DEPENDENTS_INITIALIZED - 1 {
        fState := DEPENDENTS_INITIALIZED - 1;
        var i := 0;
        while i < |libs|
          invariant i <= |libs| && fState == DEPENDENTS_INITIALIZED - 1
          invariant BottomUp(context.initialized, g) && old(context.initialized) <= context.initialized
          invariant this !in context.initialized
          invariant forall j | 0 <= j < i && libs[j] != null :: libs[j] in context.initialized
          invariant forall x | x in g.all && x != this ::
                      || (x.fState == old(x.fState) && (x in context.initialized <==> x in old(context.initialized)))
                      || (x in Reachable(g, this) && x.fState == INITIALIZED && x in context.initialized
                          && x !in old(context.initialized))
        {
          var dependentImage := libs[i];
          if dependentImage != null {
            // images above this one would be left out here; there are none
            if dependentImage.fDepth >= fDepth {
              Lower(g, this, i);
              Below(g, dependentImage);
              dependentImage.RecursiveInitialization(context, g);
            }
          }
          i := i + 1;
        }
        fState := DEPENDENTS_INITIALIZED;
        OneMoreInOrder(context.initialized, g, this);
        context.initialized := context.initialized + [this];
        fState := INITIALIZED;
      }
    }
  }

  class LinkContext {
    ghost var initialized: seq<ImageLoader>

    constructor ()
      ensures initialized == []
    {
      initialized := [];
    }
  }

  /** No image is deeper than one it depends on: the guard of recursiveInitialization never skips anything. */
  ghost predicate DeeperBelow(g: Graph)
    reads g.all`fDepth
  {
    forall x, i | x in g.all && 0 <= i < |x.libs| && x.libs[i] != null && x.libs[i] in g.all ::
      x.fDepth <= x.libs[i].fDepth
  }

  /** No image is initialised twice, and each comes after all it depends on. */
  ghost predicate BottomUp(order: seq<ImageLoader>, g: Graph) {
    && NoDup(order) && (forall p | 0 <= p < |order| :: order[p] in g.all)
    && forall p, i | 0 <= p < |order| && 0 <= i < |order[p].libs| && order[p].libs[i] != null ::
         order[p].libs[i] in order[..p]
  }

  /** Up to a rank, an image is either initialised or has not been touched. */
  ghost predicate Ready(g: Graph, order: seq<ImageLoader>, rank: int)
    requires Acyclic(g)
    reads g.all`fState
  {
    forall x | x in g.all && g.rank[x] <= rank ::
      if x in order then x.fState == INITIALIZED else x.fState < DEPENDENTS_INITIALIZED - 1
  }

  lemma OneMoreInOrder(order: seq<ImageLoader>, g: Graph, x: ImageLoader)
    requires BottomUp(order, g) && x in g.all && x !in order
    requires forall i | 0 <= i < |x.libs| && x.libs[i] != null :: x.libs[i] in order
    ensures BottomUp(order + [x], g)
  {
    var next := order + [x];
    forall p, i | 0 <= p < |next| && 0 <= i < |next[p].libs| && next[p].libs[i] != null
      ensures next[p].libs[i] in next[..p]
    {
      assert next[..p] == order[..p];
      if p < |order| {
        assert order[p].libs[i] in order[..p];
      } else {
        assert order[..p] == order;
      }
    }
  }

  // ----- the dependency graph

  /** All images, and a rank that every dependency lowers. */
  datatype Graph = Graph(all: set<ImageLoader>, rank: map<ImageLoader, nat>)

  ghost predicate Acyclic(g: Graph) {
    && g.rank.Keys == g.all
    && forall x, i | x in g.all && 0 <= i < |x.libs| && x.libs[i] != null ::
         x.libs[i] in g.all && g.rank[x.libs[i]] < g.rank[x]
  }

  /** The images an image depends on, directly or not, and the image itself. */
  ghost function Reachable(g: Graph, x: ImageLoader): (s: set<ImageLoader>)
    requires Acyclic(g) && x in g.all
    ensures x in s && s <= g.all
    decreases g.rank[x]
  {
    {x} + set i, y | 0 <= i < |x.libs| && x.libs[i] != null && y in Reachable(g, x.libs[i]) :: y
  }

  /** The depth an image ends up with: kept if it has one, otherwise one less than the least among those it depends on.
      A negative number stands for one that wraps around. */
  ghost function Final(g: Graph, prior: map<ImageLoader, nat>, maxDepth: nat, x: ImageLoader): int
    requires Acyclic(g) && x in g.all && prior.Keys == g.all
    decreases g.rank[x], |x.libs| + 1
  {
    if prior[x] != 0 then prior[x] else LeastOf(g, prior, maxDepth, x, |x.libs|) - 1
  }

  ghost function LeastOf(g: Graph, prior: map<ImageLoader, nat>, maxDepth: nat, x: ImageLoader, n: nat): (d: int)
    requires Acyclic(g) && x in g.all && prior.Keys == g.all && n <= |x.libs|
    ensures d <= maxDepth
    ensures forall i | 0 <= i < n && x.libs[i] != null :: d <= Final(g, prior, maxDepth, x.libs[i])
    decreases g.rank[x], n
  {
    if n == 0 then maxDepth
    else
      var d := LeastOf(g, prior, maxDepth, x, n - 1);
      if x.libs[n - 1] != null && Final(g, prior, maxDepth, x.libs[n - 1]) < d then
        Final(g, prior, maxDepth, x.libs[n - 1]) else d
  }

  ghost predicate NoUnderflow(g: Graph, prior: map<ImageLoader, nat>, maxDepth: nat)
    requires Acyclic(g) && prior.Keys == g.all
  {
    forall x | x in g.all :: 0 <= Final(g, prior, maxDepth, x) < TWO32
  }

  /** The image and everything below it have their final depths. */
  ghost predicate Settled(g: Graph, prior: map<ImageLoader, nat>, maxDepth: nat, x: ImageLoader)
    requires Acyclic(g) && x in g.all && prior.Keys == g.all
    reads g.all`fDepth
  {
    forall y | y in Reachable(g, x) :: y.fDepth == Final(g, prior, maxDepth, y)
  }

  /** Up to a rank, an image that has a depth is settled. */
  ghost predicate Settling(g: Graph, prior: map<ImageLoader, nat>, maxDepth: nat, rank: int)
    requires Acyclic(g) && prior.Keys == g.all
    reads g.all`fDepth
  {
    forall x | x in g.all && g.rank[x] <= rank ::
      (x.fDepth != 0 ==> Settled(g, prior, maxDepth, x)) && (prior[x] != 0 ==> x.fDepth == prior[x])
  }

  lemma {:induction false} Lower(g: Graph, x: ImageLoader, i: nat)
    requires Acyclic(g) && x in g.all && i < |x.libs| && x.libs[i] != null
    ensures x.libs[i] in g.all && g.rank[x.libs[i]] < g.rank[x] && Reachable(g, x.libs[i]) <= Reachable(g, x)
  {
  }

  /** Whatever an image reaches, other than itself, has a lower rank. */
  lemma {:induction false} Below(g: Graph, x: ImageLoader)
    requires Acyclic(g) && x in g.all
    ensures forall y | y in Reachable(g, x) :: y in g.all && (y == x || g.rank[y] < g.rank[x])
    ensures forall y | y in Reachable(g, x) :: Reachable(g, y) <= Reachable(g, x)
    decreases g.rank[x]
  {
    forall y | y in Reachable(g, x) && y != x
      ensures g.rank[y] < g.rank[x] && Reachable(g, y) <= Reachable(g, x)
    {
      var i :| 0 <= i < |x.libs| && x.libs[i] != null && y in Reachable(g, x.libs[i]);
      Below(g, x.libs[i]);
      Lower(g, x, i);
    }
  }

  lemma {:induction false} LeastStart(g: Graph, prior: map<ImageLoader, nat>, maxDepth: nat, x: ImageLoader)
    requires Acyclic(g) && x in g.all && prior.Keys == g.all
    ensures LeastOf(g, prior, maxDepth, x, 0) == maxDepth
  {
  }

  lemma LeastNext(g: Graph, prior: map<ImageLoader, nat>, maxDepth: nat, x: ImageLoader, n: nat)
    requires Acyclic(g) && x in g.all && prior.Keys == g.all && n < |x.libs|
    ensures x.libs[n] == null ==> LeastOf(g, prior, maxDepth, x, n + 1) == LeastOf(g, prior, maxDepth, x, n)
    ensures x.libs[n] != null ==>
              var d, e := LeastOf(g, prior, maxDepth, x, n), Final(g, prior, maxDepth, x.libs[n]);
              LeastOf(g, prior, maxDepth, x, n + 1) == if e < d then e else d
  {
  }

  lemma {:induction false} FinalIs(g: Graph, prior: map<ImageLoader, nat>, maxDepth: nat, x: ImageLoader)
    requires Acyclic(g) && x in g.all && prior.Keys == g.all && NoUnderflow(g, prior, maxDepth)
    ensures prior[x] == 0 ==> Final(g, prior, maxDepth, x) == LeastOf(g, prior, maxDepth, x, |x.libs|) - 1
    ensures 0 <= Final(g, prior, maxDepth, x) < TWO32
    ensures x in Reachable(g, x)
    ensures forall y | y in Reachable(g, x) && y != x :: exists i | 0 <= i < |x.libs| && x.libs[i] != null ::
              y in Reachable(g, x.libs[i])
    ensures forall y | y in Reachable(g, x) :: y in g.all
  {
  }

  lemma {:induction false} ItselfSettled(g: Graph, prior: map<ImageLoader, nat>, maxDepth: nat, x: ImageLoader)
    requires Acyclic(g) && x in g.all && prior.Keys == g.all && Settled(g, prior, maxDepth, x)
    ensures x.fDepth == Final(g, prior, maxDepth, x)
  {
  }

  // ----- what follows for a whole graph

  /** Everything an initialised image depends on, directly or not, was initialised before it. */
  lemma {:induction false} DependenciesFirst(order: seq<ImageLoader>, g: Graph, p: nat, y: ImageLoader)
    requires Acyclic(g) && BottomUp(order, g) && p < |order| && y in Reachable(g, order[p]) && y != order[p]
    ensures y in order[..p]
    decreases p
  {
    var x := order[p];
    var i :| 0 <= i < |x.libs| && x.libs[i] != null && y in Reachable(g, x.libs[i]);
    assert x.libs[i] in order[..p];
    var q :| 0 <= q < p && order[q] == x.libs[i];
    if y != order[q] {
      DependenciesFirst(order, g, q, y);
      assert order[..q] <= order[..p];
      var r :| 0 <= r < |order[..q]| && order[..q][r] == y;
      assert order[..p][r] == y;
    }
  }

  /** The length of the longest chain of dependencies that starts at an image. */
  ghost function Height(g: Graph, x: ImageLoader): (h: nat)
    requires Acyclic(g) && x in g.all
    ensures h > 0
    decreases g.rank[x], |x.libs| + 1
  {
    1 + Highest(g, x, |x.libs|)
  }

  ghost function Highest(g: Graph, x: ImageLoader, n: nat): (h: nat)
    requires Acyclic(g) && x in g.all && n <= |x.libs|
    ensures forall i | 0 <= i < n && x.libs[i] != null :: Height(g, x.libs[i]) <= h
    decreases g.rank[x], n
  {
    if n == 0 then 0
    else
      var h := Highest(g, x, n - 1);
      if x.libs[n - 1] != null && Height(g, x.libs[n - 1]) > h then Height(g, x.libs[n - 1]) else h
  }

  ghost predicate Fresh(g: Graph, prior: map<ImageLoader, nat>) {
    prior.Keys == g.all && forall x | x in g.all :: prior[x] == 0
  }

  /** When no image has a depth yet, the depths count down with the height. */
  lemma {:induction false} FreshDepth(g: Graph, prior: map<ImageLoader, nat>, maxDepth: nat, x: ImageLoader)
    requires Acyclic(g) && x in g.all && Fresh(g, prior)
    ensures Final(g, prior, maxDepth, x) == maxDepth - Height(g, x)
    decreases g.rank[x], |x.libs| + 1
  {
    FreshLeast(g, prior, maxDepth, x, |x.libs|);
  }

  lemma {:induction false} FreshLeast(g: Graph, prior: map<ImageLoader, nat>, maxDepth: nat, x: ImageLoader, n: nat)
    requires Acyclic(g) && x in g.all && n <= |x.libs| && Fresh(g, prior)
    ensures LeastOf(g, prior, maxDepth, x, n) == maxDepth - Highest(g, x, n)
    decreases g.rank[x], n
  {
    if n > 0 {
      FreshLeast(g, prior, maxDepth, x, n - 1);
      if x.libs[n - 1] != null {
        FreshDepth(g, prior, maxDepth, x.libs[n - 1]);
      }
    }
  }

  /** No chain is longer than the number of images it runs through. */
  lemma {:induction false} HeightBound(g: Graph, x: ImageLoader)
    requires Acyclic(g) && x in g.all
    ensures Height(g, x) <= |Reachable(g, x)|
    decreases g.rank[x], |x.libs| + 1
  {
    HighestBound(g, x, |x.libs|);
    Below(g, x);
    var others := Reachable(g, x) - {x};
    assert |Reachable(g, x)| == |others| + 1;
  }

  lemma {:induction false} HighestBound(g: Graph, x: ImageLoader, n: nat)
    requires Acyclic(g) && x in g.all && n <= |x.libs|
    ensures Highest(g, x, n) <= |Reachable(g, x) - {x}|
    decreases g.rank[x], n
  {
    if n > 0 {
      HighestBound(g, x, n - 1);
      if x.libs[n - 1] != null {
        Lower(g, x, n - 1);
        HeightBound(g, x.libs[n - 1]);
        Below(g, x.libs[n - 1]);
        SubsetSize(Reachable(g, x.libs[n - 1]), Reachable(g, x) - {x});
      }
    }
  }

  /** Started with the number of images, or more, on images without depths, the assignment never underflows. */
  lemma FreshNoUnderflow(g: Graph, prior: map<ImageLoader, nat>, maxDepth: nat)
    requires Acyclic(g) && Fresh(g, prior) && |g.all| <= maxDepth < TWO32
    ensures NoUnderflow(g, prior, maxDepth)
  {
    forall x | x in g.all
      ensures 0 <= Final(g, prior, maxDepth, x) < TWO32
    {
      FreshDepth(g, prior, maxDepth, x);
      HeightBound(g, x);
      SubsetSize(Reachable(g, x), g.all);
    }
  }

  /** And every image gets a smaller depth than each image it depends on. */
  lemma {:induction false} DepthsDescend(g: Graph, prior: map<ImageLoader, nat>, maxDepth: nat, x: ImageLoader, i: nat)
    requires Acyclic(g) && x in g.all && prior.Keys == g.all && prior[x] == 0 && i < |x.libs| && x.libs[i] != null
    ensures Final(g, prior, maxDepth, x) < Final(g, prior, maxDepth, x.libs[i])
  {
  }

  /** A settled image has its final depth, and so has everything below it. */
  lemma {:induction false} SettledBelow(g: Graph, prior: map<ImageLoader, nat>, maxDepth: nat, x: ImageLoader)
    requires Acyclic(g) && x in g.all && Fresh(g, prior) && Settled(g, prior, maxDepth, x)
    ensures forall y | y in Reachable(g, x) :: y in g.all && y.fDepth == maxDepth - Height(g, y)
    ensures forall i | 0 <= i < |x.libs| && x.libs[i] != null :: x.libs[i] in g.all && x.fDepth < x.libs[i].fDepth
  {
    forall y | y in Reachable(g, x)
      ensures y in g.all && y.fDepth == maxDepth - Height(g, y)
    {
      FreshDepth(g, prior, maxDepth, y);
    }
    forall i | 0 <= i < |x.libs| && x.libs[i] != null
      ensures x.libs[i] in g.all && x.fDepth < x.libs[i].fDepth
    {
      Lower(g, x, i);
      DepthsDescend(g, prior, maxDepth, x, i);
    }
  }

  /** The part of link that gives depths: all depths are cleared, and counted down again from the number of images. */
  method AssignDepths(image: ImageLoader, images: seq<ImageLoader>, ghost g: Graph)
    requires Acyclic(g) && image in g.all && (set x | x in images) == g.all && |images| < TWO32
    modifies g.all`fDepth
    ensures DeeperBelow(g)
    ensures forall x | x in Reachable(g, image) :: x in g.all && x.fDepth == |images| - Height(g, x)
  {
    var k := 0;
    while k < |images|
      invariant k <= |images| && forall j | 0 <= j < k :: images[j].fDepth == 0
    {
      images[k].fDepth := 0;
      k := k + 1;
    }
    ghost var prior := map x | x in g.all :: 0;
    SizeOf(images);
    FreshNoUnderflow(g, prior, |images|);
    assert forall x | x in g.all :: x in images && x.fDepth == 0;
    label Cleared:
    var _ := image.RecursiveUpdateDepth(|images|, g, prior);
    SettledBelow(g, prior, |images|, image);
    forall x, i | x in g.all && 0 <= i < |x.libs| && x.libs[i] != null && x.libs[i] in g.all
      ensures x.fDepth <= x.libs[i].fDepth
    {
      if x.fDepth != old@Cleared(x.fDepth) {
        SettledBelow(g, prior, |images|, x);
      }
    }
  }

  /**
    * Linking an image and running its initialisers, when others may have been initialised before: everything the
    * image depends on is initialised, nothing twice, and each image after all it depends on.
    */
  method LinkAndInitialize(image: ImageLoader, images: seq<ImageLoader>, context: LinkContext, ghost g: Graph)
    requires Acyclic(g) && image in g.all && (set x | x in images) == g.all && |images| < TWO32
    requires BottomUp(context.initialized, g) && AllReady(g, context.initialized)
    modifies g.all`fDepth, g.all`fState, context
    ensures BottomUp(context.initialized, g) && AllReady(g, context.initialized)
    ensures old(context.initialized) <= context.initialized
    ensures forall x | x in Reachable(g, image) :: x in context.initialized
    ensures forall x | x in context.initialized && x !in old(context.initialized) :: x in Reachable(g, image)
  {
    AssignDepths(image, images, g);
    image.RecursiveInitialization(context, g);
    ghost var order := context.initialized;
    ghost var p :| 0 <= p < |order| && order[p] == image;
    forall x | x in Reachable(g, image)
      ensures x in order
    {
      if x != image {
        DependenciesFirst(order, g, p, x);
      }
    }
  }

  /** Every image is either initialised or has not been touched. */
  ghost predicate AllReady(g: Graph, order: seq<ImageLoader>)
    requires Acyclic(g)
    reads g.all`fState
  {
    forall x | x in g.all :: if x in order then x.fState == INITIALIZED else x.fState < DEPENDENTS_INITIALIZED - 1
  }
}
