/** Weak symbols: their streams, their holders, and which definition is picked. */
module WeakSymbols {
  import opened Bytes

  /** Names are only ever compared, so a name is its rank in the order of strcmp. */
  type Name = nat

  type Address = nat

  /** The rank of the string an iterator starts on; it sorts before every symbol. */
  const START: Name := 0

  datatype Entry = Entry(name: Name, weak: bool)

  /**
    * An image that takes part: the symbols of its weak-binding stream, what its exports resolve to, whether it
    * has coalesced exports, and whether it has reached the bound state.
    */
  datatype Image = Image(stream: seq<Entry>, exports: map<Name, Address>, coalescedExports: bool, ready: bool)

  datatype CoalIterator = CoalIterator(name: Name, weak: bool, matches: bool, done: bool, next: nat)

  /** One request to point every use of a name in an image at the target. */
  datatype Update = Update(image: nat, name: Name, target: Address)

  // ----- streams and holders

  /** Strictly increasing names between the two sentinels. */
  ghost predicate GoodStream(stream: seq<Entry>, end: Name) {
    && (forall j | 0 <= j < |stream| :: START < stream[j].name < end)
    && forall i, j | 0 <= i < j < |stream| :: stream[i].name < stream[j].name
  }

  ghost predicate GoodImages(images: seq<Image>, end: Name) {
    START < end && forall k | 0 <= k < |images| :: GoodStream(images[k].stream, end)
  }

  /** Whether a name is in the stream, and with which flag. */
  ghost function Find(stream: seq<Entry>, name: Name): (r: Option<bool>)
    ensures r == None ==> forall j | 0 <= j < |stream| :: stream[j].name != name
    ensures r.Some? ==> exists j :: 0 <= j < |stream| && stream[j] == Entry(name, r.value)
  {
    if stream == [] then None
    else if Last(stream).name == name then Some(Last(stream).weak)
    else Find(stream[..|stream| - 1], name)
  }

  ghost predicate Holds(image: Image, name: Name) {
    exists j :: 0 <= j < |image.stream| && image.stream[j].name == name
  }

  /** The holders of a name in load order, with their flags. */
  ghost function Holders(images: seq<Image>, name: Name): (r: seq<Option<bool>>)
    ensures |r| == |images| && forall k | 0 <= k < |images| :: r[k] == Find(images[k].stream, name)
  {
    seq(|images|, k requires 0 <= k < |images| => Find(images[k].stream, name))
  }

  /** What the exports of an image resolve a name to. */
  function AddressIn(image: Image, name: Name): Address {
    if name in image.exports then image.exports[name] else 0
  }

  // ----- the pick

  /** The search loop: what is picked from the holders at k and later, when so far the target is this. */
  function PickFrom(found: seq<Option<bool>>, images: seq<Image>, name: Name, k: nat, target: Address): Address
    requires |found| == |images| && k <= |found|
    decreases |found| - k
  {
    if k == |found| then target
    else
      match found[k]
      case None => PickFrom(found, images, name, k + 1, target)
      case Some(true) =>
        PickFrom(found, images, name, k + 1, if target == 0 then AddressIn(images[k], name) else target)
      case Some(false) =>
        if AddressIn(images[k], name) != 0 then AddressIn(images[k], name) else PickFrom(found, images, name, k + 1, 0)
  }

  /** What is carried on past a holder that does not end the search. */
  function Carried(flag: Option<bool>, address: Address, target: Address): Address {
    match flag
    case None => target
    case Some(true) => if target == 0 then address else target
    case Some(false) => 0
  }

  function Pick(found: seq<Option<bool>>, images: seq<Image>, name: Name): Address
    requires |found| == |images|
  {
    PickFrom(found, images, name, 0, 0)
  }

  /** A definition an image gives with this flag. */
  predicate Defines(found: seq<Option<bool>>, images: seq<Image>, name: Name, k: nat, weak: bool)
    requires |found| == |images| && k < |found|
  {
    found[k] == Some(weak) && AddressIn(images[k], name) != 0
  }

  /** A strong definition wins: the first one in load order. */
  lemma {:induction false} StrongWins(found: seq<Option<bool>>, images: seq<Image>, name: Name, k: nat,
                                      target: Address, s: nat)
    requires |found| == |images| && k <= s < |found| && Defines(found, images, name, s, false)
    requires forall i: nat | k <= i < s :: !Defines(found, images, name, i, false)
    ensures PickFrom(found, images, name, k, target) == AddressIn(images[s], name)
    decreases s - k
  {
    if k < s {
      assert !Defines(found, images, name, k, false);
      StrongWins(found, images, name, k + 1,
                 Carried(found[k], AddressIn(images[k], name), target), s);
    }
  }

  /** Without strong holders the target found so far stays, or else the first weak definition is taken. */
  lemma {:induction false} FirstWeak(found: seq<Option<bool>>, images: seq<Image>, name: Name, k: nat, target: Address,
                                     w: nat)
    requires |found| == |images| && k <= w <= |found| && forall i | k <= i < |found| :: found[i] != Some(false)
    requires forall i: nat | k <= i < w :: !Defines(found, images, name, i, true)
    requires w < |found| ==> Defines(found, images, name, w, true)
    ensures PickFrom(found, images, name, k, target)
         == if target != 0 || w == |found| then target else AddressIn(images[w], name)
    decreases |found| - k
  {
    if k < w {
      assert !Defines(found, images, name, k, true);
      FirstWeak(found, images, name, k + 1, target, w);
    } else if k < |found| {
      var v: nat := NextWeak(found, images, name, k + 1);
      FirstWeak(found, images, name, k + 1, if target == 0 then AddressIn(images[k], name) else target, v);
    }
  }

  ghost function NextWeak(found: seq<Option<bool>>, images: seq<Image>, name: Name, k: nat): (w: nat)
    requires |found| == |images| && k <= |found|
    ensures k <= w <= |found| && (forall i: nat | k <= i < w :: !Defines(found, images, name, i, true))
    ensures w < |found| ==> Defines(found, images, name, w, true)
    decreases |found| - k
  {
    if k == |found| || Defines(found, images, name, k, true) then k else NextWeak(found, images, name, k + 1)
  }

  /** A strong holder without an address forgets what was found before it. */
  lemma {:induction false} Forget(found: seq<Option<bool>>, images: seq<Image>, name: Name, k: nat, target: Address,
                                  s: nat)
    requires |found| == |images| && k <= s < |found| && found[s] == Some(false)
    requires forall i: nat | k <= i < |found| :: !Defines(found, images, name, i, false)
    ensures PickFrom(found, images, name, k, target) == PickFrom(found, images, name, s + 1, 0)
    decreases s - k
  {
    assert !Defines(found, images, name, k, false);
    if k < s {
      Forget(found, images, name, k + 1,
             Carried(found[k], AddressIn(images[k], name), target), s);
    }
  }

  /**
    * What is picked, for all inputs: the first strong definition in load order; without one, the first weak
    * definition after the last strong holder (which then has no address), or 0.
    */
  lemma PickRule(found: seq<Option<bool>>, images: seq<Image>, name: Name, from: nat, w: nat)
    requires |found| == |images| && from <= w <= |found|
    requires (from == 0 || found[from - 1] == Some(false)) && forall i | from <= i < |found| :: found[i] != Some(false)
    requires w < |found| ==> Defines(found, images, name, w, true)
    requires forall i: nat | from <= i < w :: !Defines(found, images, name, i, true)
    ensures forall s: nat | s < |found| && Defines(found, images, name, s, false)
            && (forall i: nat | i < s :: !Defines(found, images, name, i, false)) ::
      Pick(found, images, name) == AddressIn(images[s], name)
    ensures (forall s: nat | s < |found| :: !Defines(found, images, name, s, false)) ==>
      Pick(found, images, name) == if w == |found| then 0 else AddressIn(images[w], name)
  {
    forall s: nat | s < |found| && Defines(found, images, name, s, false)
    && (forall i: nat | i < s :: !Defines(found, images, name, i, false))
      ensures Pick(found, images, name) == AddressIn(images[s], name)
    {
      StrongWins(found, images, name, 0, 0, s);
    }
    if forall s: nat | s < |found| :: !Defines(found, images, name, s, false) {
      if from > 0 {
        Forget(found, images, name, 0, 0, from - 1);
      }
      FirstWeak(found, images, name, from, 0, w);
    }
  }

  /** With all strong symbols resolved, nothing is picked from some of the holders if nothing is from all of them. */
  lemma {:induction false} NothingToPick(found: seq<Option<bool>>, fewer: seq<Option<bool>>, images: seq<Image>,
                                         name: Name, k: nat, target: Address)
    requires |found| == |fewer| == |images| && k <= |found|
    requires forall i: nat | i < |found| :: fewer[i] == None || fewer[i] == found[i]
    requires forall i: nat | i < |found| && found[i] == Some(false) :: AddressIn(images[i], name) != 0
    requires PickFrom(found, images, name, k, target) == 0
    ensures target == 0 && PickFrom(fewer, images, name, k, 0) == 0
    decreases |found| - k
  {
    if k < |found| {
      var carried := if found[k] == Some(true) && target == 0 then AddressIn(images[k], name) else target;
      NothingToPick(found, fewer, images, name, k + 1, carried);
    }
  }

  /** A strong symbol without an address hides the definition before it. */
  lemma ZeroStrongHides()
    ensures
      var weak := Image([Entry(1, true)], map[1 := 7], true, true);
      var strong := Image([Entry(1, false)], map[], true, true);
      && Pick([Some(true), None], [weak, strong], 1) == 7
      && Pick([Some(true), Some(false)], [weak, strong], 1) == 0
  {
    var weak := Image([Entry(1, true)], map[1 := 7], true, true);
    var strong := Image([Entry(1, false)], map[], true, true);
    assert PickFrom([Some(true), None], [weak, strong], 1, 2, 7) == 7;
    assert PickFrom([Some(true), None], [weak, strong], 1, 1, 7) == 7;
    assert PickFrom([Some(true), Some(false)], [weak, strong], 1, 2, 0) == 0;
    assert PickFrom([Some(true), Some(false)], [weak, strong], 1, 1, 7) == 0;
  }
}
