/** The queue of blocks of a run loop: a linked list, filtered and spliced around the callouts. */
module Blocks {
  import opened Bytes

  type Name = nat

  const COMMON_MODES: Name := 0

  /** A block is posted for one mode or for a set of modes. */
  datatype ModeArg = One(name: Name) | Many(names: set<Name>)

  /** What a block does to the queue when it runs: it posts other blocks. */
  datatype Block = Block(id: nat, posts: seq<Post>)
  datatype Post = Post(mode: ModeArg, block: Block)

  /** Whether a block is run in a mode. */
  predicate Matches(mode: ModeArg, current: Name, commonModes: set<Name>) {
    match mode
    case One(name) => name == current || (name == COMMON_MODES && current in commonModes)
    case Many(names) => current in names || (COMMON_MODES in names && current in commonModes)
  }

  // ----- what a pass does, on sequences

  function Matching(q: seq<Post>, current: Name, commonModes: set<Name>): seq<Post> {
    if q == [] then []
    else Matching(q[..|q| - 1], current, commonModes)
         + if Matches(q[|q| - 1].mode, current, commonModes) then [q[|q| - 1]] else []
  }

  function Others(q: seq<Post>, current: Name, commonModes: set<Name>): seq<Post> {
    if q == [] then []
    else Others(q[..|q| - 1], current, commonModes)
         + if Matches(q[|q| - 1].mode, current, commonModes) then [] else [q[|q| - 1]]
  }

  /** Everything these blocks post, one after the other. */
  function PostedBy(ran: seq<Post>): seq<Post> {
    if ran == [] then [] else PostedBy(ran[..|ran| - 1]) + ran[|ran| - 1].block.posts
  }

  // ----- any run: posts and passes in any order

  datatype Event = Posted(post: Post) | Passed(current: Name, commonModes: set<Name>)

  /** The queue, everything ever posted, and everything ever run, in order. */
  datatype Log = Log(queue: seq<Post>, posted: seq<Post>, ran: seq<Post>)

  function Next(log: Log, e: Event): Log {
    match e
    case Posted(p) => Log(log.queue + [p], log.posted + [p], log.ran)
    case Passed(current, commonModes) =>
      var m := Matching(log.queue, current, commonModes);
      Log(Others(log.queue, current, commonModes) + PostedBy(m), log.posted + PostedBy(m), log.ran + m)
  }

  function Replay(events: seq<Event>): Log {
    if events == [] then Log([], [], []) else Next(Replay(events[..|events| - 1]), events[|events| - 1])
  }

  // ----- the linked list

  class Item {
    var next: Item?
    const mode: ModeArg
    const block: Block

    constructor (mode: ModeArg, block: Block)
      ensures next == null && this.mode == mode && this.block == block
    {
      this.next, this.mode, this.block := null, mode, block;
    }
  }

  function Contents(items: seq<Item>): (q: seq<Post>)
    ensures |q| == |items| && forall i | 0 <= i < |items| :: q[i] == Post(items[i].mode, items[i].block)
  {
    if items == [] then []
    else Contents(items[..|items| - 1]) + [Post(items[|items| - 1].mode, items[|items| - 1].block)]
  }

  function FirstOf(items: seq<Item>): Item? {
    if items == [] then null else items[0]
  }

  function LastOf(items: seq<Item>): Item? {
    if items == [] then null else items[|items| - 1]
  }

  /** Each item points to the next one, and the last to `end`. */
  ghost predicate Linked(items: seq<Item>, end: Item?)
    reads (set x | x in items)`next
  {
    && (forall i, j | 0 <= i && j == i + 1 < |items| :: items[i].next == items[j])
    && (items != [] ==> items[|items| - 1].next == end)
  }

  /** These items, in this order, from head to tail. */
  ghost predicate Chain(items: seq<Item>, head: Item?, tail: Item?)
    reads (set x | x in items)`next
  {
    NoDup(items) && head == FirstOf(items) && tail == LastOf(items) && Linked(items, null)
  }

  lemma LinkedConcat(a: seq<Item>, b: seq<Item>, end: Item?)
    requires Linked(a, if b == [] then end else b[0]) && Linked(b, end)
    ensures Linked(a + b, end)
  {
    var c := a + b;
    forall i, j | 0 <= i && j == i + 1 < |c|
      ensures c[i].next == c[j]
    {
      if i >= |a| {
        assert c[i] == b[i - |a|] && c[j] == b[j - |a|];
      } else {
        assert c[i] == a[i] && c[j] == if j < |a| then a[j] else b[0];
      }
    }
  }

  lemma LinkedRest(b: seq<Item>, end: Item?)
    requires b != [] && Linked(b, end)
    ensures Linked(b[1..], end) && b[0].next == if |b| == 1 then end else b[1]
  {
    var r := b[1..];
    forall i, j | 0 <= i && j == i + 1 < |r|
      ensures r[i].next == r[j]
    {
      assert r[i] == b[i + 1] && r[j] == b[j + 1];
    }
  }

  lemma {:induction false} ContentsConcat(a: seq<Item>, b: seq<Item>)
    ensures Contents(a + b) == Contents(a) + Contents(b)
  {
    var q, r := Contents(a + b), Contents(a) + Contents(b);
    assert forall i | 0 <= i < |q| :: q[i] == r[i];
  }

  lemma ContentsOfOne(x: Item)
    ensures Contents([x]) == [Post(x.mode, x.block)]
  {
  }

  lemma {:induction false} FilterNext(q: seq<Post>, i: nat, current: Name, commonModes: set<Name>)
    requires i < |q|
    ensures Matching(q[..i + 1], current, commonModes)
            == Matching(q[..i], current, commonModes) + if Matches(q[i].mode, current, commonModes) then [q[i]] else []
    ensures Others(q[..i + 1], current, commonModes)
            == Others(q[..i], current, commonModes) + if Matches(q[i].mode, current, commonModes) then [] else [q[i]]
  {
    assert q[..i + 1][..i] == q[..i];
  }

  /** The detached list in the middle of a pass: the items kept so far, and those not looked at yet. */
  ghost predicate Detached(kept: seq<Item>, rest: seq<Item>, prev: Item?, item: Item?, head: Item?, tail: Item?)
    reads (set x | x in kept + rest)`next
  {
    && NoDup(kept + rest) && Linked(kept, FirstOf(rest)) && Linked(rest, null)
    && prev == LastOf(kept) && item == FirstOf(rest)
    && head == FirstOf(kept + rest) && tail == LastOf(kept + rest)
  }

  /** An item that does not match stays. */
  lemma Kept(kept: seq<Item>, rest: seq<Item>, prev: Item?, item: Item?, head: Item?, tail: Item?)
    requires Detached(kept, rest, prev, item, head, tail) && rest != []
    ensures Detached(kept + [rest[0]], rest[1..], item, rest[0].next, head, tail)
  {
    assert (kept + [rest[0]]) + rest[1..] == kept + rest;
    LinkedRest(rest, null);
    LinkedConcat(kept, [rest[0]], FirstOf(rest[1..]));
  }

  /** An item that matches is taken out. */
  method Unlink(prev: Item?, curr: Item, head: Item?, tail: Item?, ghost kept: seq<Item>, ghost rest: seq<Item>)
    returns (head': Item?, tail': Item?)
    requires Detached(kept, rest, prev, curr, head, tail)
    modifies (if prev == null then {} else {prev})`next
    ensures Detached(kept, rest[1..], prev, old(curr.next), head', tail')
  {
    LinkedRest(rest, null);
    EndsWithout(kept, rest);
    var item := curr.next;
    head', tail' := head, tail;
    if prev != null {
      prev.next := item;
      Spliced(kept, item);
    }
    if curr == head {
      head' := item;
    }
    if curr == tail {
      tail' := prev;
    }
  }

  /** The ends of the list without its first unseen item. */
  lemma EndsWithout(kept: seq<Item>, rest: seq<Item>)
    requires NoDup(kept + rest) && rest != []
    ensures var all, left := kept + rest, kept + rest[1..];
            && NoDup(left)
            && FirstOf(left) == (if rest[0] == FirstOf(all) then FirstOf(rest[1..]) else FirstOf(all))
            && LastOf(left) == (if rest[0] == LastOf(all) then LastOf(kept) else LastOf(all))
    ensures forall i | 0 <= i < |rest[1..]| :: rest[1..][i] !in kept
    ensures forall i, j | 0 <= i < j < |kept| :: kept[i] != kept[j]
  {
    var all, left := kept + rest, kept + rest[1..];
    assert forall i | 0 <= i < |left| :: left[i] == if i < |kept| then all[i] else all[i + 1];
    assert forall i | 0 <= i < |rest| :: rest[i] == all[|kept| + i];
    assert forall i | 0 <= i < |kept| :: kept[i] == all[i];
  }

  lemma Spliced(kept: seq<Item>, item: Item?)
    requires kept != [] && kept[|kept| - 1].next == item
    requires forall i, j | 0 <= i && j == i + 1 < |kept| :: kept[i].next == kept[j]
    ensures Linked(kept, item)
  {
  }

  lemma Appended(items: seq<Item>, x: Item)
    requires NoDup(items) && x !in items && x.next == null
    requires Linked(items, x)
    ensures Chain(items + [x], if items == [] then x else items[0], x)
  {
    LinkedConcat(items, [x], null);
  }

  class RunLoop {
    var blocksHead: Item?
    var blocksTail: Item?
    ghost var items: seq<Item>
    ghost var posted: seq<Post>   // everything ever posted
    ghost var ran: seq<Post>      // everything ever run

    constructor ()
      ensures Valid() && Record() == Log([], [], [])
    {
      blocksHead, blocksTail, items, posted, ran := null, null, [], [], [];
    }

    ghost function Record(): Log
      reads this
    {
      Log(Queue(), posted, ran)
    }

    ghost predicate Valid()
      reads this, (set x | x in items)`next
    {
      Chain(items, blocksHead, blocksTail)
    }

    ghost function Queue(): seq<Post>
      reads this
    {
      Contents(items)
    }

    /** A new item goes to the tail. */
    method Append(x: Item)
      requires Valid() && x !in items && x.next == null
      modifies this`blocksHead, this`blocksTail, this`items, (set y | y in items)`next
      ensures Valid() && items == old(items) + [x]
    {
      if blocksTail == null {
        blocksHead := x;
      } else {
        blocksTail.next := x;
        Spliced(items, x);
      }
      blocksTail := x;
      Appended(items, x);
      items := items + [x];
    }

    /** CFRunLoopPerformBlock. */
    method PerformBlock(mode: ModeArg, block: Block)
      requires Valid()
      modifies this, (set x | x in items)`next
      ensures Valid() && |items| == |old(items)| + 1
      ensures items[..|old(items)|] == old(items) && fresh(items[|old(items)|])
      ensures Record() == Next(old(Record()), Posted(Post(mode, block)))
    {
      hide Contents, Chain;
      var newItem := new Item(mode, block);
      Append(newItem);
      posted := posted + [Post(mode, block)];
      ContentsConcat(old(items), [newItem]);
      ContentsOfOne(newItem);
    }

    /** The callout: the block runs, and posts what it posts. */
    method CallOut(mode: ModeArg, block: Block)
      requires Valid()
      modifies this, (set x | x in items)`next
      ensures Valid() && old(items) <= items && forall i | |old(items)| <= i < |items| :: fresh(items[i])
      ensures Record() == Log(old(Queue()) + block.posts, old(posted) + block.posts, old(ran) + [Post(mode, block)])
    {
      hide Chain, Contents;
      assert block.posts[..0] == [] && Queue() + [] == Queue() && posted + [] == posted;
      ran := ran + [Post(mode, block)];
      for i := 0 to |block.posts|
        invariant Valid() && old(items) <= items && forall k | |old(items)| <= k < |items| :: fresh(items[k])
        invariant Record() == Log(old(Queue()) + block.posts[..i], old(posted) + block.posts[..i],
                                  old(ran) + [Post(mode, block)])
      {
        assert block.posts[..i + 1] == block.posts[..i] + [block.posts[i]];
        PerformBlock(block.posts[i].mode, block.posts[i].block);
      }
      assert block.posts[..|block.posts|] == block.posts;
    }

    /** One round of the loop of __CFRunLoopDoBlocks. */
    method Round(current: Name, commonModes: set<Name>, prev: Item?, curr: Item, head: Item?, tail: Item?,
                 ghost kept: seq<Item>, ghost rest: seq<Item>)
      returns (doit: bool, prev': Item?, item: Item?, head': Item?, tail': Item?, ghost kept': seq<Item>)
      requires Valid() && rest != [] && Detached(kept, rest, prev, curr, head, tail)
      requires forall k | 0 <= k < |items| :: items[k] !in kept + rest
      modifies this, (set x | x in items)`next, (set x | x in kept)`next
      ensures Valid() && old(items) <= items && forall i | |old(items)| <= i < |items| :: fresh(items[i])
      ensures doit == Matches(rest[0].mode, current, commonModes)
      ensures kept' == if doit then kept else kept + [rest[0]]
      ensures Detached(kept', rest[1..], prev', item, head', tail')
      ensures Record() == if doit then Log(old(Queue()) + rest[0].block.posts, old(posted) + rest[0].block.posts,
                                          old(ran) + [Post(rest[0].mode, rest[0].block)])
                          else old(Record())
    {
      hide Chain, Contents, NoDup;
      assert curr == rest[0];
      doit := Matches(curr.mode, current, commonModes);
      item, prev', head', tail', kept' := curr.next, prev, head, tail, kept;
      if !doit {
        Kept(kept, rest, prev, curr, head, tail);
        prev' := curr;
        kept' := kept + [curr];
      } else {
        head', tail' := TakeOut(prev, curr, head, tail, kept, rest);
        CallOut(curr.mode, curr.block);
      }
    }

    /** The item leaves the detached list; the queue is not touched. */
    method TakeOut(prev: Item?, curr: Item, head: Item?, tail: Item?, ghost kept: seq<Item>, ghost rest: seq<Item>)
      returns (head': Item?, tail': Item?)
      requires Valid() && Detached(kept, rest, prev, curr, head, tail)
      requires forall k | 0 <= k < |items| :: items[k] !in kept + rest
      modifies (set x | x in kept)`next
      ensures Valid() && Detached(kept, rest[1..], prev, old(curr.next), head', tail')
      ensures Record() == old(Record())
    {
      assert prev != null ==> prev in kept + rest;
      head', tail' := Unlink(prev, curr, head, tail, kept, rest);
    }

    /** The same round, counted: the first `i` detached items become the first `i + 1`. */
    method CountedRound(current: Name, commonModes: set<Name>, prev: Item?, curr: Item, head: Item?, tail: Item?,
                        ghost kept: seq<Item>, ghost original: seq<Item>, ghost i: nat, ghost posted0: seq<Post>,
                        ghost ran0: seq<Post>)
      returns (doit: bool, prev': Item?, item: Item?, head': Item?, tail': Item?, ghost kept': seq<Item>)
      requires Valid() && i < |original| && Detached(kept, original[i..], prev, curr, head, tail)
      requires forall k | 0 <= k < |items| :: items[k] !in kept + original[i..]
      requires Contents(kept) == Others(Contents(original)[..i], current, commonModes)
      requires Record() == Halfway(Contents(original), i, posted0, ran0, current, commonModes)
      modifies this, (set x | x in items)`next, (set x | x in kept)`next
      ensures Valid() && old(items) <= items && forall k | |old(items)| <= k < |items| :: fresh(items[k])
      ensures kept' == kept || kept' == kept + [original[i]]
      ensures Detached(kept', original[i + 1..], prev', item, head', tail')
      ensures Contents(kept') == Others(Contents(original)[..i + 1], current, commonModes)
      ensures Record() == Halfway(Contents(original), i + 1, posted0, ran0, current, commonModes)
      ensures Matching(Contents(original)[..i + 1], current, commonModes) != []
              <==> Matching(Contents(original)[..i], current, commonModes) != [] || doit
    {
      hide Chain, Contents, Detached, Matching, Others, PostedBy, Linked, Halfway, NoDup;
      ghost var q := Contents(original);
      PassNext(q, i, current, commonModes);
      HalfwayNext(q, i, posted0, ran0, current, commonModes);
      KeptContents(kept, original[i]);
      assert original[i..][1..] == original[i + 1..] && original[i..][0] == original[i];
      doit, prev', item, head', tail', kept' :=
        Round(current, commonModes, prev, curr, head, tail, kept, original[i..]);
    }

    /** The loop of __CFRunLoopDoBlocks over the detached list. */
    method Pass(current: Name, commonModes: set<Name>, first: Item?, last: Item?, ghost original: seq<Item>)
      returns (did: bool, head: Item?, tail: Item?, ghost kept: seq<Item>)
      requires Valid() && items == [] && Chain(original, first, last)
      modifies this, (set x | x in original)`next
      ensures Valid() && Chain(kept, head, tail)
      ensures (forall k | 0 <= k < |items| :: fresh(items[k])) && (forall k | 0 <= k < |kept| :: kept[k] in original)
      ensures Contents(kept) == Others(Contents(original), current, commonModes)
      ensures did == (Matching(Contents(original), current, commonModes) != [])
      ensures var m := Matching(Contents(original), current, commonModes);
              Record() == Log(PostedBy(m), old(posted) + PostedBy(m), old(ran) + m)
    {
      hide Chain, Contents, Detached, Matching, Others, PostedBy, Linked, Halfway, NoDup;
      ghost var q, i: nat := Contents(original), 0;
      HalfwayStart(q, old(posted), old(ran), current, commonModes);
      HalfwayEnd(q, old(posted), old(ran), current, commonModes);
      did, head, tail, kept := false, first, last, [];
      var prev: Item?, item: Item? := null, head;
      PassStart(original, first, last, current, commonModes);
      while item != null
        invariant i <= |original| && Valid() && Detached(kept, original[i..], prev, item, head, tail)
        invariant forall k | 0 <= k < |items| :: fresh(items[k])
        invariant forall k | 0 <= k < |kept| :: kept[k] in original
        invariant Contents(kept) == Others(q[..i], current, commonModes)
        invariant did == (Matching(q[..i], current, commonModes) != [])
        invariant Record() == Halfway(q, i, old(posted), old(ran), current, commonModes)
        decreases |original| - i
      {
        DetachedItem(kept, original, i, prev, item, head, tail);
        var doit;
        doit, prev, item, head, tail, kept :=
          CountedRound(current, commonModes, prev, item, head, tail, kept, original, i, old(posted), old(ran));
        did := did || doit;
        i := i + 1;
      }
      DetachedItem(kept, original, i, prev, item, head, tail);
      assert q[..i] == q;
    }

    /** __CFRunLoopDoBlocks. It runs exactly the matching blocks, once each and in queue order, and leaves the others in
        order, followed by whatever the callouts posted. */
    method DoBlocks(current: Name, commonModes: set<Name>) returns (did: bool)
      requires Valid()
      modifies this, (set x | x in items)`next
      ensures Valid()
      ensures forall k | 0 <= k < |items| :: items[k] in old(items) || fresh(items[k])
      ensures did == (Matching(old(Queue()), current, commonModes) != [])
      ensures Record() == Next(old(Record()), Passed(current, commonModes))
      ensures did == (ran != old(ran))
      ensures forall n | n == current || (n == COMMON_MODES && current in commonModes) ::
                Select(ran, One(n)) == old(Select(ran, One(n))) + old(Select(Queue(), One(n)))
      ensures forall n | n != current && !(n == COMMON_MODES && current in commonModes) ::
                Select(ran, One(n)) == old(Select(ran, One(n)))
      ensures forall names: set<Name> | current in names || (COMMON_MODES in names && current in commonModes) ::
                Select(ran, Many(names)) == old(Select(ran, Many(names))) + old(Select(Queue(), Many(names)))
      ensures forall names: set<Name> | current !in names && !(COMMON_MODES in names && current in commonModes) ::
                Select(ran, Many(names)) == old(Select(ran, Many(names)))
    {
      hide Contents, Matching, Others, PostedBy, Chain, Linked, NoDup, Select, Matches;
      PassModes(Record(), current, commonModes);
      if blocksHead == null {
        EmptyChain(items, blocksHead, blocksTail);
        NothingQueued(items, current, commonModes);
        return false;
      }
      ghost var original := items;
      var first, last := Detach();
      var head, tail; ghost var kept;
      did, head, tail, kept := Pass(current, commonModes, first, last, original);
      Rejoin(head, tail, kept);
    }

    /** What was kept, if anything, goes back in front of what was posted meanwhile. */
    method Rejoin(head: Item?, tail: Item?, ghost kept: seq<Item>)
      requires Valid() && Chain(kept, head, tail) && forall k | 0 <= k < |items| :: items[k] !in kept
      modifies this, (set x | x in kept)`next
      ensures Valid() && items == kept + old(items)
      ensures Record() == Log(Contents(kept) + old(Queue()), old(posted), old(ran))
    {
      hide Contents, Chain, Linked;
      ContentsConcat(kept, items);
      EmptyChain(kept, head, tail);
      if head != null {
        Splice(head, tail, kept);
      } else {
        assert kept + items == items;
      }
    }

    /** The list is taken out of the run loop. */
    method Detach() returns (first: Item?, last: Item?)
      requires Valid()
      modifies this`blocksHead, this`blocksTail, this`items
      ensures Valid() && items == [] && Chain(old(items), first, last)
    {
      first, last := blocksHead, blocksTail;
      blocksHead, blocksTail, items := null, null, [];
    }

    /** The splice of two lists of which the first is not empty. */
    method Splice(head: Item, tail: Item?, ghost kept: seq<Item>)
      requires Valid() && Chain(kept, head, tail) && forall k | 0 <= k < |items| :: items[k] !in kept
      modifies this, (if tail == null then {} else {tail})`next
      ensures Valid() && items == kept + old(items) && posted == old(posted) && ran == old(ran)
    {
      tail.next := blocksHead;
      blocksHead := head;
      if blocksTail == null {
        blocksTail := tail;
      }
      Spliced(kept, FirstOf(items));
      LinkedConcat(kept, items, null);
      JoinedNoDup(kept, items);
      items := kept + items;
    }
  }

  /** Any run of posts and passes on a new run loop is the run that is replayed, so its blocks ran in posting order. */
  method PerformAll(events: seq<Event>) returns (rl: RunLoop)
    ensures fresh(rl) && rl.Valid() && rl.Record() == Replay(events)
    ensures forall mode :: Select(rl.ran, mode) + Select(rl.Queue(), mode) == Select(rl.posted, mode)
  {
    hide Next, Select, RunLoop.Valid;
    rl := new RunLoop();
    for i := 0 to |events|
      invariant fresh(rl) && rl.Valid() && forall k | 0 <= k < |rl.items| :: fresh(rl.items[k])
      invariant rl.Record() == Replay(events[..i])
    {
      assert events[..i + 1][..i] == events[..i];
      match events[i] {
        case Posted(p) => rl.PerformBlock(p.mode, p.block);
        case Passed(current, commonModes) => var _ := rl.DoBlocks(current, commonModes);
      }
    }
    assert events[..|events|] == events;
    forall mode
      ensures Select(rl.ran, mode) + Select(rl.Queue(), mode) == Select(rl.posted, mode)
    {
      PostingOrder(events, mode);
    }
  }

  lemma EmptyChain(items: seq<Item>, head: Item?, tail: Item?)
    requires Chain(items, head, tail)
    ensures if head == null then items == [] else tail != null && tail in items
  {
  }

  lemma {:induction false} NothingQueued(items: seq<Item>, current: Name, commonModes: set<Name>)
    requires items == []
    ensures Matching(Contents(items), current, commonModes) == [] && Others(Contents(items), current, commonModes) == []
    ensures PostedBy([]) == [] && Contents(items) + [] == []
    ensures forall p: seq<Post> :: p + [] == p
  {
  }

  lemma JoinedNoDup(a: seq<Item>, b: seq<Item>)
    requires NoDup(a) && NoDup(b) && forall k | 0 <= k < |b| :: b[k] !in a
    ensures NoDup(a + b)
  {
    var c := a + b;
    assert forall i | 0 <= i < |c| :: c[i] == if i < |a| then a[i] else b[i - |a|];
  }

  lemma {:induction false} PassStart(original: seq<Item>, first: Item?, last: Item?, current: Name,
                                     commonModes: set<Name>)
    requires Chain(original, first, last)
    ensures original[0..] == original && Detached([], original, null, first, first, last)
    ensures first != null ==> original != [] && first == original[0]
    ensures Contents([]) == [] && Others(Contents(original)[..0], current, commonModes) == []
    ensures Matching(Contents(original)[..0], current, commonModes) == [] && PostedBy([]) == []
  {
    assert [] + original == original;
  }

  lemma {:induction false} PassNext(q: seq<Post>, i: nat, current: Name, commonModes: set<Name>)
    requires i < |q|
    ensures Others(q[..i + 1], current, commonModes)
            == Others(q[..i], current, commonModes) + if Matches(q[i].mode, current, commonModes) then [] else [q[i]]
    ensures var a := Matching(q[..i], current, commonModes);
            if Matches(q[i].mode, current, commonModes) then
              && Matching(q[..i + 1], current, commonModes) == a + [q[i]]
              && PostedBy(Matching(q[..i + 1], current, commonModes)) == PostedBy(a) + q[i].block.posts
            else Matching(q[..i + 1], current, commonModes) == a
  {
    FilterNext(q, i, current, commonModes);
    var a := Matching(q[..i], current, commonModes);
    assert (a + [q[i]])[..|a|] == a;
  }

  /** The record after the first `i` of the detached posts. */
  ghost function Halfway(q: seq<Post>, i: nat, posted: seq<Post>, ran: seq<Post>, current: Name,
                         commonModes: set<Name>): Log
    requires i <= |q|
  {
    var m := Matching(q[..i], current, commonModes);
    Log(PostedBy(m), posted + PostedBy(m), ran + m)
  }

  lemma HalfwayStart(q: seq<Post>, posted: seq<Post>, ran: seq<Post>, current: Name, commonModes: set<Name>)
    ensures Halfway(q, 0, posted, ran, current, commonModes) == Log([], posted, ran)
  {
    assert posted + [] == posted && ran + [] == ran;
  }

  lemma HalfwayNext(q: seq<Post>, i: nat, posted: seq<Post>, ran: seq<Post>, current: Name, commonModes: set<Name>)
    requires i < |q|
    ensures var h := Halfway(q, i, posted, ran, current, commonModes);
            Halfway(q, i + 1, posted, ran, current, commonModes)
            == if Matches(q[i].mode, current, commonModes) then
                 Log(h.queue + q[i].block.posts, h.posted + q[i].block.posts, h.ran + [q[i]])
               else h
  {
    hide Matching, Others, PostedBy;
    PassNext(q, i, current, commonModes);
  }

  lemma {:induction false} HalfwayEnd(q: seq<Post>, posted: seq<Post>, ran: seq<Post>, current: Name,
                                      commonModes: set<Name>)
    ensures var m := Matching(q, current, commonModes);
            Halfway(q, |q|, posted, ran, current, commonModes) == Log(PostedBy(m), posted + PostedBy(m), ran + m)
  {
    assert q[..|q|] == q;
  }

  lemma {:induction false} KeptContents(kept: seq<Item>, x: Item)
    ensures Contents(kept + [x]) == Contents(kept) + [Post(x.mode, x.block)]
    ensures Contents(kept) + [] == Contents(kept)
  {
    ContentsConcat(kept, [x]);
    ContentsOfOne(x);
  }

  lemma DetachedItem(kept: seq<Item>, original: seq<Item>, i: nat, prev: Item?, item: Item?, head: Item?, tail: Item?)
    requires i <= |original| && Detached(kept, original[i..], prev, item, head, tail)
    ensures item != null ==> i < |original| && item == original[i]
    ensures item == null ==> i == |original| && Chain(kept, head, tail)
  {
    if i == |original| {
      assert original[i..] == [] && kept + [] == kept;
    }
  }

  // ----- posting order

  /** The posts for one mode argument. */
  function Select(q: seq<Post>, mode: ModeArg): seq<Post> {
    if q == [] then []
    else Select(q[..|q| - 1], mode) + if q[|q| - 1].mode == mode then [q[|q| - 1]] else []
  }

  lemma {:induction false} SelectConcat(a: seq<Post>, b: seq<Post>, mode: ModeArg)
    ensures Select(a + b, mode) == Select(a, mode) + Select(b, mode)
  {
    if b == [] {
      assert a + b == a;
    } else {
      var n := |b| - 1;
      SelectConcat(a, b[..n], mode);
      assert (a + b)[..|a| + n] == a + b[..n];
    }
  }

  lemma {:induction false} SelectOne(p: Post, mode: ModeArg)
    ensures Select([p], mode) == if p.mode == mode then [p] else []
  {
    assert [p][..0] == [];
  }

  /** A pass runs all posts for a mode argument, or none. */
  lemma {:induction false} AllOrNone(q: seq<Post>, mode: ModeArg, current: Name, commonModes: set<Name>)
    ensures Select(Matching(q, current, commonModes), mode)
            == if Matches(mode, current, commonModes) then Select(q, mode) else []
    ensures Select(Others(q, current, commonModes), mode)
            == if Matches(mode, current, commonModes) then [] else Select(q, mode)
  {
    if q != [] {
      var n := |q| - 1;
      AllOrNone(q[..n], mode, current, commonModes);
      SelectOne(q[n], mode);
      SelectConcat(Matching(q[..n], current, commonModes), [q[n]], mode);
      SelectConcat(Others(q[..n], current, commonModes), [q[n]], mode);
      var a, b := Matching(q[..n], current, commonModes), Others(q[..n], current, commonModes);
      assert a + [] == a && b + [] == b;
    }
  }

  /** In any run, the blocks posted for the same mode argument run in posting order: those that ran, followed by those
      still queued, are all that were posted. */
  lemma {:induction false} PostingOrder(events: seq<Event>, mode: ModeArg)
    ensures var log := Replay(events); Select(log.ran, mode) + Select(log.queue, mode) == Select(log.posted, mode)
  {
    if events != [] {
      var n := |events| - 1;
      PostingOrder(events[..n], mode);
      NextInOrder(Replay(events[..n]), events[n], mode);
    }
  }

  lemma {:induction false} NextInOrder(log: Log, e: Event, mode: ModeArg)
    requires Select(log.ran, mode) + Select(log.queue, mode) == Select(log.posted, mode)
    ensures var next := Next(log, e); Select(next.ran, mode) + Select(next.queue, mode) == Select(next.posted, mode)
  {
    hide Select, Matching, Others, PostedBy;
    match e {
      case Posted(p) =>
        SelectConcat(log.queue, [p], mode);
        SelectConcat(log.posted, [p], mode);
      case Passed(current, commonModes) =>
        var m := Matching(log.queue, current, commonModes);
        var o := Others(log.queue, current, commonModes);
        SelectConcat(log.ran, m, mode);
        SelectConcat(o, PostedBy(m), mode);
        SelectConcat(log.posted, PostedBy(m), mode);
        AllOrNone(log.queue, mode, current, commonModes);
        var a, b, c := Select(log.ran, mode), Select(log.queue, mode), Select(PostedBy(m), mode);
        assert (a + b) + c == a + (b + c) && (a + b) + ([] + c) == (a + []) + (b + c);
    }
  }

  // ----- in which modes a block runs

  /** A pass in one mode runs all the queued posts for that mode; if the mode is a common one, all for the common modes;
      all for a set with one of these in it; and no others. */
  lemma {:induction false} PassModes(log: Log, current: Name, commonModes: set<Name>)
    ensures var next := Next(log, Passed(current, commonModes));
            && log.ran <= next.ran
            && (forall n | n == current || (n == COMMON_MODES && current in commonModes) ::
                  Select(next.ran, One(n)) == Select(log.ran, One(n)) + Select(log.queue, One(n)))
            && (forall n | n != current && !(n == COMMON_MODES && current in commonModes) ::
                  Select(next.ran, One(n)) == Select(log.ran, One(n)))
            && (forall names: set<Name> | current in names || (COMMON_MODES in names && current in commonModes) ::
                  Select(next.ran, Many(names)) == Select(log.ran, Many(names)) + Select(log.queue, Many(names)))
            && (forall names: set<Name> | current !in names && !(COMMON_MODES in names && current in commonModes) ::
                  Select(next.ran, Many(names)) == Select(log.ran, Many(names)))
  {
    hide Select, Matching, Others, PostedBy;
    var m := Matching(log.queue, current, commonModes);
    forall mode: ModeArg
      ensures Select(log.ran + m, mode)
              == Select(log.ran, mode) + if Matches(mode, current, commonModes) then Select(log.queue, mode) else []
    {
      SelectConcat(log.ran, m, mode);
      AllOrNone(log.queue, mode, current, commonModes);
    }
  }

  lemma UpTo(events: seq<Event>, i: nat)
    requires i < |events|
    ensures Replay(events[..i + 1]) == Next(Replay(events[..i]), events[i])
  {
    assert events[..i + 1][..i] == events[..i];
  }

  /** Over any run: after a pass in a mode, every block posted for that mode has run. */
  lemma {:induction false} HasRun(events: seq<Event>, i: nat, n: Name, commonModes: set<Name>)
    requires i < |events| && events[i] == Passed(n, commonModes)
    ensures Select(Replay(events[..i + 1]).ran, One(n)) == Select(Replay(events[..i]).posted, One(n))
  {
    hide Select, Next;
    UpTo(events, i);
    PassModes(Replay(events[..i]), n, commonModes);
    PostingOrder(events[..i], One(n));
  }

  /** After a pass in a common mode, every block posted for the common modes has run. */
  lemma {:induction false} CommonHasRun(events: seq<Event>, i: nat, current: Name, commonModes: set<Name>)
    requires i < |events| && events[i] == Passed(current, commonModes) && current in commonModes
    ensures Select(Replay(events[..i + 1]).ran, One(COMMON_MODES))
            == Select(Replay(events[..i]).posted, One(COMMON_MODES))
  {
    hide Select, Next;
    UpTo(events, i);
    PassModes(Replay(events[..i]), current, commonModes);
    PostingOrder(events[..i], One(COMMON_MODES));
  }

  /** A pass in another mode runs none of them. */
  lemma {:induction false} RunsNowhereElse(events: seq<Event>, i: nat, n: Name, current: Name, commonModes: set<Name>)
    requires i < |events| && events[i] == Passed(current, commonModes) && current != n
    requires n == COMMON_MODES ==> current !in commonModes
    ensures Select(Replay(events[..i + 1]).ran, One(n)) == Select(Replay(events[..i]).ran, One(n))
  {
    hide Select, Next;
    UpTo(events, i);
    PassModes(Replay(events[..i]), current, commonModes);
  }

  /** A block posted for a set of modes runs in a pass exactly if one posted for some mode of the set would. */
  lemma {:induction false} SetRunsAsMember(names: set<Name>, block: Block, current: Name, commonModes: set<Name>)
    ensures var e := Passed(current, commonModes);
            Next(Log([Post(Many(names), block)], [], []), e).ran != []
            <==> exists n :: n in names && Next(Log([Post(One(n), block)], [], []), e).ran != []
  {
    hide Next;
    LoneBlock(Post(Many(names), block), current, commonModes);
    forall n | n in names
      ensures Next(Log([Post(One(n), block)], [], []), Passed(current, commonModes)).ran != []
              <==> n == current || (n == COMMON_MODES && current in commonModes)
    {
      LoneBlock(Post(One(n), block), current, commonModes);
    }
  }

  lemma {:induction false} LoneBlock(p: Post, current: Name, commonModes: set<Name>)
    ensures Next(Log([p], [], []), Passed(current, commonModes)).ran
            == if Matches(p.mode, current, commonModes) then [p] else []
  {
    assert [p][..0] == [] && Matching([p][..0], current, commonModes) == [];
    var m := Matching([p], current, commonModes);
    assert [] + m == m;
    assert m == if Matches(p.mode, current, commonModes) then [p] else [];
  }
}
