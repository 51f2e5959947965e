/** The byte stream of a laid-out trie, and what a reader finds in it. */
module TrieStream {
  import opened Bytes
  import opened TrieModel
  import opened TrieRecords
  import opened TrieLayout
  import Uleb

  function EmitInfo(info: Option<Info>): (s: seq<byte>)
    ensures |s| == 1 + InfoSize(info)
  {
    match info
    case None => [0]
    case Some(i) =>
      Uleb.SizeOfWord(i.flags);
      Uleb.SizeOfWord(i.address);
      Uleb.SizeIsLength(i.flags);
      Uleb.SizeIsLength(i.address);
      [Uleb.Size(i.flags) + Uleb.Size(i.address)] + Uleb.Encode(i.flags) + Uleb.Encode(i.address)
  }

  function EmitLink(l: Link, off: Offsets): (s: seq<byte>)
    ensures |s| == |l.sub| + 1 + Uleb.Size(At(off, l.to))
  {
    Uleb.SizeIsLength(At(off, l.to));
    l.sub + [0] + Uleb.Encode(At(off, l.to))
  }

  function EmitLinks(ls: seq<Link>, off: Offsets): (s: seq<byte>)
    ensures |s| == LinkBytes(ls, off)
  {
    if ls == [] then [] else EmitLinks(ls[..|ls| - 1], off) + EmitLink(ls[|ls| - 1], off)
  }

  /** How many children a reader sees: the count is one byte. */
  function Visible(n: nat): (m: byte)
    ensures m <= n && (n < 256 ==> m == n)
  {
    n % 256
  }

  /** The bytes of one node. The number of children is written as one byte. */
  function EmitNode(r: Rec, off: Offsets): (s: seq<byte>)
    ensures |s| == NodeSize(r, off)
  {
    EmitInfo(r.info) + [Visible(|r.links|)] + EmitLinks(r.links, off)
  }

  /** The first `k` nodes, one after the other. */
  ghost function Stream(order: seq<nat>, snap: Snapshot, off: Offsets, k: nat): (s: seq<byte>)
    requires Covers(snap, order) && k <= |order|
    ensures |s| == Start(order, snap, off, k)
  {
    if k == 0 then [] else Stream(order, snap, off, k - 1) + EmitNode(snap[order[k - 1]], off)
  }

  lemma {:induction false} LinksOfSame(ls: seq<Link>, a: Offsets, b: Offsets)
    requires Same(a, b)
    ensures EmitLinks(ls, a) == EmitLinks(ls, b)
  {
    hide Uleb.Encode;
    if ls != [] {
      LinksOfSame(ls[..|ls| - 1], a, b);
    }
  }

  lemma {:induction false} StreamOfSame(order: seq<nat>, snap: Snapshot, a: Offsets, b: Offsets, k: nat)
    requires Covers(snap, order) && k <= |order| && Same(a, b)
    ensures Stream(order, snap, a, k) == Stream(order, snap, b, k)
  {
    hide EmitLinks, EmitInfo, Same;
    if k > 0 {
      StreamOfSame(order, snap, a, b, k - 1);
      LinksOfSame(snap[order[k - 1]].links, a, b);
    }
  }

  /** The bytes `c` lie at position `p`. */
  predicate Chunk(s: seq<byte>, p: nat, c: seq<byte>) {
    p + |c| <= |s| && s[p..p + |c|] == c
  }

  lemma ChunkSplit(s: seq<byte>, p: nat, a: seq<byte>, b: seq<byte>)
    requires Chunk(s, p, a + b)
    ensures Chunk(s, p, a) && Chunk(s, p + |a|, b)
  {
    var w := s[p..p + |a| + |b|];
    assert w == a + b;
    assert s[p..p + |a|] == w[..|a|];
    assert s[p + |a|..p + |a| + |b|] == w[|a|..];
  }

  lemma ChunkPart(s: seq<byte>, p: nat, a: seq<byte>, b: seq<byte>, c: seq<byte>)
    requires Chunk(s, p, a + b + c)
    ensures Chunk(s, p, a) && Chunk(s, p + |a|, b) && Chunk(s, p + |a| + |b|, c)
  {
    ChunkSplit(s, p, a + b, c);
    ChunkSplit(s, p, a, b);
  }

  lemma ChunkAtEnd(s: seq<byte>, c: seq<byte>)
    ensures Chunk(s + c, |s|, c)
  {
  }

  lemma ChunkExtends(s: seq<byte>, z: seq<byte>, p: nat, c: seq<byte>)
    requires Chunk(s, p, c)
    ensures Chunk(s + z, p, c)
  {
    assert (s + z)[p..p + |c|] == s[p..p + |c|];
  }

  /** Pieces laid end to end. */
  function Concat(cs: seq<seq<byte>>): seq<byte> {
    if cs == [] then [] else Concat(cs[..|cs| - 1]) + cs[|cs| - 1]
  }

  lemma {:induction false} PieceChunk(cs: seq<seq<byte>>, k: nat)
    requires k < |cs|
    ensures Chunk(Concat(cs), |Concat(cs[..k])|, cs[k])
  {
    var n := |cs| - 1;
    if k == n {
      ChunkAtEnd(Concat(cs[..n]), cs[n]);
    } else {
      PieceChunk(cs[..n], k);
      assert cs[..n][..k] == cs[..k];
      ChunkExtends(Concat(cs[..n]), cs[n], |Concat(cs[..k])|, cs[k]);
    }
  }

  ghost function Pieces(order: seq<nat>, snap: Snapshot, off: Offsets, k: nat): (cs: seq<seq<byte>>)
    requires Covers(snap, order) && k <= |order|
    ensures |cs| == k
  {
    seq(k, i requires 0 <= i < k => EmitNode(snap[order[i]], off))
  }

  lemma {:induction false} StreamIsConcat(order: seq<nat>, snap: Snapshot, off: Offsets, k: nat)
    requires Covers(snap, order) && k <= |order|
    ensures Stream(order, snap, off, k) == Concat(Pieces(order, snap, off, k))
  {
    if k > 0 {
      var cs, last := Pieces(order, snap, off, k), EmitNode(snap[order[k - 1]], off);
      assert cs[..k - 1] == Pieces(order, snap, off, k - 1) && cs[k - 1] == last;
      hide EmitNode, Pieces, Covers;
      StreamIsConcat(order, snap, off, k - 1);
    }
  }

  /** In the stream, every node lies at its start. */
  lemma {:induction false} StreamChunk(order: seq<nat>, snap: Snapshot, off: Offsets, k: nat)
    requires Covers(snap, order) && k < |order|
    ensures Chunk(Stream(order, snap, off, |order|), Start(order, snap, off, k), EmitNode(snap[order[k]], off))
  {
    var cs := Pieces(order, snap, off, |order|);
    StreamIsConcat(order, snap, off, |order|);
    StreamIsConcat(order, snap, off, k);
    PieceChunk(cs, k);
    assert cs[..k] == Pieces(order, snap, off, k);
  }

  /** The bytes of the whole subtree lie where the offsets say. */
  ghost predicate Encoded(s: seq<byte>, off: Offsets, t: Trie<nat>)
    decreases t
  {
    && At(off, t.id) < TWO32
    && Chunk(s, At(off, t.id), EmitNode(RecOf(t), off))
    && forall j | 0 <= j < |t.kids| :: Encoded(s, off, t.kids[j].child)
  }

  lemma {:induction false} EncodedWhole(s: seq<byte>, off: Offsets, snap: Snapshot, t: Trie<nat>)
    requires Denotes(snap, t)
    requires forall v | v in Ids(t) && v in snap :: At(off, v) < TWO32 && Chunk(s, At(off, v), EmitNode(snap[v], off))
    ensures Encoded(s, off, t)
    decreases t
  {
    forall j | 0 <= j < |t.kids|
      ensures Encoded(s, off, t.kids[j].child)
    {
      IdsOfKid(t, j);
      EncodedWhole(s, off, snap, t.kids[j].child);
    }
  }

  lemma {:induction false} EncodedExtends(s: seq<byte>, z: seq<byte>, off: Offsets, t: Trie<nat>)
    requires Encoded(s, off, t)
    ensures Encoded(s + z, off, t)
    decreases t
  {
    ChunkExtends(s, z, At(off, t.id), EmitNode(RecOf(t), off));
    forall j | 0 <= j < |t.kids|
      ensures Encoded(s + z, off, t.kids[j].child)
    {
      EncodedExtends(s, z, off, t.kids[j].child);
    }
  }

  /** A right layout is written so that every node lies at its offset. */
  lemma {:induction false} StreamEncodes(order: seq<nat>, snap: Snapshot, off: Offsets, t: Trie<nat>)
    requires Covers(snap, order) && Denotes(snap, t) && (forall v | v in Ids(t) :: v in order)
    requires Fixed(order, snap, off) && Start(order, snap, off, |order|) < TWO32
    ensures Encoded(Stream(order, snap, off, |order|), off, t)
  {
    var s := Stream(order, snap, off, |order|);
    forall v | v in Ids(t) && v in snap
      ensures At(off, v) < TWO32 && Chunk(s, At(off, v), EmitNode(snap[v], off))
    {
      var k :| 0 <= k < |order| && order[k] == v;
      assert PlacedAt(order, snap, off, k);
      StartMonotone(order, snap, off, k, |order|);
      StreamChunk(order, snap, off, k);
    }
    EncodedWhole(s, off, snap, t);
  }

  /** A reader of a canonical group accepts it and stops behind it. */
  lemma {:induction false} ReadAt(s: seq<byte>, p: nat, n: nat)
    requires Chunk(s, p, Uleb.Encode(n)) && n < TWO64
    ensures p + Uleb.Size(n) <= |s|
    ensures var g := s[p..p + Uleb.Size(n)]; Uleb.IsGroup(g) && Uleb.Value(g) == n && |g| <= 10
  {
    Uleb.SizeIsLength(n);
    Uleb.EncodeIsGroup(n);
    Uleb.SizeOfWord(n);
  }

  // ----- positions inside a node

  lemma {:induction false} InfoChunks(s: seq<byte>, p: nat, r: Rec, off: Offsets)
    requires Chunk(s, p, EmitNode(r, off))
    ensures Chunk(s, p, EmitInfo(r.info)) && Chunk(s, p + 1 + InfoSize(r.info), [Visible(|r.links|)])
    ensures Chunk(s, p + 2 + InfoSize(r.info), EmitLinks(r.links, off))
  {
    ChunkPart(s, p, EmitInfo(r.info), [Visible(|r.links|)], EmitLinks(r.links, off));
  }

  lemma TerminalChunks(s: seq<byte>, p: nat, i: Info)
    requires Chunk(s, p, EmitInfo(Some(i)))
    ensures s[p] == Uleb.Size(i.flags) + Uleb.Size(i.address)
    ensures Chunk(s, p + 1, Uleb.Encode(i.flags)) && Chunk(s, p + 1 + Uleb.Size(i.flags), Uleb.Encode(i.address))
  {
    hide Chunk, Uleb.Encode, Uleb.Size;
    Uleb.SizeIsLength(i.flags);
    Uleb.SizeOfWord(i.flags);
    Uleb.SizeOfWord(i.address);
    var b: byte := Uleb.Size(i.flags) + Uleb.Size(i.address);
    ChunkPart(s, p, [b], Uleb.Encode(i.flags), Uleb.Encode(i.address));
    ChunkFirst(s, p, [b]);
  }

  lemma {:induction false} LinkBytesNext(ls: seq<Link>, off: Offsets, i: nat)
    requires i < |ls|
    ensures LinkBytes(ls[..i + 1], off) == LinkBytes(ls[..i], off) + |EmitLink(ls[i], off)|
  {
    assert ls[..i + 1][..i] == ls[..i];
    Uleb.SizeIsLength(At(off, ls[i].to));
  }

  lemma {:induction false} LinkChunk(s: seq<byte>, p: nat, ls: seq<Link>, off: Offsets, i: nat)
    requires i < |ls| && Chunk(s, p, EmitLinks(ls, off))
    ensures Chunk(s, p + LinkBytes(ls[..i], off), EmitLink(ls[i], off))
    ensures LinkBytes(ls[..i + 1], off) == LinkBytes(ls[..i], off) + |EmitLink(ls[i], off)|
  {
    hide EmitLink, Chunk;
    var n := |ls| - 1;
    ChunkSplit(s, p, EmitLinks(ls[..n], off), EmitLink(ls[n], off));
    LinkBytesNext(ls, off, i);
    if i < n {
      LinkChunk(s, p, ls[..n], off, i);
      assert ls[..n][..i] == ls[..i];
    }
  }

  /** An edge: its string, the terminator, the child's offset. */
  lemma EdgeChunks(s: seq<byte>, p: nat, l: Link, off: Offsets)
    requires Chunk(s, p, EmitLink(l, off))
    ensures p + |l.sub| < |s| && s[p..p + |l.sub|] == l.sub && s[p + |l.sub|] == 0
    ensures Chunk(s, p + |l.sub| + 1, Uleb.Encode(At(off, l.to)))
  {
    ChunkPart(s, p, l.sub, [0], Uleb.Encode(At(off, l.to)));
    assert s[p + |l.sub|..p + |l.sub| + 1][0] == s[p + |l.sub|];
  }

  lemma ChunkFirst(s: seq<byte>, p: nat, c: seq<byte>)
    requires c != [] && Chunk(s, p, c)
    ensures p < |s| && s[p] == c[0]
  {
    assert s[p..p + |c|][0] == s[p];
  }

  lemma InfoHead(info: Option<Info>)
    ensures EmitInfo(info)[0] == InfoSize(info)
  {
  }

  /** The first byte of a node says how long its export information is. */
  lemma NodeHead(s: seq<byte>, p: nat, r: Rec, off: Offsets)
    requires Chunk(s, p, EmitNode(r, off))
    ensures p + 1 + InfoSize(r.info) < |s| && s[p] == InfoSize(r.info)
    ensures r.info.Some? ==>
              && Chunk(s, p + 1, Uleb.Encode(r.info.value.flags))
              && Chunk(s, p + 1 + Uleb.Size(r.info.value.flags), Uleb.Encode(r.info.value.address))
  {
    hide EmitNode, EmitInfo, InfoSize;
    InfoChunks(s, p, r, off);
    InfoHead(r.info);
    ChunkFirst(s, p, EmitInfo(r.info));
    if r.info.Some? {
      assert r.info == Some(r.info.value);
      TerminalChunks(s, p, r.info.value);
    }
  }

  /** Behind it come the child count and the edges. */
  lemma {:induction false} NodeTail(s: seq<byte>, p: nat, r: Rec, off: Offsets)
    requires Chunk(s, p, EmitNode(r, off))
    ensures p + 1 + InfoSize(r.info) < |s| && s[p + 1 + InfoSize(r.info)] == Visible(|r.links|)
    ensures Chunk(s, p + 2 + InfoSize(r.info), EmitLinks(r.links, off))
  {
    hide EmitNode, EmitLinks, EmitInfo;
    InfoChunks(s, p, r, off);
    ChunkFirst(s, p + 1 + InfoSize(r.info), [Visible(|r.links|)]);
  }
}
