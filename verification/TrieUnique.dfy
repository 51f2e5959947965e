/** What a reader finds in a section is determined by its bytes, whichever trie and offsets they were laid out from. */
module TrieUnique {
  import opened Bytes
  import opened TrieModel
  import opened TrieRecords
  import opened TrieLayout
  import opened TrieStream
  import opened TrieParse
  import opened TrieRoundTrip
  import Uleb

  /** Two canonical groups at the same place are the same number. */
  lemma {:induction false} SameNumber(s: seq<byte>, p: nat, a: nat, b: nat)
    requires Chunk(s, p, Uleb.Encode(a)) && Chunk(s, p, Uleb.Encode(b))
    ensures a == b
  {
    hide Uleb.Encode, Uleb.IsGroup, Uleb.Value;
    Uleb.EncodeIsGroup(a);
    Uleb.EncodeIsGroup(b);
    var i, j := p + |Uleb.Encode(a)|, p + |Uleb.Encode(b)|;
    Uleb.GroupEnd(s, p, i);
    Uleb.GroupEnd(s, p, j);
  }

  /** Two terminated strings at the same place are the same. */
  lemma SameString(s: seq<byte>, p: nat, a: Str, b: Str)
    requires NulFree(a) && p + |a| < |s| && s[p..p + |a|] == a && s[p + |a|] == 0
    requires NulFree(b) && p + |b| < |s| && s[p..p + |b|] == b && s[p + |b|] == 0
    ensures a == b
  {
    EndsFirst(s, p, |a|, b);
    EndsFirst(s, p, |b|, a);
  }

  /** A string without a terminator ends before the first one. */
  lemma EndsFirst(s: seq<byte>, p: nat, n: nat, b: Str)
    requires p + n < |s| && s[p + n] == 0 && NulFree(b) && p + |b| < |s| && s[p..p + |b|] == b
    ensures |b| <= n
  {
    assert forall i | 0 <= i < |b| :: s[p + i] == b[i];
  }

  lemma SizeApart(i: Info)
    ensures InfoSize(Some(i)) >= 2
  {
  }

  /** Two nodes at the same place have the same export information. */
  lemma SameInfo(s: seq<byte>, p: nat, r: Rec, off: Offsets, q: Rec, fix: Offsets)
    requires Chunk(s, p, EmitNode(r, off)) && Chunk(s, p, EmitNode(q, fix))
    ensures r.info == q.info
  {
    hide Chunk, EmitNode, Uleb.Encode, Uleb.Size, InfoSize;
    NodeHead(s, p, r, off);
    NodeHead(s, p, q, fix);
    NoInfo();
    if r.info.Some? {
      SizeApart(r.info.value);
    }
    if q.info.Some? {
      SizeApart(q.info.value);
    }
    if r.info.Some? && q.info.Some? {
      SameNumber(s, p + 1, r.info.value.flags, q.info.value.flags);
      SameNumber(s, p + 1 + Uleb.Size(r.info.value.flags), r.info.value.address, q.info.value.address);
    }
  }

  lemma NoInfo()
    ensures InfoSize(None) == 0
  {
  }

  /** Two edges at the same place have the same string, child offset and length. */
  lemma SameEdge(s: seq<byte>, p: nat, l: Link, off: Offsets, k: Link, fix: Offsets)
    requires Chunk(s, p, EmitLink(l, off)) && Chunk(s, p, EmitLink(k, fix)) && NulFree(l.sub) && NulFree(k.sub)
    ensures l.sub == k.sub && At(off, l.to) == At(fix, k.to) && |EmitLink(l, off)| == |EmitLink(k, fix)|
  {
    hide Chunk, EmitLink, NulFree, Uleb.Encode;
    EdgeChunks(s, p, l, off);
    EdgeChunks(s, p, k, fix);
    SameString(s, p, l.sub, k.sub);
    SameNumber(s, p + |l.sub| + 1, At(off, l.to), At(fix, k.to));
  }

  /** Two nodes at the same place. */
  lemma {:induction false} SameNode(s: seq<byte>, t: Trie<nat>, off: Offsets, u: Trie<nat>, fix: Offsets)
    requires Encoded(s, off, t) && Encoded(s, fix, u) && At(off, t.id) == At(fix, u.id) && t.cum == u.cum
    ensures ParsedOwn(t, off) == ParsedOwn(u, fix) && Visible(|t.kids|) == Visible(|u.kids|)
    ensures var p := At(off, t.id) + 2 + InfoSize(t.info);
            Chunk(s, p, EmitLinks(RecOf(t).links, off)) && Chunk(s, p, EmitLinks(RecOf(u).links, fix))
  {
    hide EmitNode, EmitLinks, Chunk, InfoSize, LinksOf, Visible;
    var p := At(off, t.id);
    SameInfo(s, p, RecOf(t), off, RecOf(u), fix);
    NodeTail(s, p, RecOf(t), off);
    NodeTail(s, p, RecOf(u), fix);
  }

  lemma {:induction false} EncodedKids(s: seq<byte>, t: Trie<nat>, off: Offsets)
    requires Encoded(s, off, t)
    ensures forall j | 0 <= j < |t.kids| :: Encoded(s, off, t.kids[j].child)
  {
  }

  /** The tries of the same bytes list the same exports, though the nodes may be named differently. */
  lemma {:induction false} SameParsed(s: seq<byte>, t: Trie<nat>, off: Offsets, u: Trie<nat>, fix: Offsets)
    requires Encoded(s, off, t) && Readable(t) && Encoded(s, fix, u) && Readable(u)
    requires At(off, t.id) == At(fix, u.id) && t.cum == u.cum
    ensures Parsed(t, off) == Parsed(u, fix)
    decreases t, |t.kids| + 1
  {
    hide *;
    SameNode(s, t, off, u, fix);
    EncodedKids(s, t, off);
    EncodedKids(s, u, fix);
    SameKids(s, At(off, t.id) + 2 + InfoSize(t.info), t, off, u, fix, Visible(|t.kids|));
    ParsedParts(t, off);
    ParsedParts(u, fix);
  }

  lemma {:induction false} SameKids(s: seq<byte>, p: nat, t: Trie<nat>, off: Offsets, u: Trie<nat>, fix: Offsets,
                                    n: nat)
    requires (forall j | 0 <= j < |t.kids| :: Encoded(s, off, t.kids[j].child)) && Readable(t)
    requires (forall j | 0 <= j < |u.kids| :: Encoded(s, fix, u.kids[j].child)) && Readable(u)
    requires Chunk(s, p, EmitLinks(RecOf(t).links, off)) && Chunk(s, p, EmitLinks(RecOf(u).links, fix))
    requires t.cum == u.cum && n <= |t.kids| && n <= |u.kids|
    ensures LinkBytes(RecOf(t).links[..n], off) == LinkBytes(RecOf(u).links[..n], fix)
    ensures ParsedKids(t, off, n) == ParsedKids(u, fix, n)
    decreases t, n
  {
    hide *;
    ParsedMore(t, off, n);
    ParsedMore(u, fix, n);
    if n == 0 {
      assert RecOf(t).links[..0] == [] && RecOf(u).links[..0] == [];
      NoLinkBytes(off, fix);
    } else {
      SameKids(s, p, t, off, u, fix, n - 1);
      SameKid(s, p, t, off, u, fix, n - 1);
      SameParsed(s, t.kids[n - 1].child, off, u.kids[n - 1].child, fix);
    }
  }

  lemma {:induction false} NoLinkBytes(off: Offsets, fix: Offsets)
    ensures LinkBytes([], off) == LinkBytes([], fix)
  {
  }

  /** If the edges before it take the same bytes, one more edge leads to the same place, by the same name. */
  lemma {:induction false} SameKid(s: seq<byte>, p: nat, t: Trie<nat>, off: Offsets, u: Trie<nat>, fix: Offsets, i: nat)
    requires i < |t.kids| && i < |u.kids| && Readable(t) && Readable(u) && t.cum == u.cum
    requires Chunk(s, p, EmitLinks(RecOf(t).links, off)) && Chunk(s, p, EmitLinks(RecOf(u).links, fix))
    requires LinkBytes(RecOf(t).links[..i], off) == LinkBytes(RecOf(u).links[..i], fix)
    ensures LinkBytes(RecOf(t).links[..i + 1], off) == LinkBytes(RecOf(u).links[..i + 1], fix)
    ensures var c, d := t.kids[i].child, u.kids[i].child;
            At(off, c.id) == At(fix, d.id) && c.cum == d.cum && Readable(c) && Readable(d)
  {
    hide Chunk, EmitLinks, EmitLink, LinkBytes, At;
    SubNulFree(t, i);
    SubNulFree(u, i);
    LinkChunk(s, p, RecOf(t).links, off, i);
    LinkChunk(s, p, RecOf(u).links, fix, i);
    SameEdge(s, p + LinkBytes(RecOf(t).links[..i], off), RecOf(t).links[i], off, RecOf(u).links[i], fix);
  }
}
