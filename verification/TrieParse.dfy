/** The export trie parser: recursive descent over the stream, with one name buffer that all levels overwrite. */
module TrieParse {
  import opened Bytes
  import opened TrieModel
  import opened TrieRecords
  import opened TrieLayout
  import opened TrieStream
  import opened TrieBuild
  import Uleb

  datatype EntryWithOffset = EntryWithOffset(nodeOffset: nat, entry: Entry)

  const BUFFER_SIZE := 4000

  /** What a reader finds below a node: children beyond the one-byte count are lost. */
  function Parsed(t: Trie<nat>, off: Offsets): seq<EntryWithOffset>
    decreases t, |t.kids| + 1
  {
    ParsedOwn(t, off) + ParsedKids(t, off, Visible(|t.kids|))
  }

  function ParsedOwn(t: Trie<nat>, off: Offsets): seq<EntryWithOffset> {
    match t.info
    case None => []
    case Some(i) => [EntryWithOffset(At(off, t.id) + 1, Entry(t.cum, i.address, i.flags))]
  }

  function ParsedKids(t: Trie<nat>, off: Offsets, n: nat): seq<EntryWithOffset>
    requires n <= |t.kids|
    decreases t, n
  {
    if n == 0 then [] else ParsedKids(t, off, n - 1) + Parsed(t.kids[n - 1].child, off)
  }

  lemma {:induction false} ParsedParts(t: Trie<nat>, off: Offsets)
    ensures Parsed(t, off) == ParsedOwn(t, off) + ParsedKids(t, off, Visible(|t.kids|))
  {
  }

  lemma {:induction false} ParsedMore(t: Trie<nat>, off: Offsets, n: nat)
    requires n <= |t.kids|
    ensures n == 0 ==> ParsedKids(t, off, n) == []
    ensures n > 0 ==> ParsedKids(t, off, n) == ParsedKids(t, off, n - 1) + Parsed(t.kids[n - 1].child, off)
  {
  }

  /** Names fit in the buffer and contain no terminator. */
  ghost predicate Readable(t: Trie<nat>)
    decreases t
  {
    && |t.cum| < BUFFER_SIZE && NulFree(t.cum)
    && forall j | 0 <= j < |t.kids| :: t.kids[j].child.cum == t.cum + t.kids[j].sub && Readable(t.kids[j].child)
  }

  /** The buffer holds a terminated name. */
  ghost predicate Holds(buffer: array<byte>, name: Str)
    reads buffer
  {
    |name| < buffer.Length && buffer[..|name|] == name && buffer[|name|] == 0
  }

  /** strdup: the bytes up to the terminator. */
  method StrDup(buffer: array<byte>, ghost name: Str) returns (s: Str)
    requires Holds(buffer, name) && NulFree(name)
    ensures s == name
  {
    var n := 0;
    assert forall i | 0 <= i < |name| :: buffer[i] == name[i];
    while buffer[n] != 0
      invariant n <= |name|
      decreases |name| - n
    {
      n := n + 1;
    }
    s := buffer[..n];
  }

  /** A reader at a canonical number gets it and goes on behind it. */
  method ReadNumber(s: seq<byte>, p: nat, ghost n: nat) returns (value: u64, next: nat)
    requires Chunk(s, p, Uleb.Encode(n)) && n < TWO64
    ensures value == n && next == p + Uleb.Size(n) <= |s|
  {
    ReadAt(s, p, n);
    var r := Uleb.ReadUleb128(s, p, |s|);
    assert r == Uleb.Read(n, p + Uleb.Size(n));
    value, next := r.value, r.next;
  }

  /** Copies one edge string behind the name read so far, with its terminator. */
  method CopyEdge(s: seq<byte>, start: nat, buffer: array<byte>, curStrOffset: nat, ghost sub: Str)
    returns (next: nat, edgeStrLen: nat)
    requires start + |sub| < |s| && s[start..start + |sub|] == sub && s[start + |sub|] == 0 && NulFree(sub)
    requires curStrOffset + |sub| < buffer.Length
    modifies buffer
    ensures edgeStrLen == |sub| && next == start + |sub| + 1
    ensures buffer[..curStrOffset] == old(buffer[..curStrOffset])
    ensures buffer[curStrOffset..curStrOffset + |sub|] == sub && buffer[curStrOffset + |sub|] == 0
  {
    edgeStrLen, next := 0, start;
    assert forall i | start <= i < start + |sub| :: s[i] == sub[i - start];
    while s[next] != 0
      invariant edgeStrLen <= |sub| && next == start + edgeStrLen
      invariant buffer[..curStrOffset] == old(buffer[..curStrOffset])
      invariant buffer[curStrOffset..curStrOffset + edgeStrLen] == sub[..edgeStrLen]
      decreases |sub| - edgeStrLen
    {
      buffer[curStrOffset + edgeStrLen] := s[next];
      next := next + 1;
      edgeStrLen := edgeStrLen + 1;
    }
    buffer[curStrOffset + edgeStrLen] := s[next];
    next := next + 1;
  }

  /** The node's own export, if it has one, and where its children begin. */
  method ReadInfo(s: seq<byte>, at: nat, buffer: array<byte>, output: seq<EntryWithOffset>, ghost t: Trie<nat>,
                  ghost off: Offsets)
    returns (out: seq<EntryWithOffset>, children: nat)
    requires Chunk(s, at, EmitNode(RecOf(t), off)) && at == At(off, t.id)
    requires t.info.Some? ==> Holds(buffer, t.cum) && NulFree(t.cum)
    ensures out == output + ParsedOwn(t, off)
    ensures children == at + 1 + InfoSize(t.info) < |s|
  {
    NodeHead(s, at, RecOf(t), off);
    var terminalSize := s[at];
    children := at + 1 + terminalSize;
    if terminalSize != 0 {
      var name := StrDup(buffer, t.cum);
      var flags, p := ReadNumber(s, at + 1, t.info.value.flags);
      var address, _ := ReadNumber(s, p, t.info.value.address);
      out := output + [EntryWithOffset(at + 1, Entry(name, address, flags))];
    } else {
      out := output;
    }
  }

  /** One edge: its string goes to the buffer, and the child's offset is narrowed to 32 bits. */
  method ReadEdge(s: seq<byte>, start: nat, buffer: array<byte>, curStrOffset: nat, ghost l: Link, ghost off: Offsets)
    returns (next: nat, edgeStrLen: nat, childNodeOffset: u32)
    requires Chunk(s, start, EmitLink(l, off)) && NulFree(l.sub) && At(off, l.to) < TWO32
    requires curStrOffset + |l.sub| < buffer.Length
    modifies buffer
    ensures edgeStrLen == |l.sub| && childNodeOffset == At(off, l.to) && next == start + |EmitLink(l, off)|
    ensures buffer[..curStrOffset] == old(buffer[..curStrOffset])
    ensures Holds(buffer, old(buffer[..curStrOffset]) + l.sub)
  {
    EdgeChunks(s, start, l, off);
    next, edgeStrLen := CopyEdge(s, start, buffer, curStrOffset, l.sub);
    var value, p := ReadNumber(s, next, At(off, l.to));
    childNodeOffset, next := value % TWO32, p;
    assert buffer[..curStrOffset + |l.sub|] == buffer[..curStrOffset] + buffer[curStrOffset..curStrOffset + |l.sub|];
  }

  /** One child of a node, at the position of its edge. */
  method ProcessChild(s: seq<byte>, start: nat, buffer: array<byte>, curStrOffset: nat, output: seq<EntryWithOffset>,
                      ghost t: Trie<nat>, ghost off: Offsets, ghost i: nat)
    returns (out: seq<EntryWithOffset>, next: nat)
    requires i < |t.kids| && Encoded(s, off, t.kids[i].child) && Readable(t)
    requires Chunk(s, start, EmitLink(RecOf(t).links[i], off))
    requires buffer.Length == BUFFER_SIZE && curStrOffset == |t.cum| && buffer[..curStrOffset] == t.cum
    modifies buffer
    ensures out == output + Parsed(t.kids[i].child, off)
    ensures next == start + |EmitLink(RecOf(t).links[i], off)|
    ensures buffer[..curStrOffset] == t.cum
    decreases t, 0
  {
    hide EmitNode, Parsed, EmitLinks, EmitLink;
    ghost var c := t.kids[i].child;
    SubNulFree(t, i);
    var edgeStrLen, childNodeOffset;
    next, edgeStrLen, childNodeOffset := ReadEdge(s, start, buffer, curStrOffset, RecOf(t).links[i], off);
    out := ProcessExportNode(s, childNodeOffset, buffer, curStrOffset + edgeStrLen, output, c, off);
    assert buffer[..curStrOffset] == buffer[..curStrOffset + edgeStrLen][..curStrOffset];
  }

  lemma {:induction false} SubNulFree(t: Trie<nat>, i: nat)
    requires Readable(t) && i < |t.kids|
    ensures NulFree(t.kids[i].sub) && |t.cum| + |t.kids[i].sub| < BUFFER_SIZE
  {
    var c := t.kids[i].child;
    assert forall k | 0 <= k < |t.kids[i].sub| :: t.kids[i].sub[k] == c.cum[|t.cum| + k];
  }

  lemma {:induction false} ParsedNone(out: seq<EntryWithOffset>, t: Trie<nat>, off: Offsets, ls: seq<Link>)
    ensures out + ParsedKids(t, off, 0) == out && LinkBytes(ls[..0], off) == 0
  {
  }

  lemma ParsedNext(out: seq<EntryWithOffset>, t: Trie<nat>, off: Offsets, i: nat)
    requires i < |t.kids|
    ensures out + ParsedKids(t, off, i + 1) == (out + ParsedKids(t, off, i)) + Parsed(t.kids[i].child, off)
  {
  }

  lemma {:induction false} ParsedWhole(out: seq<EntryWithOffset>, t: Trie<nat>, off: Offsets)
    ensures (out + ParsedOwn(t, off)) + ParsedKids(t, off, Visible(|t.kids|)) == out + Parsed(t, off)
  {
  }

  /** The loop over the children. */
  method ProcessChildren(s: seq<byte>, start: nat, count: nat, buffer: array<byte>, curStrOffset: nat,
                         output: seq<EntryWithOffset>, ghost t: Trie<nat>, ghost off: Offsets)
    returns (out: seq<EntryWithOffset>)
    requires count <= |t.kids| && Readable(t) && Chunk(s, start, EmitLinks(RecOf(t).links, off))
    requires forall j | 0 <= j < |t.kids| :: Encoded(s, off, t.kids[j].child)
    requires buffer.Length == BUFFER_SIZE > curStrOffset == |t.cum| && buffer[..curStrOffset] == t.cum
    modifies buffer
    ensures out == output + ParsedKids(t, off, count)
    ensures buffer[..curStrOffset] == t.cum
    decreases t, 1
  {
    hide *;
    ghost var ls := RecOf(t).links;
    ParsedNone(output, t, off, ls);
    var p, i := start, 0;
    out := output;
    while i < count
      invariant i <= count && p == start + LinkBytes(ls[..i], off)
      invariant buffer[..curStrOffset] == t.cum
      invariant out == output + ParsedKids(t, off, i)
    {
      LinkChunk(s, start, ls, off, i);
      ParsedNext(output, t, off, i);
      out, p := ProcessChild(s, p, buffer, curStrOffset, out, t, off, i);
      i := i + 1;
    }
  }

  /** processExportNode: whatever lies below the node is reported, depth first. */
  method ProcessExportNode(s: seq<byte>, at: nat, buffer: array<byte>, curStrOffset: nat, output: seq<EntryWithOffset>,
                           ghost t: Trie<nat>, ghost off: Offsets)
    returns (out: seq<EntryWithOffset>)
    requires Encoded(s, off, t) && at == At(off, t.id) && Readable(t)
    requires buffer.Length == BUFFER_SIZE && curStrOffset == |t.cum| && buffer[..curStrOffset] == t.cum
    requires t.info.Some? ==> buffer[curStrOffset] == 0
    modifies buffer
    ensures out == output + Parsed(t, off)
    ensures buffer[..curStrOffset] == t.cum
    decreases t, 2
  {
    hide EmitNode, Parsed, ParsedKids, ParsedOwn, EmitLinks;
    var children;
    out, children := ReadInfo(s, at, buffer, output, t, off);
    NodeTail(s, at, RecOf(t), off);
    ParsedWhole(output, t, off);
    out := ProcessChildren(s, children + 1, s[children], buffer, curStrOffset, out, t, off);
  }
}
