/** What the one-byte child count means for callers: ASCII names always come back, and a list that does not. */
module TrieLimits {
  import opened Bytes
  import opened TrieBuild
  import opened TrieLayout
  import opened TrieMake
  import opened TrieParse
  import opened TrieFull
  import opened TrieSize
  import opened TrieRoundTrip

  // ----- ASCII names

  predicate Ascii(xs: seq<Entry>) {
    forall k, i | 0 <= k < |xs| && 0 <= i < |xs[k].name| :: xs[k].name[i] < 128
  }

  lemma NoExtension(c: Str, x: Str)
    requires forall i | 0 <= i < |x| :: x[i] < 128
    ensures !(c + [255] <= x)
  {
    if |c| < |x| {
      assert x[|c|] != (c + [255])[|c|];
    }
  }

  /** No name goes on with byte 255. */
  lemma AsciiNotOverfull(xs: seq<Entry>)
    requires Ascii(xs)
    ensures !Overfull(xs)
  {
    forall k | 0 <= k < |xs|
      ensures !OverfullAt(xs, k)
    {
      forall i | 0 <= i < k
        ensures !(xs[k].name + [255] <= xs[i].name)
      {
        NoExtension(xs[k].name, xs[i].name);
      }
      assert !EarlierExtension(xs, k, 255);
    }
  }

  /** ASCII names with 32-bit flags come back from every right layout. */
  lemma {:induction false} AsciiRoundTrip(xs: seq<Entry>, off: Offsets, sorted: seq<EntryWithOffset>)
    requires Storable(xs) && Ascii(xs) && NarrowFlags(xs)
    requires Fits(xs, off) && SortOf(sorted, Parsed(TrieOf(xs), off))
    ensures Entries(sorted) == xs
  {
    AsciiNotOverfull(xs);
    RoundTrip(xs, off, sorted);
  }

  /** So writing and reading them is the identity, when they are not too many. */
  method WriteAndReadAscii(xs: seq<Entry>, padding: seq<byte>) returns (ys: seq<Entry>)
    requires Storable(xs) && Ascii(xs) && NarrowFlags(xs) && NamesSize(xs) < TWO32 && (xs == [] ==> padding == [])
    ensures ys == xs
  {
    hide Fits, Overfull, NamesSize;
    AsciiNotOverfull(xs);
    ghost var off := FitsBySize(xs);
    ys := WriteAndRead(xs, padding);
  }

  // ----- a list that does not come back

  /** The names that extend `c` by each of the 255 bytes, and then `c` itself. */
  function FullList(c: Str): (xs: seq<Entry>)
    ensures |xs| == 256
    ensures forall k | 0 <= k < 255 :: xs[k] == Entry(c + [k + 1], 0, 0)
    ensures xs[255] == Entry(c, 0, 0)
  {
    seq(256, k requires 0 <= k < 256 => Entry(if k < 255 then c + [k + 1] else c, 0, 0))
  }

  lemma FullListOverfull(c: Str)
    requires NulFree(c) && |c| + 1 < BUFFER_SIZE
    ensures Storable(FullList(c)) && Overfull(FullList(c)) && NarrowFlags(FullList(c)) && NamesSize(FullList(c)) < TWO32
  {
    var xs := FullList(c);
    forall i, j | 0 <= i < j < |xs|
      ensures xs[i].name != xs[j].name
    {
      assert xs[i].name[|c|] == i + 1;
    }
    forall k | 0 <= k < |xs|
      ensures NulFree(xs[k].name) && |xs[k].name| <= |c| + 1
    {
    }
    forall b: byte | b != 0
      ensures EarlierExtension(xs, 255, b)
    {
      assert xs[255].name + [b] <= xs[b - 1].name;
    }
    assert OverfullAt(xs, 255);
    NamesSizeAtMost(xs, |c| + 1);
  }

  lemma {:induction false} NamesSizeAtMost(xs: seq<Entry>, n: nat)
    requires forall k | 0 <= k < |xs| :: |xs[k].name| <= n
    ensures NamesSize(xs) <= 2 + |xs| * (n + 31)
  {
    if xs != [] {
      NamesSizeAtMost(xs[..|xs| - 1], n);
      assert |xs| * (n + 31) == (|xs| - 1) * (n + 31) + (n + 31);
    }
  }

  /** Such a list can be written, and what is read back is shorter. */
  lemma FullListLoses(c: Str) returns (off: Offsets)
    requires NulFree(c) && |c| + 1 < BUFFER_SIZE
    ensures Fits(FullList(c), off)
    ensures forall sorted | SortOf(sorted, Parsed(TrieOf(FullList(c)), off)) :: |Entries(sorted)| < 256
  {
    FullListOverfull(c);
    off := FitsBySize(FullList(c));
    forall sorted | SortOf(sorted, Parsed(TrieOf(FullList(c)), off))
      ensures |Entries(sorted)| < 256
    {
      RoundTrip(FullList(c), off, sorted);
    }
  }

  /** Names of up to 3999 bytes fit in the parser's buffer with their terminator. */
  lemma {:induction false} LongestName(name: Str)
    requires NulFree(name)
    ensures Storable([Entry(name, 0, 0)]) <==> |name| <= 3999
  {
    assert [Entry(name, 0, 0)][0].name == name;
  }
}
