/** Machine-level vocabulary shared by the models: bytes, word widths and a few sequence predicates. */
module Bytes {

  const TWO32: int := 0x1_0000_0000
  const TWO64: int := 0x1_0000_0000_0000_0000

  type byte = x: int | 0 <= x < 256
  type u32 = x: int | 0 <= x < TWO32
  type u64 = x: int | 0 <= x < TWO64

  /** A C string without its terminating NUL. */
  type Str = seq<byte>

  datatype Option<+T> = None | Some(value: T)

  /** No byte of the string is the terminator. */
  predicate NulFree(s: Str) {
    forall i | 0 <= i < |s| :: s[i] != 0
  }

  predicate NoDup<T(==)>(s: seq<T>) {
    forall i, j | 0 <= i < j < |s| :: s[i] != s[j]
  }

  function Last<T>(s: seq<T>): T
    requires s != []
  {
    s[|s| - 1]
  }

  function Members<T(==, !new)>(s: seq<T>): (m: set<T>)
    ensures forall x :: x in m <==> x in s
  {
    set x | x in s
  }

  /** The same for references. */
  ghost function SetOf<T>(s: seq<T>): (m: set<T>)
    ensures (forall x | x in m :: x in s) && (forall x | x in s :: x in m)
  {
    set x | x in s
  }

  lemma SetOfNext<T>(s: seq<T>, x: T)
    ensures SetOf(s + [x]) == SetOf(s) + {x}
  {
  }

  lemma {:induction false} SizeOf<T>(s: seq<T>)
    ensures |set x | x in s| <= |s|
  {
    if s != [] {
      var n := |s| - 1;
      SizeOf(s[..n]);
      assert (set x | x in s) == (set x | x in s[..n]) + {s[n]};
    }
  }

  lemma SetOfSize<T>(s: seq<T>)
    ensures |SetOf(s)| <= |s|
  {
    SizeOf(s);
  }

  lemma SubsetSize<T>(a: set<T>, b: set<T>)
    requires a <= b
    ensures |a| <= |b|
    ensures |a| == |b| ==> a == b
  {
    assert b == a + (b - a);
    assert |b| == |a| + |b - a|;
  }
}
