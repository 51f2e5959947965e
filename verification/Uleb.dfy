/** ULEB128: "Variable Length Data", section 7.6 of the DWARF Debugging Information Format. */
module Uleb {
  import opened Bytes

  /** The canonical byte group of a number. */
  function Encode(n: nat): (g: seq<byte>)
    ensures |g| >= 1
  {
    if n < 128 then [n] else [128 + n % 128] + Encode(n / 128)
  }

  /** The number of bytes of the canonical group, counted without building it. */
  function Size(n: nat): (k: nat)
    ensures k >= 1
  {
    if n < 128 then 1 else 1 + Size(n / 128)
  }

  /** The number a group of bytes stands for: base-128 digits, least significant first. */
  function Value(g: seq<byte>): (v: nat) {
    if g == [] then 0 else g[0] % 128 + 128 * Value(g[1..])
  }

  /** A byte group: every byte but the last has its continuation bit set. */
  predicate IsGroup(g: seq<byte>) {
    |g| > 0 && g[|g| - 1] < 128 && forall i | 0 <= i < |g| - 1 :: g[i] >= 128
  }

  function Pow128(k: nat): (r: nat)
    ensures r >= 1
  {
    if k == 0 then 1 else 128 * Pow128(k - 1)
  }

  lemma {:induction false} SizeIsLength(n: nat)
    ensures |Encode(n)| == Size(n)
  {
    if n >= 128 { SizeIsLength(n / 128); }
  }

  lemma {:induction false} GroupCons(b: byte, g: seq<byte>)
    requires b >= 128 && IsGroup(g)
    ensures IsGroup([b] + g) && Value([b] + g) == b - 128 + 128 * Value(g)
  {
    assert ([b] + g)[1..] == g;
  }

  lemma {:induction false} EncodeIsGroup(n: nat)
    ensures IsGroup(Encode(n)) && Value(Encode(n)) == n
  {
    if n >= 128 {
      EncodeIsGroup(n / 128);
      GroupCons(128 + n % 128, Encode(n / 128));
    }
  }

  lemma {:induction false} SizeMonotone(m: nat, n: nat)
    requires m <= n
    ensures Size(m) <= Size(n)
  {
    if m >= 128 { SizeMonotone(m / 128, n / 128); }
  }

  lemma {:induction false} SizeBound(n: nat, k: nat)
    requires n < Pow128(k)
    ensures k >= 1 ==> Size(n) <= k
    ensures n >= 1 ==> k >= 1
  {
    if n >= 128 {
      assert Pow128(k) == 128 * Pow128(k - 1);
      SizeBound(n / 128, k - 1);
    }
  }

  lemma Pow128Values()
    ensures Pow128(5) == 0x8_0000_0000 && Pow128(9) == 0x8000_0000_0000_0000 && Pow128(10) == 128 * Pow128(9)
  {
    assert Pow128(2) == 16384;
    assert Pow128(4) == 128 * Pow128(3);
    assert Pow128(6) == 128 * Pow128(5);
    assert Pow128(8) == 128 * Pow128(7);
  }

  /** Offsets take at most five bytes and addresses at most ten. */
  lemma {:induction false} SizeOfWord(n: nat)
    ensures n < TWO32 ==> Size(n) <= 5
    ensures n < TWO64 ==> Size(n) <= 10
  {
    Pow128Values();
    if n < TWO32 { SizeBound(n, 5); }
    if n < TWO64 { SizeBound(n, 10); }
  }

  /** uleb128_size: counts how often the value can be shifted right by seven bits. */
  method Uleb128Size(value: u64) returns (result: nat)
    ensures result == Size(value)
  {
    result := 0;
    var v := value;
    while true
      invariant v >= 0 && result + Size(v) == Size(value)
      decreases v
    {
      result := result + 1;
      if v < 128 {
        break;
      }
      v := v / 128;
    }
  }

  /** append_uleb128: pushes the low seven bits with a continuation bit while anything remains. */
  method AppendUleb128(value: u64, buffer: seq<byte>) returns (out: seq<byte>)
    ensures out == buffer + Encode(value)
  {
    out := buffer;
    var v := value;
    while true
      invariant v >= 0 && out + Encode(v) == buffer + Encode(value)
      decreases v
    {
      var low := v % 128;
      var rest := v - low;
      ghost var before := out;
      var b: byte := if rest != 0 then low + 128 else low;
      out := out + [b];
      if b < 128 {
        break;
      }
      assert before + Encode(v) == out + Encode(v / 128);
      v := rest / 128;
    }
  }

  datatype ReadResult = Read(value: u64, next: nat) | PastEnd | TooBig

  lemma {:induction false} ValueSnoc(g: seq<byte>, b: byte)
    ensures Value(g + [b]) == Value(g) + b % 128 * Pow128(|g|)
  {
    if g == [] {
      assert [b][1..] == [];
    } else {
      ValueSnoc(g[1..], b);
      assert (g + [b])[1..] == g[1..] + [b];
      var d, p := b % 128, Pow128(|g| - 1);
      assert 128 * (d * p) == d * (128 * p);
    }
  }

  lemma {:induction false} ValueOfPrefix(g: seq<byte>, k: nat)
    requires k <= |g|
    ensures Value(g[..k]) <= Value(g)
    decreases |g| - k
  {
    if k < |g| {
      ValueOfPrefix(g, k + 1);
      ValueSnoc(g[..k], g[k]);
      assert g[..k + 1] == g[..k] + [g[k]];
    } else {
      assert g[..k] == g;
    }
  }

  /** The digits read so far and the next one occupy different bits, so their sum cannot carry out of 64 bits. */
  lemma DigitFits(result: nat, slice: nat, k: nat)
    requires k < 10 && result < Pow128(k) && slice < 128 && slice * Pow128(k) < TWO64
    ensures result + slice * Pow128(k) < TWO64
    ensures result + slice * Pow128(k) < Pow128(k + 1)
  {
    var p := Pow128(k);
    var q := PowerQuotient(k);
    assert slice < q by {
      if slice >= q { MulLe(q, slice, p); }
    }
    MulLe(slice + 1, q, p);
    MulLe(slice + 1, 128, p);
    assert (slice + 1) * p == slice * p + p;
  }

  lemma MulLe(a: nat, b: nat, p: nat)
    requires a <= b
    ensures a * p <= b * p
  {
  }

  lemma PowerQuotient(k: nat) returns (q: nat)
    requires k < 10
    ensures q * Pow128(k) == TWO64
    decreases 10 - k
  {
    if k == 9 {
      Pow128Values();
      q := 2;
    } else {
      var r := PowerQuotient(k + 1);
      q := 128 * r;
      var p := Pow128(k);
      assert r * (128 * p) == (128 * r) * p;
    }
  }

  lemma GroupEnd(s: seq<byte>, p: nat, e: nat)
    requires p < e <= |s| && IsGroup(s[p..e])
    ensures s[e - 1] < 128 && forall i | p <= i < e - 1 :: s[i] >= 128
  {
    var g := s[p..e];
    assert forall i | 0 <= i < e - p :: g[i] == s[p + i];
    forall i | p <= i < e - 1 ensures s[i] >= 128 {
      assert g[i - p] >= 128;
    }
  }

  /** All bytes go on: no group ends here. */
  lemma NoGroup(s: seq<byte>, p: nat, end: nat)
    requires p <= end <= |s| && forall i | p <= i < end :: s[i] >= 128
    ensures forall e | p < e <= end :: !IsGroup(s[p..e])
  {
    forall e | p < e <= end
      ensures !IsGroup(s[p..e])
    {
      if IsGroup(s[p..e]) {
        GroupEnd(s, p, e);
      }
    }
  }

  /** The first byte that does not go on ends the only group. */
  lemma OnlyGroup(s: seq<byte>, p: nat, q: nat, end: nat)
    requires p < q <= end <= |s| && s[q - 1] < 128 && forall i | p <= i < q - 1 :: s[i] >= 128
    ensures IsGroup(s[p..q]) && forall e | p < e <= end && IsGroup(s[p..e]) :: e == q
  {
    forall e | p < e <= end && IsGroup(s[p..e])
      ensures e == q
    {
      GroupEnd(s, p, e);
    }
  }

  lemma ValueNext(s: seq<byte>, p: nat, q: nat)
    requires p <= q < |s|
    ensures Value(s[p..q + 1]) == Value(s[p..q]) + s[q] % 128 * Pow128(q - p)
  {
    assert s[p..q + 1] == s[p..q] + [s[q]];
    ValueSnoc(s[p..q], s[q]);
  }

  /** A digit that does not fit is in every group that starts here. */
  lemma TooBigGroups(s: seq<byte>, p: nat, q: nat, end: nat)
    requires p <= q < end <= |s| && forall i | p <= i < q :: s[i] >= 128
    requires q - p >= 10 || Value(s[p..q + 1]) >= TWO64
    ensures forall e | p < e <= end && IsGroup(s[p..e]) :: e - p > 10 || Value(s[p..e]) >= TWO64
  {
    hide IsGroup, Value;
    forall e | p < e <= end && IsGroup(s[p..e])
      ensures e - p > 10 || Value(s[p..e]) >= TWO64
    {
      GroupEnd(s, p, e);
      ValueOfPrefix(s[p..e], q + 1 - p);
      assert s[p..e][..q + 1 - p] == s[p..q + 1];
    }
  }

  /** read_uleb128 between `p` and `end`. Whatever group starts at `p`, it is accepted exactly when it has at most ten
      bytes and its number fits in 64 bits. */
  method ReadUleb128(s: seq<byte>, p: nat, end: nat) returns (r: ReadResult)
    requires p <= end <= |s|
    ensures r.Read? ==> p < r.next <= end && IsGroup(s[p..r.next]) && r.value == Value(s[p..r.next])
    ensures r.PastEnd? ==> forall i | p <= i < end :: s[i] >= 128
    ensures forall q | p < q <= end && IsGroup(s[p..q]) ::
              if q - p <= 10 && Value(s[p..q]) < TWO64 then r == Read(Value(s[p..q]), q) else r.TooBig?
  {
    var result, k, q := 0, 0, p;
    assert s[p..p] == [] && Value([]) == 0 && Pow128(0) == 1;
    hide IsGroup, Value, Pow128;
    while true
      invariant k == q - p && p <= q <= end
      invariant 0 <= result == Value(s[p..q]) < Pow128(k) && result < TWO64
      invariant forall i | p <= i < q :: s[i] >= 128
      decreases end - q
    {
      if q == end {
        NoGroup(s, p, end);
        return PastEnd;
      }
      ValueNext(s, p, q);
      var slice := s[q] % 128;
      if 7 * k >= 64 || slice * Pow128(k) >= TWO64 {
        TooBigGroups(s, p, q, end);
        return TooBig;
      }
      DigitFits(result, slice, k);
      result := result + slice * Pow128(k);
      k, q := k + 1, q + 1;
      if s[q - 1] < 128 {
        OnlyGroup(s, p, q, end);
        return Read(result, q);
      }
    }
  }

  /** The example of the standard. */
  lemma Example()
    ensures Encode(624485) == [0xE5, 0x8E, 0x26] && Value([0xE5, 0x8E, 0x26]) == 624485
  {
    assert Encode(38) == [0x26];
    assert Encode(4878) == [0x8E, 0x26];
    assert Value([0x26]) == 38 && [0x8E, 0x26][1..] == [0x26] && [0xE5, 0x8E, 0x26][1..] == [0x8E, 0x26];
    assert Value([0x8E, 0x26]) == 4878;
  }
}
