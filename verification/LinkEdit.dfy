/** The export trie of a file in the memory of the builder, found through a 32-bit offset that two readers extend. */
module LinkEdit {
  import opened Bytes

  // ----- memory

  /** The mapped bytes of the process, by address. */
  type Memory = map<nat, byte>

  predicate Mapped(memory: Memory, p: nat, n: nat) {
    forall a | p <= a < p + n :: a in memory
  }

  predicate Unmapped(memory: Memory, p: nat, n: nat) {
    forall a | p <= a < p + n :: a !in memory
  }

  function Stretch(memory: Memory, p: nat, n: nat): (s: seq<byte>)
    requires Mapped(memory, p, n)
    ensures |s| == n && forall i | 0 <= i < n :: s[i] == memory[p + i]
  {
    seq(n, i requires 0 <= i < n => memory[p + i])
  }

  /** memcpy. */
  function Written(memory: Memory, p: nat, s: seq<byte>): (m: Memory)
    ensures Mapped(m, p, |s|) && Stretch(m, p, |s|) == s
    ensures forall a | a in memory && !(p <= a < p + |s|) :: a in m && m[a] == memory[a]
    ensures forall a | a in m && !(p <= a < p + |s|) :: a in memory
  {
    if s == [] then memory
    else
      var n := |s| - 1;
      var m := Written(memory, p, s[..n]);
      assert Stretch(m, p, n) == s[..n] && forall i | 0 <= i < n :: Stretch(m, p, n)[i] == s[i];
      m[p + n := s[n]]
  }

  /** What was not written keeps its bytes. */
  lemma {:induction false} Beside(memory: Memory, p: nat, s: seq<byte>, q: nat, n: nat)
    requires Mapped(memory, q, n) && (q + n <= p || p + |s| <= q || Unmapped(memory, p, |s|))
    ensures Mapped(Written(memory, p, s), q, n) && Stretch(Written(memory, p, s), q, n) == Stretch(memory, q, n)
  {
    hide Written;
  }

  function Zeros(n: nat): (z: seq<byte>)
    ensures |z| == n && forall i | 0 <= i < n :: z[i] == 0
  {
    seq(n, _ => 0)
  }

  lemma {:induction false} ZerosWritten(memory: Memory, p: nat, z: seq<byte>)
    requires forall i | 0 <= i < |z| :: z[i] == 0
    ensures var m := Written(memory, p, z); forall a | p <= a < p + |z| :: a in m && m[a] == 0
  {
    hide Written;
    var m := Written(memory, p, z);
    assert forall a | p <= a < p + |z| :: m[a] == Stretch(m, p, |z|)[a - p];
  }

  /** What operator new can answer: nothing, or a block that is not in use. */
  ghost predicate Allocates(malloc: nat -> Option<nat>, memory: Memory, host: int) {
    forall n | malloc(n).Some? :: malloc(n).value + n <= host && Unmapped(memory, malloc(n).value, n)
  }

  // ----- pointers and the 32-bit offset

  /** The builder runs as a 32-bit or as a 64-bit process. */
  predicate HostWidth(host: int) {
    host == TWO32 || host == TWO64
  }

  /** The difference of two pointers, signed, in the width of the process. */
  function Distance(p: nat, base: nat, host: int): (d: int)
    requires HostWidth(host)
    ensures -(host / 2) <= d < host / 2
  {
    (p - base + host / 2) % host - host / 2
  }

  /** It survives the narrowing to a signed 32-bit number. */
  predicate Near(distance: int) {
    -0x8000_0000 <= distance < 0x8000_0000
  }

  /** A stored offset taken as a signed number. */
  function Signed(off: u32): int {
    if off < 0x8000_0000 then off else off - TWO32
  }

  /** &fLinkEditBase[export_off()], as the rebaser and the binder read it. */
  function BinderStart(base: nat, off: u32, host: int): nat
    requires HostWidth(host)
  {
    (base + off) % host
  }

  /** fLinkEditBase + (int32_t)export_off(), as copyExportInfo reads it. */
  function CopierStart(base: nat, off: u32, host: int): nat
    requires HostWidth(host)
  {
    (base + Signed(off)) % host
  }

  /** In a 32-bit process every block is near enough. */
  lemma NearIn32(p: nat, base: nat)
    ensures Near(Distance(p, base, TWO32))
  {
  }

  lemma Narrowing(d: int)
    requires Near(d)
    ensures Signed(d % TWO32) == d && d % TWO32 == if d >= 0 then d else d + TWO32
  {
  }

  /** Near are exactly the distances some stored offset stands for; taken as a signed number or not, a stored offset is
      the same modulo 2^32. */
  lemma NearExactly(d: int)
    ensures Near(d) <==> exists off: u32 :: Signed(off) == d
    ensures forall off: u32 :: -0x8000_0000 <= Signed(off) < 0x8000_0000 && (Signed(off) - off) % TWO32 == 0
  {
    if Near(d) {
      Narrowing(d);
      var off: u32 := d % TWO32;
      assert Signed(off) == d;
    }
  }

  /** The distance leads from the base to the block. */
  lemma DistanceLeads(p: nat, base: nat, host: int)
    requires HostWidth(host) && p < host && base < host
    ensures (base + Distance(p, base, host)) % host == p
  {
    var q := (p - base + host / 2) / host;
    assert base + Distance(p, base, host) == p - q * host;
    if host == TWO32 {
      assert (p - q * TWO32) % TWO32 == p;
    } else {
      assert (p - q * TWO64) % TWO64 == p;
    }
  }

  /** The copier always finds the block again. The binder does if the distance is not negative, or in 32 bits. */
  lemma BlockFound(p: nat, base: nat, host: int)
    requires HostWidth(host) && p < host && base < host && Near(Distance(p, base, host))
    ensures var off := Distance(p, base, host) % TWO32;
            && CopierStart(base, off, host) == p
            && (BinderStart(base, off, host) == p <==> host == TWO32 || Distance(p, base, host) >= 0)
  {
    hide Distance;
    var d := Distance(p, base, host);
    Narrowing(d);
    DistanceLeads(p, base, host);
    if host == TWO32 {
      assert d < 0 ==> (base + d + TWO32) % TWO32 == (base + d) % TWO32;
    } else if d < 0 {
      BlockMissed(p, base);
    }
  }

  /** Otherwise it looks 4 GB further up, where no byte of the block lies. */
  lemma BlockMissed(p: nat, base: nat)
    requires p < TWO64 && base < TWO64 && Near(Distance(p, base, TWO64)) && Distance(p, base, TWO64) < 0
    ensures var q := BinderStart(base, Distance(p, base, TWO64) % TWO32, TWO64);
            q == (p + TWO32) % TWO64 && q != p && (q >= p + TWO32 || q + TWO64 == p + TWO32)
  {
    hide Distance;
    var d := Distance(p, base, TWO64);
    Narrowing(d);
    DistanceLeads(p, base, TWO64);
    var k := (base + d) / TWO64;
    assert base + d + TWO32 == p + TWO32 + k * TWO64;
    assert (p + TWO32 + k * TWO64) % TWO64 == (p + TWO32) % TWO64;
  }

  /** Bytes that stay where they were: the binder finds them, and the copier does below 2 GB, or in 32 bits. */
  lemma PlaceFound(base: nat, off: u32, host: int)
    requires HostWidth(host) && base < host
    ensures CopierStart(base, off, host) == BinderStart(base, off, host) <==> host == TWO32 || off < 0x8000_0000
  {
    if host == TWO32 {
      assert off >= 0x8000_0000 ==> (base + off - TWO32) % TWO32 == (base + off) % TWO32;
    } else {
      Reduced(base + off);
      Reduced(base + Signed(off));
    }
  }

  /** A sum of an address and an offset, in 64 bits. */
  lemma Reduced(a: int)
    requires -TWO64 <= a < 2 * TWO64
    ensures a % TWO64 == if a < 0 then a + TWO64 else if a < TWO64 then a else a - TWO64
  {
  }

  // ----- the export information of one file

  class ExportInfo {
    const host: int
    const base: nat          // fLinkEditBase
    var memory: Memory
    var exportOff: u32
    var exportSize: u32

    constructor (host: int, base: nat, memory: Memory, exportOff: u32, exportSize: u32)
      ensures this.host == host && this.base == base && this.memory == memory
      ensures this.exportOff == exportOff && this.exportSize == exportSize
    {
      this.host, this.base, this.memory, this.exportOff, this.exportSize := host, base, memory, exportOff, exportSize;
    }

    /** Where the rebaser and the binder read. */
    function Start(): nat
      reads this`exportOff
      requires HostWidth(host)
    {
      BinderStart(base, exportOff, host)
    }

    ghost predicate Valid()
      reads this
    {
      HostWidth(host) && base < host && Start() + exportSize <= host && Mapped(memory, Start(), exportSize)
    }

    ghost function Bytes(): seq<byte>
      reads this
      requires Valid()
    {
      Stretch(memory, Start(), exportSize)
    }

    /** The bytes lie in memory from this address on, and there are as many as the size says. */
    ghost predicate Holds(bytes: seq<byte>, at: nat)
      reads this
    {
      exportSize == |bytes| && at + |bytes| <= host && Mapped(memory, at, |bytes|)
      && Stretch(memory, at, |bytes|) == bytes
    }

    /** Where new bytes go: to the old place if they fit, else to the block that is found for them. */
    ghost function PlaceFor(bytes: seq<byte>, malloc: nat -> Option<nat>): Option<nat>
      reads this
      requires HostWidth(host)
    {
      if |bytes| <= exportSize then Some(Start()) else malloc(|bytes|)
    }

    /** There is a place, and its distance can be stored. */
    ghost predicate HasRoom(bytes: seq<byte>, malloc: nat -> Option<nat>)
      reads this
      requires HostWidth(host)
    {
      || |bytes| <= exportSize
      || (malloc(|bytes|).Some? && Near(Distance(malloc(|bytes|).value, base, host)))
    }

    /** The binder will look where the bytes went. */
    ghost predicate BinderFinds(bytes: seq<byte>, malloc: nat -> Option<nat>)
      reads this
      requires HostWidth(host)
    {
      || |bytes| <= exportSize
      || host == TWO32
      || (malloc(|bytes|).Some? && Distance(malloc(|bytes|).value, base, host) >= 0)
    }

    /** The copier will. */
    ghost predicate CopierFinds(bytes: seq<byte>)
      reads this
    {
      |bytes| > exportSize || host == TWO32 || exportOff < 0x8000_0000
    }

    /** What has become of the section: the new bytes lie in their place, and each reader finds them there or not; the
        rest of the memory is as it was, but for zeros where old bytes were left over. */
    twostate predicate Replaced(bytes: seq<byte>, malloc: nat -> Option<nat>, at: nat)
      reads this
      requires HostWidth(host)
    {
      && old(PlaceFor(bytes, malloc)) == Some(at) && Holds(bytes, at)
      && (Start() == at <==> old(BinderFinds(bytes, malloc)))
      && (CopierStart(base, exportOff, host) == at <==> old(CopierFinds(bytes)))
      && (|bytes| <= old(exportSize) ==> exportOff == old(exportOff) && ZeroFrom(at + |bytes|, at + old(exportSize)))
      && (|bytes| > old(exportSize) ==> exportOff == Distance(at, base, host) % TWO32)
      && Kept(old(memory), old(Start()), old(exportSize))
      && forall a | a in memory :: a in old(memory) || at <= a < at + |bytes|
    }

    ghost predicate ZeroFrom(p: nat, end: nat)
      reads this
    {
      forall a | p <= a < end :: a in memory && memory[a] == 0
    }

    /** All that was mapped outside this stretch is unchanged. */
    ghost predicate Kept(was: Memory, p: nat, n: nat)
      reads this
    {
      forall a | a in was && !(p <= a < p + n) :: a in memory && memory[a] == was[a]
    }

    /** Nothing is lost: the old bytes are still in place. */
    twostate predicate Untouched()
      requires old(Valid())
      reads this
    {
      exportOff == old(exportOff) && exportSize == old(exportSize) && Valid() && Bytes() == old(Bytes())
    }

    /** The last part of adjustExportInfo: copies the new bytes into place and clears what is left of the old ones, or
        moves to a block of their own if that is near enough. */
    method Replace(bytes: seq<byte>, malloc: nat -> Option<nat>) returns (ok: bool, ghost at: nat)
      requires Valid() && |bytes| < TWO32 && Allocates(malloc, memory, host)
      modifies this`memory, this`exportOff, this`exportSize
      ensures ok <==> old(HasRoom(bytes, malloc))
      ensures if ok then Replaced(bytes, malloc, at) else Untouched()
    {
      at := BinderStart(base, exportOff, host);
      if |bytes| > exportSize {
        ok, at := MoveAside(bytes, malloc);
      } else {
        ok := true;
        Overwrite(bytes, malloc);
      }
    }

    method MoveAside(bytes: seq<byte>, malloc: nat -> Option<nat>) returns (ok: bool, ghost at: nat)
      requires Valid() && exportSize < |bytes| < TWO32 && Allocates(malloc, memory, host)
      modifies this`memory, this`exportOff, this`exportSize
      ensures ok <==> old(HasRoom(bytes, malloc))
      ensures if ok then Replaced(bytes, malloc, at) else Untouched()
    {
      hide Distance, BinderStart, CopierStart, Near, Written;
      at := 0;
      var sideTrie := malloc(|bytes|);
      if sideTrie == None {
        return false, 0;
      }
      at := sideTrie.value;
      Beside(memory, sideTrie.value, bytes, BinderStart(base, exportOff, host), exportSize);
      memory := Written(memory, sideTrie.value, bytes);
      var offset := Distance(sideTrie.value, base, host);
      if !Near(offset) {
        return false, at;
      }
      BlockFound(at, base, host);
      exportOff, exportSize := offset % TWO32, |bytes|;
      return true, at;
    }

    method Overwrite(bytes: seq<byte>, ghost malloc: nat -> Option<nat>)
      requires Valid() && |bytes| <= exportSize
      modifies this`memory, this`exportSize
      ensures old(Start()) == Start() && Replaced(bytes, malloc, Start())
    {
      hide BinderStart, CopierStart, Distance, Written;
      PlaceFound(base, exportOff, host);
      var trie, rest := BinderStart(base, exportOff, host), Zeros(exportSize - |bytes|);
      memory := Written(memory, trie, bytes);
      Beside(memory, trie + |bytes|, rest, trie, |bytes|);
      ZerosWritten(memory, trie + |bytes|, rest);
      memory := Written(memory, trie + |bytes|, rest);
      exportSize := |bytes|;
    }
  }
  /** A run in a 64-bit builder whose block lies 4096 bytes below the base: the rebaser is content, the new bytes are in
      memory and the copier would find them, but the binder is sent to an address where nothing is mapped. */
  method BlockBelowIsLost(bytes: seq<byte>) returns (info: ExportInfo, ok: bool, ghost at: nat)
    requires 4 < |bytes| <= 4096
    ensures ok && info.Holds(bytes, at)
    ensures HostWidth(info.host) && info.Start() !in info.memory
    ensures CopierStart(info.base, info.exportOff, info.host) == at
  {
    hide Distance, BinderStart, CopierStart, Written;
    var base := 0x1_0000_0000;
    info := new ExportInfo(TWO64, base, Written(map[], base, [0, 0, 0, 0]), 0, 4);
    SmallStarts(base);
    var malloc := n => if n <= 4096 then Some(base - 4096) else None;
    BlockMissed(base - 4096, base);
    BlockFound(base - 4096, base, TWO64);
    ok, at := info.Replace(bytes, malloc);
  }

  lemma SmallStarts(base: nat)
    requires 4096 <= base < TWO32 + 1
    ensures BinderStart(base, 0, TWO64) == base && Distance(base - 4096, base, TWO64) == -4096
  {
  }
}
