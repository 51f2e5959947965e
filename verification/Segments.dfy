/** Mach-O segments and the address lookups of the rebaser. */
module Segments {
  import opened Bytes

  /** What the cache builder knows of a segment: where it was linked and how big it was, its protection, whether its
      name is __LINKEDIT, its current size, where it goes, and where its bytes are mapped now. */
  datatype Segment = Segment(address: u64, origSize: u64, writable: bool, executable: bool, linkEdit: bool,
                             size: u64, newAddress: u64, mappedAddress: nat)

  /** The lookups are done in the pointer width of the architecture. */
  predicate Width(word: int) {
    word == TWO32 || word == TWO64
  }

  /** One past the last original address, as the source computes it: in 64 bits. */
  function EndOf(seg: Segment): u64 {
    (seg.address + seg.size) % TWO64
  }

  function NewEndOf(seg: Segment): u64 {
    (seg.newAddress + seg.size) % TWO64
  }

  /** The test of getSlideForVMAddress. */
  predicate Slides(seg: Segment, a: u64) {
    seg.address <= a && seg.size != 0 && (a < EndOf(seg) || seg.address == a)
  }

  /** The distance a segment moves, in the pointer width. */
  function SlideOf(seg: Segment, word: int): (s: nat)
    requires Width(word)
    ensures s < word
  {
    (seg.newAddress - seg.address) % word
  }

  /** The first segment that holds an original address. */
  function Holder(segs: seq<Segment>, a: u64): (j: nat)
    ensures j <= |segs| && forall i | 0 <= i < j :: !Slides(segs[i], a)
    ensures j < |segs| ==> Slides(segs[j], a)
  {
    if segs == [] || Slides(segs[0], a) then 0 else 1 + Holder(segs[1..], a)
  }

  /** The slide at an original address, if some segment holds it. */
  function SlideAt(segs: seq<Segment>, a: u64, word: int): Option<nat>
    requires Width(word)
  {
    var j := Holder(segs, a);
    if j < |segs| then Some(SlideOf(segs[j], word)) else None
  }

  /** getSlideForVMAddress; None stands for the exception. */
  method GetSlideForVMAddress(segs: seq<Segment>, vmaddress: u64, word: int) returns (slide: Option<nat>)
    requires Width(word) && vmaddress < word
    ensures slide == SlideAt(segs, vmaddress, word)
  {
    for i := 0 to |segs|
      invariant forall k | 0 <= k < i :: !Slides(segs[k], vmaddress)
    {
      var seg := segs[i];
      if seg.address <= vmaddress && seg.size != 0
         && (vmaddress < (seg.address + seg.size) % TWO64 || seg.address == vmaddress) {
        return Some((seg.newAddress - seg.address) % word);
      }
    }
    return None;
  }
}
