/** Packed bits: libtorrent's MSB-first piece bitfields, and the LSB-first
    mask that says which alert types an overflow dropped. */
module Bitfields {

  import opened Common

  const I32_RANGE: int := 0x1_0000_0000
  const I32_MAX: int := 0x7fff_ffff

  /** The `as i32` cast: wraps modulo 2^32. */
  function AsI32(n: int): (r: int)
    ensures -I32_MAX - 1 <= r <= I32_MAX
    ensures (r - n) % I32_RANGE == 0
  {
    var m := n % I32_RANGE;
    if m <= I32_MAX then m else m - I32_RANGE
  }

  function DivCeil8(n: nat): (r: nat)
    ensures 8 * r - 8 < n <= 8 * r
  {
    (n + 7) / 8
  }

  // ---- piece bitfields, MSB first ------------------------------------------

  function MsbMask(k: nat): bv8
    requires k < 8
  {
    0x80 >> k
  }

  predicate MsbBit(bytes: seq<bv8>, i: nat)
    requires i < 8 * |bytes|
  {
    bytes[i / 8] & MsbMask(i % 8) != 0
  }

  lemma MsbMaskSets(b: bv8, k: nat, m: nat)
    requires k < 8 && m < 8
    ensures ((b | MsbMask(k)) & MsbMask(m) != 0) == (k == m || b & MsbMask(m) != 0)
  {
    if m == 0 {} else if m == 1 {} else if m == 2 {} else if m == 3 {}
    else if m == 4 {} else if m == 5 {} else if m == 6 {} else {}
    if k == 0 {} else if k == 1 {} else if k == 2 {} else if k == 3 {}
    else if k == 4 {} else if k == 5 {} else if k == 6 {} else {}
  }

  predicate Bit(bits: seq<bool>, at: nat) {
    at < |bits| && bits[at]
  }

  /** The byte holds eight of the bits: the first one weighs 128, the last 1. */
  predicate Holds(b: bv8, bits: seq<bool>, at: nat) {
    && (b & 128 != 0) == Bit(bits, at) && (b & 64 != 0) == Bit(bits, at + 1)
    && (b & 32 != 0) == Bit(bits, at + 2) && (b & 16 != 0) == Bit(bits, at + 3)
    && (b & 8 != 0) == Bit(bits, at + 4) && (b & 4 != 0) == Bit(bits, at + 5)
    && (b & 2 != 0) == Bit(bits, at + 6) && (b & 1 != 0) == Bit(bits, at + 7)
  }

  /** A byte is the sum of what its bits weigh. */
  lemma ByteIsSum(b: bv8)
    ensures b == (b & 128) + (b & 64) + (b & 32) + (b & 16) + (b & 8) + (b & 4) + (b & 2) + (b & 1)
    ensures b & 128 in {0, 128} && b & 64 in {0, 64} && b & 32 in {0, 32} && b & 16 in {0, 16}
    ensures b & 8 in {0, 8} && b & 4 in {0, 4} && b & 2 in {0, 2} && b & 1 in {0, 1}
  {
  }

  lemma MsbMasks()
    ensures MsbMask(0) == 128 && MsbMask(1) == 64 && MsbMask(2) == 32 && MsbMask(3) == 16
    ensures MsbMask(4) == 8 && MsbMask(5) == 4 && MsbMask(6) == 2 && MsbMask(7) == 1
  {
  }

  lemma PackedBit(bits: seq<bool>, bytes: seq<bv8>, i: nat, k: nat, mask: bv8)
    requires i < |bytes| && k < 8 && mask == MsbMask(k) && |bits| <= 8 * |bytes|
    requires forall j :: 0 <= j < |bits| ==> MsbBit(bytes, j) == bits[j]
    requires forall j :: |bits| <= j < 8 * |bytes| ==> !MsbBit(bytes, j)
    ensures (bytes[i] & mask != 0) == Bit(bits, 8 * i + k)
  {
    assert (8 * i + k) / 8 == i && (8 * i + k) % 8 == k;
    assert MsbBit(bytes, 8 * i + k) == Bit(bits, 8 * i + k);
  }

  lemma PackedByte(bits: seq<bool>, bytes: seq<bv8>, i: nat)
    requires i < |bytes| && |bits| <= 8 * |bytes|
    requires forall j :: 0 <= j < |bits| ==> MsbBit(bytes, j) == bits[j]
    requires forall j :: |bits| <= j < 8 * |bytes| ==> !MsbBit(bytes, j)
    ensures Holds(bytes[i], bits, 8 * i)
  {
    MsbMasks();
    PackedBit(bits, bytes, i, 0, 128);
    PackedBit(bits, bytes, i, 1, 64);
    PackedBit(bits, bytes, i, 2, 32);
    PackedBit(bits, bytes, i, 3, 16);
    PackedBit(bits, bytes, i, 4, 8);
    PackedBit(bits, bytes, i, 5, 4);
    PackedBit(bits, bytes, i, 6, 2);
    PackedBit(bits, bytes, i, 7, 1);
  }

  /** Packs booleans; bits past the end of the input stay zero. */
  method BoolsToBitfield(bits: seq<bool>) returns (bytes: seq<bv8>, numBits: int)
    ensures |bytes| == DivCeil8(|bits|)
    ensures forall i :: 0 <= i < |bits| ==> MsbBit(bytes, i) == bits[i]
    ensures forall i :: |bits| <= i < 8 * |bytes| ==> !MsbBit(bytes, i)
    ensures forall i :: 0 <= i < |bytes| ==> Holds(bytes[i], bits, 8 * i)
    ensures numBits == AsI32(|bits|)
  {
    bytes := seq(DivCeil8(|bits|), _ => 0);
    for i := 0 to |bits|
      invariant |bytes| == DivCeil8(|bits|)
      invariant forall j :: 0 <= j < i ==> MsbBit(bytes, j) == bits[j]
      invariant forall j :: i <= j < 8 * |bytes| ==> !MsbBit(bytes, j)
    {
      if bits[i] {
        ghost var before := bytes;
        bytes := bytes[i / 8 := bytes[i / 8] | MsbMask(i % 8)];
        forall j | 0 <= j < 8 * |bytes|
          ensures MsbBit(bytes, j) == (j == i || MsbBit(before, j))
        {
          if j / 8 == i / 8 {
            MsbMaskSets(before[i / 8], i % 8, j % 8);
          }
        }
      }
    }
    numBits := AsI32(|bits|);
    forall i | 0 <= i < |bytes|
      ensures Holds(bytes[i], bits, 8 * i)
    {
      PackedByte(bits, bytes, i);
    }
  }

  function BitfieldToBools(bytes: seq<bv8>, numBits: int): (r: seq<bool>)
    requires numBits <= 8 * |bytes|
  {
    if numBits <= 0 then [] else seq(numBits, i requires 0 <= i < numBits => MsbBit(bytes, i))
  }

  /** What packing promises about its output. */
  ghost predicate Packs(bits: seq<bool>, bytes: seq<bv8>) {
    && |bytes| == DivCeil8(|bits|)
    && forall i :: 0 <= i < |bits| ==> MsbBit(bytes, i) == bits[i]
  }

  /** Packing then unpacking is the identity exactly as long as the length
      survives the cast to a 32-bit count. */
  lemma PackRoundTrip(bits: seq<bool>, bytes: seq<bv8>)
    requires Packs(bits, bytes)
    ensures AsI32(|bits|) <= 8 * |bytes|
    ensures BitfieldToBools(bytes, AsI32(|bits|)) == bits <==> |bits| <= I32_MAX
  {
    if |bits| > I32_MAX {
      assert AsI32(|bits|) != |bits|;
      assert |BitfieldToBools(bytes, AsI32(|bits|))| != |bits|;
    }
  }

  /** One bit more, and what was packed does not come back. */
  lemma TooManyBits() returns (bits: seq<bool>, bytes: seq<bv8>)
    ensures |bits| == I32_MAX + 1 && Packs(bits, bytes)
    ensures AsI32(|bits|) < 0 && BitfieldToBools(bytes, AsI32(|bits|)) == [] != bits
  {
    bits := seq(I32_MAX + 1, _ => false);
    bytes := seq(DivCeil8(|bits|), _ => 0);
  }

  datatype PieceBitfield = PieceBitfield(bytes: seq<bv8>, bits: nat) {
    predicate Valid() {
      |bytes| == DivCeil8(bits)
    }

    function Get(index: nat): Option<bool>
      requires Valid()
    {
      if index >= bits then None else Some(MsbBit(bytes, index))
    }

    function Iter(): (r: seq<bool>)
      requires Valid()
    {
      seq(bits, i requires 0 <= i < bits => MsbBit(bytes, i))
    }

    function CountOnes(): nat
      requires Valid()
    {
      |Filter(Iter())|
    }
  }

  /** `filter(|&b| b)`. */
  function Filter(s: seq<bool>): seq<bool> {
    if s == [] then [] else (if s[0] then [s[0]] else []) + Filter(s[1..])
  }

  lemma {:induction false} FilterCounts(s: seq<bool>)
    ensures |Filter(s)| == multiset(s)[true]
  {
    if s != [] {
      FilterCounts(s[1..]);
      assert s == [s[0]] + s[1..];
    }
  }

  /** The borrowed view reads back the plain boolean sequence. */
  lemma PieceBitfieldReads(bits: seq<bool>, bytes: seq<bv8>)
    requires Packs(bits, bytes)
    ensures var f := PieceBitfield(bytes, |bits|);
      && f.Valid()
      && f.Iter() == bits
      && f.CountOnes() == multiset(bits)[true]
      && (forall i: nat :: f.Get(i) == if i < |bits| then Some(bits[i]) else None)
  {
    var f := PieceBitfield(bytes, |bits|);
    assert f.Iter() == bits;
    FilterCounts(bits);
  }

  // ---- the alerts_dropped mask, LSB first ----------------------------------

  function LsbMask(k: nat): bv8
    requires k < 8
  {
    1 << k
  }

  /** The reader used by both the registry and `AlertsDroppedAlert::dropped`. */
  predicate Dropped(view: seq<bv8>, ty: int)
    requires |view| == 16
  {
    0 <= ty < 128 && view[ty / 8] & LsbMask(ty % 8) != 0
  }

  function Flag(on: bool, k: nat): bv8
    requires k < 8
  {
    if on then LsbMask(k) else 0
  }

  function DroppedByte(types: set<nat>, i: nat): bv8 {
    Flag(8 * i in types, 0) | Flag(8 * i + 1 in types, 1) | Flag(8 * i + 2 in types, 2) |
    Flag(8 * i + 3 in types, 3) | Flag(8 * i + 4 in types, 4) | Flag(8 * i + 5 in types, 5) |
    Flag(8 * i + 6 in types, 6) | Flag(8 * i + 7 in types, 7)
  }

  function DroppedView(types: set<nat>): (view: seq<bv8>)
    ensures |view| == 16
  {
    seq(16, i requires 0 <= i < 16 => DroppedByte(types, i))
  }

  lemma DroppedByteReads(types: set<nat>, i: nat, k: nat)
    requires k < 8
    ensures (DroppedByte(types, i) & LsbMask(k) != 0) == (8 * i + k in types)
  {
    if k == 0 {} else if k == 1 {} else if k == 2 {} else if k == 3 {}
    else if k == 4 {} else if k == 5 {} else if k == 6 {} else {}
  }

  /** Writer and readers agree on every alert type below 128. */
  lemma DroppedAgrees(types: set<nat>, ty: int)
    requires forall t :: t in types ==> t < 128
    ensures Dropped(DroppedView(types), ty) <==> ty >= 0 && ty in types
  {
    if 0 <= ty < 128 {
      DroppedByteReads(types, ty / 8, ty % 8);
      assert 8 * (ty / 8) + ty % 8 == ty;
    }
  }

  lemma LsbMaskSets(b: bv8, k: nat, m: nat)
    requires k < 8 && m < 8
    ensures ((b | LsbMask(k)) & LsbMask(m) != 0) == (k == m || b & LsbMask(m) != 0)
  {
    if m == 0 {} else if m == 1 {} else if m == 2 {} else if m == 3 {}
    else if m == 4 {} else if m == 5 {} else if m == 6 {} else {}
    if k == 0 {} else if k == 1 {} else if k == 2 {} else if k == 3 {}
    else if k == 4 {} else if k == 5 {} else if k == 6 {} else {}
  }

  /** The mask's byte for eight types: the first one weighs 1, the last 128. */
  predicate Marks(b: bv8, types: set<nat>, ty: nat) {
    && (b & 1 != 0) == (ty in types) && (b & 2 != 0) == (ty + 1 in types)
    && (b & 4 != 0) == (ty + 2 in types) && (b & 8 != 0) == (ty + 3 in types)
    && (b & 16 != 0) == (ty + 4 in types) && (b & 32 != 0) == (ty + 5 in types)
    && (b & 64 != 0) == (ty + 6 in types) && (b & 128 != 0) == (ty + 7 in types)
  }

  lemma LsbMasks()
    ensures LsbMask(0) == 1 && LsbMask(1) == 2 && LsbMask(2) == 4 && LsbMask(3) == 8
    ensures LsbMask(4) == 16 && LsbMask(5) == 32 && LsbMask(6) == 64 && LsbMask(7) == 128
  {
  }

  lemma MarkedBit(types: set<nat>, view: seq<bv8>, i: nat, k: nat, mask: bv8)
    requires |view| == 16 && i < 16 && k < 8 && mask == LsbMask(k)
    requires forall ty: int :: Dropped(view, ty) <==> ty >= 0 && ty in types
    ensures (view[i] & mask != 0) == (8 * i + k in types)
  {
    assert (8 * i + k) / 8 == i && (8 * i + k) % 8 == k;
    assert Dropped(view, 8 * i + k) <==> 8 * i + k in types;
  }

  lemma MarkedByte(types: set<nat>, view: seq<bv8>, i: nat)
    requires |view| == 16 && i < 16
    requires forall ty: int :: Dropped(view, ty) <==> ty >= 0 && ty in types
    ensures Marks(view[i], types, 8 * i)
  {
    LsbMasks();
    MarkedBit(types, view, i, 0, 1);
    MarkedBit(types, view, i, 1, 2);
    MarkedBit(types, view, i, 2, 4);
    MarkedBit(types, view, i, 3, 8);
    MarkedBit(types, view, i, 4, 16);
    MarkedBit(types, view, i, 5, 32);
    MarkedBit(types, view, i, 6, 64);
    MarkedBit(types, view, i, 7, 128);
  }

  /** The shim's loop over the bitset of dropped types. */
  method WriteDropped(types: set<nat>, count: nat) returns (view: seq<bv8>)
    requires count <= 128 && forall t :: t in types ==> t < count
    ensures |view| == 16
    ensures forall ty: int :: Dropped(view, ty) <==> ty >= 0 && ty in types
    ensures forall i :: 0 <= i < 16 ==> Marks(view[i], types, 8 * i)
  {
    view := seq(16, _ => 0);
    for i := 0 to count
      invariant |view| == 16
      invariant forall ty: int :: Dropped(view, ty) <==> 0 <= ty < i && ty in types
    {
      if i in types {
        ghost var before := view;
        view := view[i / 8 := view[i / 8] | LsbMask(i % 8)];
        forall ty: int
          ensures Dropped(view, ty) <==> ty == i || Dropped(before, ty)
        {
          if 0 <= ty < 128 && ty / 8 == i / 8 {
            LsbMaskSets(before[i / 8], i % 8, ty % 8);
          }
        }
      }
    }
    forall i | 0 <= i < 16
      ensures Marks(view[i], types, 8 * i)
    {
      MarkedByte(types, view, i);
    }
  }
}
