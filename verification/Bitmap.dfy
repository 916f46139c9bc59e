/** The allocation bitmap, packed eight bits to a byte and kept twice on disk. */
module Bitmap {
  import opened Arithmetic

  /** The byte with only bit `r` set, 1 << r. */
  function Mask(r: nat): bv8
    requires r < 8
  {
    match r
    case 0 => 0x01 case 1 => 0x02 case 2 => 0x04 case 3 => 0x08
    case 4 => 0x10 case 5 => 0x20 case 6 => 0x40 case 7 => 0x80
  }

  lemma MaskShifts(r: nat)
    requires r < 8
    ensures Mask(r) == (1 as bv8) << r
  {
  }

  function BitOf(c: bv8, r: nat): bool
    requires r < 8
  {
    c & Mask(r) != 0
  }

  function WithBit(c: bv8, r: nat, bit: bool): bv8
    requires r < 8
  {
    if bit then c | Mask(r) else c & !Mask(r)
  }

  lemma WithBitSame(c: bv8, r: nat, bit: bool)
    requires r < 8
    ensures BitOf(WithBit(c, r, bit), r) == bit
  {
  }

  lemma WithBitOther(c: bv8, r: nat, bit: bool, s: nat)
    requires r < 8 && s < 8 && r != s
    ensures BitOf(WithBit(c, r, bit), s) == BitOf(c, s)
  {
  }

  class MirroredBitmap {
    const particles: nat
    const mirror1: array<bv8>
    const mirror2: array<bv8>

    ghost predicate Shape() {
      && mirror1 != mirror2
      && mirror1.Length == CeilDiv(8, particles) == mirror2.Length
    }

    function BitIn(mirror: array<bv8>, i: nat): bool
      requires mirror.Length == CeilDiv(8, particles) && i < particles
      reads mirror
    {
      CellOf(8, particles, i);
      BitOf(mirror[i / 8], i % 8)
    }

    /** The two copies agree on every bit. */
    ghost predicate Consistent()
      requires Shape()
      reads mirror1, mirror2
    {
      forall i: nat :: i < particles ==> BitIn(mirror1, i) == BitIn(mirror2, i)
    }

    ghost function Bits(): (bits: seq<bool>)
      requires Shape()
      reads mirror1
      ensures |bits| == particles
    {
      seq(particles, i requires 0 <= i < particles reads mirror1 => BitIn(mirror1, i))
    }

    /** An empty bitmap. */
    constructor (n: nat)
      ensures Shape() && Consistent() && particles == n
      ensures Bits() == seq(n, _ => false)
      ensures fresh(mirror1) && fresh(mirror2)
    {
      particles := n;
      mirror1 := new bv8[CeilDiv(8, n)](_ => 0);
      mirror2 := new bv8[CeilDiv(8, n)](_ => 0);
    }

    /** Reads a bit from both copies; a mismatch is reported instead of a value. */
    method GetBit(i: nat) returns (consistent: bool, bit: bool)
      requires Shape() && i < particles
      ensures consistent <==> BitIn(mirror1, i) == BitIn(mirror2, i)
      ensures consistent ==> bit == Bits()[i]
    {
      CellOf(8, particles, i);
      bit := BitOf(mirror1[i / 8], i % 8);
      var other := BitOf(mirror2[i / 8], i % 8);
      consistent := bit == other;
    }

    method SetIn(mirror: array<bv8>, i: nat, bit: bool)
      requires mirror.Length == CeilDiv(8, particles) && i < particles
      modifies mirror
      ensures BitIn(mirror, i) == bit
      ensures forall j: nat :: j < particles && j != i ==> BitIn(mirror, j) == old(BitIn(mirror, j))
    {
      CellOf(8, particles, i);
      var q, r := i / 8, i % 8;
      var was := mirror[q];
      mirror[q] := WithBit(was, r, bit);
      WithBitSame(was, r, bit);
      forall j: nat | j < particles && j != i
        ensures BitIn(mirror, j) == old(BitIn(mirror, j))
      {
        CellOf(8, particles, j);
        if j / 8 == q {
          WithBitOther(was, r, bit, j % 8);
        }
      }
    }

    /** Writes a bit to both copies, unless they already disagree on it. */
    method SetBit(i: nat, bit: bool) returns (consistent: bool)
      requires Shape() && i < particles
      modifies mirror1, mirror2
      ensures consistent <==> old(BitIn(mirror1, i) == BitIn(mirror2, i))
      ensures consistent ==> Bits() == old(Bits())[i := bit]
      ensures consistent && old(Consistent()) ==> Consistent()
      ensures !consistent ==> unchanged(mirror1) && unchanged(mirror2)
    {
      var was;
      consistent, was := GetBit(i);
      if consistent {
        SetIn(mirror1, i, bit);
        SetIn(mirror2, i, bit);
      }
    }
  }
}
