/** The proximity order of two keys, found byte by byte. */
module ByteBits {
  /** The mask of bit k of a byte, the most significant bit being bit 0. */
  function Mask(k: nat): bv8
    requires k < 8
  {
    match k
    case 0 => 0x80
    case 1 => 0x40
    case 2 => 0x20
    case 3 => 0x10
    case 4 => 0x08
    case 5 => 0x04
    case 6 => 0x02
    case _ => 0x01
  }

  lemma {:induction false} ShiftedOne(k: nat)
    requires k < 8
    ensures (1 as bv8) << (7 - k) == Mask(k)
  {
    match k
    case 0 =>
    case 1 =>
    case 2 =>
    case 3 =>
    case 4 =>
    case 5 =>
    case 6 =>
    case _ =>
  }

  lemma {:induction false} OrSetsOneBit(b: bv8, k: nat, l: nat)
    requires k < 8 && l < 8
    ensures (b | Mask(k)) & Mask(l) != 0 <==> k == l || b & Mask(l) != 0
  {
    match k
    case 0 =>
    case 1 =>
    case 2 =>
    case 3 =>
    case 4 =>
    case 5 =>
    case 6 =>
    case _ =>
  }

  lemma {:induction false} MasksCover(a: bv8, b: bv8)
    requires forall k: nat | k < 8 :: (a & Mask(k) != 0) == (b & Mask(k) != 0)
    ensures a == b
  {
    assert (a & Mask(0) != 0) == (b & Mask(0) != 0);
    assert (a & Mask(1) != 0) == (b & Mask(1) != 0);
    assert (a & Mask(2) != 0) == (b & Mask(2) != 0);
    assert (a & Mask(3) != 0) == (b & Mask(3) != 0);
    assert (a & Mask(4) != 0) == (b & Mask(4) != 0);
    assert (a & Mask(5) != 0) == (b & Mask(5) != 0);
    assert (a & Mask(6) != 0) == (b & Mask(6) != 0);
    assert (a & Mask(7) != 0) == (b & Mask(7) != 0);
  }

  lemma {:induction false} XorShowsDifference(a: bv8, b: bv8, k: nat)
    requires k < 8
    ensures ((a ^ b) >> (7 - k)) & 1 == 1 <==> (a & Mask(k) != 0) != (b & Mask(k) != 0)
  {
    match k
    case 0 =>
    case 1 =>
    case 2 =>
    case 3 =>
    case 4 =>
    case 5 =>
    case 6 =>
    case _ =>
  }
}

module Proximity {
  import opened Bits
  import opened ByteBits
  import opened Bytes

  predicate BitSet(b: Byte, k: nat)
    requires k < 8
  {
    b & Mask(k) != 0
  }

  lemma {:induction false} DifferentBits(a: Byte, b: Byte, k: nat)
    requires k < 8
    ensures ((a ^ b) >> (7 - k)) & 1 == 1 <==> BitSet(a, k) != BitSet(b, k)
  {
    hide Mask;
    XorShowsDifference(a, b, k);
  }

  /** The bits of a byte string, most significant first. */
  function BitsOf(k: Bytes): (r: seq<bool>)
    ensures |r| == 8 * |k| && forall n :: 0 <= n < |r| ==> r[n] == BitSet(k[n / 8], n % 8)
  {
    seq(8 * |k|, n requires 0 <= n < 8 * |k| => BitSet(k[n / 8], n % 8))
  }

  /** The strings agree on the bits from `lo` up to `hi` that both have. */
  ghost predicate AgreeOn(one: seq<bool>, other: seq<bool>, lo: nat, hi: nat)
  {
    forall n :: lo <= n < hi && n < |one| && n < |other| ==> one[n] == other[n]
  }

  lemma {:induction false} FirstDiffAt(one: seq<bool>, other: seq<bool>, pos: nat, n: nat)
    requires pos <= n < |one| && n < |other| && AgreeOn(one, other, pos, n) && one[n] != other[n]
    ensures FirstDiff(one, other, pos) == n
    decreases n - pos
  {
    if pos < n {
      FirstDiffAt(one, other, pos + 1, n);
    }
  }

  lemma {:induction false} NoDiff(one: seq<bool>, other: seq<bool>, pos: nat)
    requires AgreeOn(one, other, pos, |one|)
    ensures FirstDiff(one, other, pos) == |other|
    decreases |one| - pos
  {
    if pos < |one| && pos < |other| {
      NoDiff(one, other, pos + 1);
    }
  }

  /** The loop over bytes and, in the first byte that differs, over its bits finds the first bit that differs. */
  method PO(one: Bytes, other: Bytes, pos: nat) returns (po: nat)
    ensures po == FirstDiff(BitsOf(one), BitsOf(other), pos)
  {
    hide BitSet, FirstDiff;
    ghost var x, y := BitsOf(one), BitsOf(other);
    var i := pos / 8;
    while i < |one| && i < |other|
      invariant AgreeOn(x, y, pos, 8 * i)
      decreases |one| - i
    {
      if one[i] != other[i] {
        var oxo := one[i] ^ other[i];
        var start := if i == pos / 8 then pos % 8 else 0;
        var j := start;
        while j < 8
          invariant start <= j <= 8 && AgreeOn(x, y, pos, 8 * i + j)
        {
          DifferentBits(one[i], other[i], j);
          assert (8 * i + j) / 8 == i && (8 * i + j) % 8 == j;
          if (oxo >> (7 - j)) & 1 == 1 {
            FirstDiffAt(x, y, pos, 8 * i + j);
            return i * 8 + j;
          }
          j := j + 1;
        }
      }
      i := i + 1;
    }
    NoDiff(x, y, pos);
    return |other| * 8;
  }

  /** The bits determine the key, so a key is as good as its bits. */
  lemma {:induction false} BitsDetermineKey(a: Bytes, b: Bytes)
    requires BitsOf(a) == BitsOf(b)
    ensures a == b
  {
    assert |a| == |b|;
    forall i | 0 <= i < |a|
      ensures a[i] == b[i]
    {
      SameByte(a, b, i);
    }
  }

  lemma {:induction false} SameByte(a: Bytes, b: Bytes, i: nat)
    requires BitsOf(a) == BitsOf(b) && i < |a| == |b|
    ensures a[i] == b[i]
  {
    hide Mask;
    forall k: nat | k < 8
      ensures (a[i] & Mask(k) != 0) == (b[i] & Mask(k) != 0)
    {
      var n := 8 * i + k;
      assert n / 8 == i && n % 8 == k;
      assert BitsOf(a)[n] == BitSet(a[i], k) && BitsOf(b)[n] == BitSet(b[i], k);
    }
    MasksCover(a[i], b[i]);
  }
}
