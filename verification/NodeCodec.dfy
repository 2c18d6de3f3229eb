/** The binary form of a trie node: key, bitmap of fork positions, references, sizes, value. */
module NodeCodec {
  import opened ByteBits
  import opened Bytes
  import opened ByteValues
  import opened Proximity
  import opened Wrappers

  const KEY_SIZE := 32
  const BITMAP_SIZE := 32
  const REF_SIZE := 32
  const SIZE_SIZE := 4
  const FORKS_AT := 64

  datatype Fork = Fork(at: nat, ref: Bytes, size: nat)
  datatype Image = Image(key: Bytes, forks: seq<Fork>, value: Bytes)

  /** What a saved node looks like. */
  ghost predicate Encodable(n: Image)
  {
    && |n.key| == KEY_SIZE && Ascending(n.forks)
    && forall i :: 0 <= i < |n.forks| ==> |n.forks[i].ref| == REF_SIZE && n.forks[i].size < 0x1_0000_0000
  }

  ghost predicate Ascending(forks: seq<Fork>)
  {
    && (forall i :: 0 <= i < |forks| ==> forks[i].at < 256)
    && (forall i, j :: 0 <= i < j < |forks| ==> forks[i].at < forks[j].at)
  }

  // ---------------------------------------------------------------- the bitmap

  function SetBit(bm: Bytes, n: nat): (r: Bytes)
    ensures |r| == |bm|
  {
    if n / 8 < |bm| then bm[n / 8 := bm[n / 8] | Mask(n % 8)] else bm
  }

  function BitmapOf(forks: seq<Fork>): (r: Bytes)
    ensures |r| == BITMAP_SIZE
  {
    if forks == [] then Zeros(BITMAP_SIZE) else SetBit(BitmapOf(forks[..|forks| - 1]), forks[|forks| - 1].at)
  }

  predicate BitAt(bm: Bytes, p: nat)
  {
    p / 8 < |bm| && BitSet(bm[p / 8], p % 8)
  }

  function Positions(bm: Bytes, i: nat): (r: seq<nat>)
    decreases 256 - i
  {
    if i >= 256 then [] else (if BitAt(bm, i) then [i] else []) + Positions(bm, i + 1)
  }

  ghost predicate HasForkAt(forks: seq<Fork>, p: nat)
  {
    exists k :: 0 <= k < |forks| && forks[k].at == p
  }

  lemma {:induction false} SetBitAt(bm: Bytes, n: nat, p: nat)
    requires |bm| == BITMAP_SIZE && n < 256 && p < 256
    ensures BitAt(SetBit(bm, n), p) <==> n == p || BitAt(bm, p)
  {
    hide Mask, BitSet;
    assert n == 8 * (n / 8) + n % 8 && p == 8 * (p / 8) + p % 8;
    if n / 8 == p / 8 {
      OrBits(bm[n / 8], n % 8, p % 8);
    }
  }

  lemma {:induction false} OrBits(b: Byte, k: nat, l: nat)
    requires k < 8 && l < 8
    ensures BitSet(b | Mask(k), l) <==> k == l || BitSet(b, l)
  {
    hide Mask;
    OrSetsOneBit(b, k, l);
  }

  lemma {:induction false} NoBit(p: nat)
    requires p < 256
    ensures !BitAt(Zeros(BITMAP_SIZE), p)
  {
    hide Mask;
  }

  lemma {:induction false} BitmapBits(forks: seq<Fork>, p: nat)
    requires p < 256 && forall i :: 0 <= i < |forks| ==> forks[i].at < 256
    ensures BitAt(BitmapOf(forks), p) <==> HasForkAt(forks, p)
    decreases |forks|
  {
    hide BitAt, SetBit;
    if forks == [] {
      NoBit(p);
    } else {
      var init, last := forks[..|forks| - 1], forks[|forks| - 1];
      BitmapBits(init, p);
      SetBitAt(BitmapOf(init), last.at, p);
      assert forks == init + [last];
      assert HasForkAt(init, p) ==> HasForkAt(forks, p);
    }
  }

  function Ats(forks: seq<Fork>): (r: seq<nat>)
    ensures |r| == |forks| && forall i :: 0 <= i < |r| ==> r[i] == forks[i].at
  {
    seq(|forks|, i requires 0 <= i < |forks| => forks[i].at)
  }

  lemma {:induction false} ForkHere(forks: seq<Fork>, i: nat, k: nat)
    requires Ascending(forks) && k <= |forks|
    requires forall j :: 0 <= j < k ==> forks[j].at < i
    requires forall j :: k <= j < |forks| ==> forks[j].at >= i
    ensures HasForkAt(forks, i) <==> k < |forks| && forks[k].at == i
  {
    if HasForkAt(forks, i) {
      var j :| 0 <= j < |forks| && forks[j].at == i;
      assert k <= j && forks[k].at <= forks[j].at;
    }
  }

  lemma {:induction false} PositionsStep(bm: Bytes, i: nat)
    requires i < 256
    ensures Positions(bm, i) == (if BitAt(bm, i) then [i] else []) + Positions(bm, i + 1)
  {
  }

  /** The set bits, in ascending order, are the fork positions. */
  lemma {:induction false} PositionsFound(forks: seq<Fork>, i: nat, k: nat)
    requires Ascending(forks) && i <= 256 && k <= |forks|
    requires forall j :: 0 <= j < k ==> forks[j].at < i
    requires forall j :: k <= j < |forks| ==> forks[j].at >= i
    ensures Positions(BitmapOf(forks), i) == Ats(forks)[k..]
    decreases 256 - i
  {
    hide BitAt, BitmapOf, HasForkAt;
    if i < 256 {
      BitmapBits(forks, i);
      ForkHere(forks, i, k);
      PositionsStep(BitmapOf(forks), i);
      hide Positions;
      if k < |forks| && forks[k].at == i {
        PositionsFound(forks, i + 1, k + 1);
        assert Ats(forks)[k..] == [i] + Ats(forks)[k + 1..];
      } else {
        PositionsFound(forks, i + 1, k);
      }
    }
  }

  // ---------------------------------------------------------------- sizes

  function Uint32Bytes(x: nat): (r: Bytes)
    ensures |r| == SIZE_SIZE
  {
    var q1 := x / 256;
    var q2 := q1 / 256;
    var q3 := q2 / 256;
    [ByteOf(q3 % 256), ByteOf(q2 % 256), ByteOf(q1 % 256), ByteOf(x % 256)]
  }

  function Uint32(b: Bytes): (r: nat)
    requires |b| == SIZE_SIZE
  {
    ValueOf(b[0]) * 0x100_0000 + ValueOf(b[1]) * 0x1_0000 + ValueOf(b[2]) * 0x100 + ValueOf(b[3])
  }

  lemma {:induction false} Uint32RoundTrip(x: nat)
    requires x < 0x1_0000_0000
    ensures Uint32(Uint32Bytes(x)) == x
  {
    hide ByteOf, ValueOf;
    var q1 := x / 256;
    var q2 := q1 / 256;
    var q3 := q2 / 256;
    assert q3 < 256;
    ByteValue(q3 % 256);
    ByteValue(q2 % 256);
    ByteValue(q1 % 256);
    ByteValue(x % 256);
  }

  // ---------------------------------------------------------------- encoding

  function RefsOf(forks: seq<Fork>): (r: seq<Bytes>)
    ensures |r| == |forks| && forall i :: 0 <= i < |r| ==> r[i] == forks[i].ref
  {
    seq(|forks|, i requires 0 <= i < |forks| => forks[i].ref)
  }

  function SizesOf(forks: seq<Fork>): (r: seq<Bytes>)
    ensures |r| == |forks| && Sized(r, SIZE_SIZE) && forall i :: 0 <= i < |r| ==> r[i] == Uint32Bytes(forks[i].size)
  {
    seq(|forks|, i requires 0 <= i < |forks| => Uint32Bytes(forks[i].size))
  }

  function Padding(n: nat): (r: nat)
    ensures (n + r) % 32 == 0 && r < 32
  {
    if n % 32 > 0 then 32 - n % 32 else 0
  }

  function Encode(n: Image): Bytes
  {
    var sizes := Flat(SizesOf(n.forks));
    n.key + BitmapOf(n.forks) + Flat(RefsOf(n.forks)) + (sizes + Zeros(Padding(|sizes|))) + n.value
  }

  /** The part of the buffer between two places, as far as it goes. */
  function Slice(buf: Bytes, from: nat, to: nat): (r: Bytes)
  {
    if from >= |buf| || from > to then [] else if to > |buf| then buf[from..] else buf[from..to]
  }

  /** Reading a size beyond the end of the buffer is an error; everything else is cut to what is there. */
  function Decode(buf: Bytes): Option<Image>
  {
    var pos := Positions(Slice(buf, KEY_SIZE, FORKS_AT), 0);
    var sizesAt := FORKS_AT + REF_SIZE * |pos|;
    var sizesEnd := sizesAt + SIZE_SIZE * |pos|;
    if |pos| > 0 && sizesEnd > |buf| then None
    else
      Some(Image(
        Slice(buf, 0, KEY_SIZE),
        seq(|pos|, i requires 0 <= i < |pos| => ForkAt(buf, pos, i)),
        Slice(buf, sizesEnd + Padding(SIZE_SIZE * |pos|), |buf|)))
  }

  function ForkAt(buf: Bytes, pos: seq<nat>, i: nat): Fork
    requires i < |pos| && FORKS_AT + REF_SIZE * |pos| + SIZE_SIZE * i + SIZE_SIZE <= |buf|
  {
    var size := FORKS_AT + REF_SIZE * |pos| + SIZE_SIZE * i;
    Fork(pos[i], Slice(buf, FORKS_AT + i * REF_SIZE, FORKS_AT + (i + 1) * REF_SIZE),
      Uint32(buf[size..size + SIZE_SIZE]))
  }

  lemma {:induction false} Layout(key: Bytes, bitmap: Bytes, refs: Bytes, sizes: Bytes, pad: Bytes, value: Bytes)
    requires |key| == KEY_SIZE && |bitmap| == BITMAP_SIZE
    ensures var e := key + bitmap + refs + (sizes + pad) + value;
      && |e| == FORKS_AT + |refs| + |sizes| + |pad| + |value|
      && Slice(e, 0, KEY_SIZE) == key && Slice(e, KEY_SIZE, FORKS_AT) == bitmap
      && e[FORKS_AT..FORKS_AT + |refs|] == refs && e[FORKS_AT + |refs|..FORKS_AT + |refs| + |sizes|] == sizes
      && Slice(e, FORKS_AT + |refs| + |sizes| + |pad|, |e|) == value
  {
  }

  lemma {:induction false} SliceWithin(e: Bytes, at: nat, part: Bytes, i: nat, j: nat)
    requires at + |part| <= |e| && e[at..at + |part|] == part && i <= j <= |part|
    ensures e[at + i..at + j] == part[i..j]
  {
    forall k | 0 <= k < j - i
      ensures e[at + i..at + j][k] == part[i..j][k]
    {
      assert part[i + k] == e[at..at + |part|][i + k];
    }
  }

  /** The piece of this number in a stretch of pieces. */
  lemma {:induction false} PieceAt(e: Bytes, at: nat, pieces: seq<Bytes>, n: nat, i: nat)
    requires Sized(pieces, n) && i < |pieces| && at + n * |pieces| <= |e| && e[at..at + n * |pieces|] == Flat(pieces)
    ensures n * i + n <= n * |pieces| && e[at + n * i..at + n * i + n] == pieces[i]
  {
    FlatAt(pieces, n, i);
    hide Flat, Sized;
    SliceWithin(e, at, Flat(pieces), n * i, n * i + n);
  }

  lemma {:induction false} RefDecoded(e: Bytes, refs: seq<Bytes>, i: nat)
    requires Sized(refs, REF_SIZE) && i < |refs| && FORKS_AT + REF_SIZE * |refs| <= |e|
    requires e[FORKS_AT..FORKS_AT + REF_SIZE * |refs|] == Flat(refs)
    ensures Slice(e, FORKS_AT + i * REF_SIZE, FORKS_AT + (i + 1) * REF_SIZE) == refs[i]
  {
    hide Flat, Sized;
    PieceAt(e, FORKS_AT, refs, REF_SIZE, i);
  }

  lemma {:induction false} SizeDecoded(e: Bytes, at: nat, forks: seq<Fork>, i: nat)
    requires i < |forks| && forks[i].size < 0x1_0000_0000 && at + SIZE_SIZE * |forks| <= |e|
    requires e[at..at + SIZE_SIZE * |forks|] == Flat(SizesOf(forks))
    ensures Uint32(e[at + SIZE_SIZE * i..at + SIZE_SIZE * i + SIZE_SIZE]) == forks[i].size
  {
    hide Flat, Sized, Uint32, Uint32Bytes;
    PieceAt(e, at, SizesOf(forks), SIZE_SIZE, i);
    Uint32RoundTrip(forks[i].size);
  }

  lemma {:induction false} ForkDecoded(n: Image, e: Bytes, pos: seq<nat>, i: nat)
    requires Encodable(n) && i < |n.forks| == |pos| && pos[i] == n.forks[i].at
    requires FORKS_AT + REF_SIZE * |pos| + SIZE_SIZE * |pos| <= |e|
    requires e[FORKS_AT..FORKS_AT + REF_SIZE * |pos|] == Flat(RefsOf(n.forks))
    requires e[FORKS_AT + REF_SIZE * |pos|..FORKS_AT + REF_SIZE * |pos| + SIZE_SIZE * |pos|] == Flat(SizesOf(n.forks))
    ensures ForkAt(e, pos, i) == n.forks[i]
  {
    hide Flat, Uint32, Uint32Bytes, Slice;
    RefDecoded(e, RefsOf(n.forks), i);
    SizeDecoded(e, FORKS_AT + REF_SIZE * |pos|, n.forks, i);
  }

  /** Decoding what was encoded gives the node back: key, positions, references, sizes and value. */
  lemma {:induction false} RoundTrip(n: Image)
    requires Encodable(n)
    ensures Decode(Encode(n)) == Some(n)
  {
    hide Flat, BitmapOf, Positions, ForkAt, Uint32Bytes, Slice;
    var e, c := Encode(n), |n.forks|;
    FlatSize(RefsOf(n.forks), REF_SIZE);
    FlatSize(SizesOf(n.forks), SIZE_SIZE);
    var sizes := Flat(SizesOf(n.forks));
    Layout(n.key, BitmapOf(n.forks), Flat(RefsOf(n.forks)), sizes, Zeros(Padding(|sizes|)), n.value);
    PositionsFound(n.forks, 0, 0);
    var pos := Positions(BitmapOf(n.forks), 0);
    assert pos == Ats(n.forks);
    forall i | 0 <= i < c
      ensures ForkAt(e, pos, i) == n.forks[i]
    {
      ForkDecoded(n, e, pos, i);
    }
    assert seq(|pos|, i requires 0 <= i < |pos| => ForkAt(e, pos, i)) == n.forks;
  }

  // ---------------------------------------------------------------- where the parts are

  /** Four bytes, most significant first. */
  predicate BigEndian(b: Bytes, x: nat)
  {
    |b| == 4 && x == ValueOf(b[0]) * 0x100_0000 + ValueOf(b[1]) * 0x1_0000 + ValueOf(b[2]) * 0x100 + ValueOf(b[3])
  }

  /** The number, filled up to a multiple of 32. */
  function RoundedUp(n: nat): nat
  {
    (n + 31) / 32 * 32
  }

  /** In byte p / 8 of the bitmap the bit of weight 2^(7 - p % 8) stands for position p. */
  ghost predicate BitmapAt(e: Bytes, forks: seq<Fork>)
  {
    |e| >= 64 && forall p: nat | p < 256 ::
      e[32 + p / 8] & ((1 as bv8) << (7 - p % 8)) != 0 <==> HasForkAt(forks, p)
  }

  ghost predicate ForksAt(e: Bytes, forks: seq<Fork>)
  {
    var c := |forks|;
    64 + 32 * c + 4 * c <= |e| && forall i :: 0 <= i < c ==>
      e[64 + 32 * i..64 + 32 * i + 32] == forks[i].ref &&
      BigEndian(e[64 + 32 * c + 4 * i..64 + 32 * c + 4 * i + 4], forks[i].size)
  }

  /** Byte for byte what is stored where. */
  ghost predicate LaidOut(e: Bytes, n: Image)
  {
    var end := 64 + 32 * |n.forks| + RoundedUp(4 * |n.forks|);
    && end <= |e| && e[..32] == n.key && BitmapAt(e, n.forks) && ForksAt(e, n.forks) && e[end..] == n.value
  }

  lemma PaddedIs(n: nat)
    ensures n + Padding(n) == RoundedUp(n)
  {
  }

  lemma {:induction false} EncodedBitmap(e: Bytes, forks: seq<Fork>)
    requires |e| >= 64 && e[32..64] == BitmapOf(forks) && forall i :: 0 <= i < |forks| ==> forks[i].at < 256
    ensures BitmapAt(e, forks)
  {
    hide BitmapOf, Mask, HasForkAt;
    forall p: nat | p < 256
      ensures e[32 + p / 8] & ((1 as bv8) << (7 - p % 8)) != 0 <==> HasForkAt(forks, p)
    {
      BitmapBits(forks, p);
      ShiftedOne(p % 8);
      assert e[32..64][p / 8] == e[32 + p / 8];
    }
  }

  lemma {:induction false} EncodedForks(e: Bytes, n: Image)
    requires Encodable(n) && 64 + 36 * |n.forks| <= |e|
    requires var c := |n.forks|;
             e[64..64 + 32 * c] == Flat(RefsOf(n.forks)) &&
             e[64 + 32 * c..64 + 32 * c + 4 * c] == Flat(SizesOf(n.forks))
    ensures ForksAt(e, n.forks)
  {
    hide Flat, Uint32Bytes, BigEndian, Encodable;
    var c := |n.forks|;
    forall i | 0 <= i < c
      ensures e[64 + 32 * i..64 + 32 * i + 32] == n.forks[i].ref
      ensures BigEndian(e[64 + 32 * c + 4 * i..64 + 32 * c + 4 * i + 4], n.forks[i].size)
    {
      EncodedFork(e, n, i);
    }
  }

  lemma {:induction false} EncodedFork(e: Bytes, n: Image, i: nat)
    requires Encodable(n) && 64 + 36 * |n.forks| <= |e| && i < |n.forks|
    requires var c := |n.forks|;
             e[64..64 + 32 * c] == Flat(RefsOf(n.forks)) &&
             e[64 + 32 * c..64 + 32 * c + 4 * c] == Flat(SizesOf(n.forks))
    ensures e[64 + 32 * i..64 + 32 * i + 32] == n.forks[i].ref
    ensures var c := |n.forks|; BigEndian(e[64 + 32 * c + 4 * i..64 + 32 * c + 4 * i + 4], n.forks[i].size)
  {
    hide Flat, Uint32Bytes, Uint32, BigEndian;
    var c := |n.forks|;
    PieceAt(e, 64, RefsOf(n.forks), REF_SIZE, i);
    SizeDecoded(e, 64 + 32 * c, n.forks, i);
    ReadsBigEndian(e[64 + 32 * c + 4 * i..64 + 32 * c + 4 * i + 4]);
  }

  lemma ReadsBigEndian(b: Bytes)
    requires |b| == 4
    ensures BigEndian(b, Uint32(b))
  {
  }

  /** Key, bitmap, references, big-endian sizes and value, in this order, the sizes filled up to 32 bytes. */
  lemma {:induction false} EncodedLayout(n: Image)
    requires Encodable(n)
    ensures LaidOut(Encode(n), n)
  {
    hide Flat, BitmapOf, Slice, Padding, RoundedUp, BitmapAt, ForksAt, Zeros;
    var e, c := Encode(n), |n.forks|;
    FlatSize(RefsOf(n.forks), REF_SIZE);
    FlatSize(SizesOf(n.forks), SIZE_SIZE);
    var sizes := Flat(SizesOf(n.forks));
    Layout(n.key, BitmapOf(n.forks), Flat(RefsOf(n.forks)), sizes, Zeros(Padding(|sizes|)), n.value);
    PaddedIs(4 * c);
    SlicesAre(e, 64 + 32 * c + RoundedUp(4 * c));
    EncodedBitmap(e, n.forks);
    EncodedForks(e, n);
  }

  lemma SlicesAre(e: Bytes, end: nat)
    requires 64 <= end <= |e|
    ensures Slice(e, 0, 32) == e[..32] && Slice(e, 32, 64) == e[32..64] && Slice(e, end, |e|) == e[end..]
  {
  }

  /** From a buffer long enough, decoding reads the parts from these places; a shorter one with forks is an error. */
  lemma {:induction false} DecodedLayout(buf: Bytes)
    ensures var c := |Positions(Slice(buf, 32, 64), 0)|;
            && (Decode(buf).None? <==> c > 0 && |buf| < 64 + 32 * c + 4 * c)
            && (|buf| >= 64 + 32 * c + RoundedUp(4 * c) ==>
                  Decode(buf).Some? && |Decode(buf).value.forks| == c && Ascending(Decode(buf).value.forks) &&
                  LaidOut(buf, Decode(buf).value))
  {
    hide Positions, Padding, RoundedUp, BitmapAt, ForksAt, Uint32, Slice, Ascending;
    var pos := Positions(Slice(buf, 32, 64), 0);
    var c := |pos|;
    PaddedIs(4 * c);
    if |buf| >= 64 + 32 * c + RoundedUp(4 * c) {
      var n := Decode(buf).value;
      SlicesAre(buf, 64 + 32 * c + RoundedUp(4 * c));
      DecodedBitmap(buf, n.forks);
      DecodedForks(buf, n.forks);
    }
  }

  lemma {:induction false} DecodedForks(buf: Bytes, forks: seq<Fork>)
    requires var pos := Positions(Slice(buf, 32, 64), 0);
             && |forks| == |pos| && 64 + 36 * |pos| <= |buf|
             && forall i :: 0 <= i < |pos| ==> forks[i] == ForkAt(buf, pos, i)
    ensures ForksAt(buf, forks)
  {
    hide Positions, Uint32, BigEndian;
    var c := |forks|;
    forall i | 0 <= i < c
      ensures BigEndian(buf[64 + 32 * c + 4 * i..64 + 32 * c + 4 * i + 4], forks[i].size)
    {
      ReadsBigEndian(buf[64 + 32 * c + 4 * i..64 + 32 * c + 4 * i + 4]);
    }
  }

  lemma {:induction false} DecodedBitmap(buf: Bytes, forks: seq<Fork>)
    requires |buf| >= 64
    requires var pos := Positions(buf[32..64], 0);
             |forks| == |pos| && forall i :: 0 <= i < |pos| ==> forks[i].at == pos[i]
    ensures Ascending(forks) && BitmapAt(buf, forks)
  {
    hide Positions, Mask, BitSet;
    var pos := Positions(buf[32..64], 0);
    PositionsAre(buf[32..64], 0);
    assert forall i :: 0 <= i < |pos| ==> pos[i] in pos;
    forall p: nat | p < 256
      ensures buf[32 + p / 8] & ((1 as bv8) << (7 - p % 8)) != 0 <==> HasForkAt(forks, p)
    {
      FoundAt(buf, pos, forks, p);
    }
  }

  lemma {:induction false} PositionsAre(bm: Bytes, i: nat)
    requires i <= 256
    ensures forall p :: p in Positions(bm, i) <==> i <= p < 256 && BitAt(bm, p)
    ensures var r := Positions(bm, i); forall j, k :: 0 <= j < k < |r| ==> r[j] < r[k]
    decreases 256 - i
  {
    hide BitAt;
    if i < 256 {
      PositionsStep(bm, i);
      PositionsAre(bm, i + 1);
      var rest := Positions(bm, i + 1);
      assert forall k :: 0 <= k < |rest| ==> rest[k] in rest;
    }
  }

  lemma {:induction false} FoundAt(buf: Bytes, pos: seq<nat>, forks: seq<Fork>, p: nat)
    requires p < 256 && |buf| >= 64 && (p in pos <==> BitAt(buf[32..64], p))
    requires |forks| == |pos| && forall i :: 0 <= i < |pos| ==> forks[i].at == pos[i]
    ensures buf[32 + p / 8] & ((1 as bv8) << (7 - p % 8)) != 0 <==> HasForkAt(forks, p)
  {
    hide Mask;
    ShiftedOne(p % 8);
    assert buf[32..64][p / 8] == buf[32 + p / 8];
    if p in pos {
      var k :| 0 <= k < |pos| && pos[k] == p;
      assert forks[k].at == p;
    }
  }

  // ---------------------------------------------------------------- marshalBinary, unmarshalBinary

  datatype Child = Child(at: nat, ref: Option<Bytes>, size: nat)
  datatype Marshalled = Nothing | Failed | Written(data: Bytes)

  /** The children as forks; one without a reference has none to show. */
  function ForksOf(children: seq<Child>): (r: seq<Fork>)
    ensures |r| == |children|
    ensures forall i :: 0 <= i < |r| ==>
            r[i] == Fork(children[i].at, if children[i].ref.Some? then children[i].ref.value else [], children[i].size)
  {
    seq(|children|, i requires 0 <= i < |children| =>
      Fork(children[i].at, if children[i].ref.Some? then children[i].ref.value else [], children[i].size))
  }

  predicate Referenced(children: seq<Child>)
  {
    forall c | c in children :: c.ref.Some?
  }

  method SetBitMap(bitMap: array<Byte>, n: nat)
    requires bitMap.Length == BITMAP_SIZE
    modifies bitMap
    ensures bitMap[..] == SetBit(old(bitMap[..]), n)
  {
    hide Mask;
    if n / 8 < bitMap.Length {
      ShiftedOne(n % 8);
      bitMap[n / 8] := bitMap[n / 8] | ((1 as Byte) << (7 - n % 8));
    }
  }

  ghost predicate Parts(forks: seq<Fork>, bitMap: Bytes, refs: seq<Bytes>, sizes: seq<Bytes>)
  {
    bitMap == BitmapOf(forks) && refs == RefsOf(forks) && sizes == SizesOf(forks)
  }

  method MarshalForks(children: seq<Child>, bitMap: array<Byte>)
      returns (ok: bool, forkRefs: seq<Bytes>, forkSizes: seq<Bytes>)
    requires bitMap.Length == BITMAP_SIZE && bitMap[..] == Zeros(BITMAP_SIZE)
    modifies bitMap
    ensures ok <==> Referenced(children)
    ensures ok ==> Parts(ForksOf(children), bitMap[..], forkRefs, forkSizes)
  {
    hide Uint32Bytes, SetBit, Parts, Zeros;
    ghost var forks := ForksOf(children);
    forkRefs, forkSizes := [], [];
    NoForks();
    assert forks[..0] == [];
    var i := 0;
    while i < |children|
      invariant i <= |children| && forall j :: 0 <= j < i ==> children[j].ref.Some?
      invariant Parts(forks[..i], bitMap[..], forkRefs, forkSizes)
    {
      var cn := children[i];
      NextFork(forks, i, bitMap[..], forkRefs, forkSizes);
      SetBitMap(bitMap, cn.at);
      if cn.ref.None? {
        assert cn in children;
        return false, forkRefs, forkSizes;
      }
      forkRefs := forkRefs + [cn.ref.value];
      forkSizes := forkSizes + [Uint32Bytes(cn.size)];
      i := i + 1;
    }
    assert forks[..i] == forks;
    ok := true;
  }

  lemma {:induction false} NoForks()
    ensures Parts([], Zeros(BITMAP_SIZE), [], [])
  {
  }

  lemma {:induction false} NextBitmap(forks: seq<Fork>, i: nat)
    requires i < |forks|
    ensures BitmapOf(forks[..i + 1]) == SetBit(BitmapOf(forks[..i]), forks[i].at)
  {
    hide SetBit;
    assert forks[..i + 1][..i] == forks[..i];
  }

  lemma {:induction false} NextFork(forks: seq<Fork>, i: nat, bitMap: Bytes, refs: seq<Bytes>, sizes: seq<Bytes>)
    requires i < |forks| && Parts(forks[..i], bitMap, refs, sizes)
    ensures Parts(forks[..i + 1], SetBit(bitMap, forks[i].at), refs + [forks[i].ref],
            sizes + [Uint32Bytes(forks[i].size)])
  {
    hide SetBit, BitmapOf, Uint32Bytes, Sized;
    NextBitmap(forks, i);
  }

  /** How many bytes the references take. */
  function RefBytes(children: seq<Child>): nat
  {
    |Flat(RefsOf(ForksOf(children)))|
  }

  /**
   * A node without an entry is nothing; a key of another size, a child without a reference, or
   * references that do not fit are an error. Room that the references leave is left as zeros.
   */
  method MarshalBinary(entry: Option<(Bytes, Bytes)>, children: seq<Child>) returns (r: Marshalled)
    ensures r.Nothing? <==> entry.None?
    ensures r.Failed? <==>
      entry.Some? && (|entry.value.0| != KEY_SIZE || !Referenced(children) ||
        RefBytes(children) > REF_SIZE * |children|)
    ensures r.Written? ==>
      r.data == Encode(Image(entry.value.0, ForksOf(children), entry.value.1)) +
        Zeros(REF_SIZE * |children| - RefBytes(children))
  {
    hide BitmapOf, Uint32Bytes, Referenced, Padding;
    if entry.None? {
      return Nothing;
    }
    var (keyBytes, valueBytes) := entry.value;
    if |keyBytes| != 32 {
      return Failed;
    }
    var bitMap := new Byte[BITMAP_SIZE](_ => 0);
    var ok, forkRefs, forkSizes := MarshalForks(children, bitMap);
    if !ok {
      return Failed;
    }
    var forkRefsBytes, forkSizesBytes := Flat(forkRefs), Flat(forkSizes);
    forkSizesBytes := Pad(forkSizesBytes);
    var data := Assemble(keyBytes, bitMap[..], forkRefsBytes, forkSizesBytes, valueBytes, |children|);
    return if data.None? then Failed else Written(data.value);
  }

  /** References of 32 bytes fit exactly. */
  lemma {:induction false} RefsFit(children: seq<Child>)
    requires Referenced(children) && forall c | c in children :: c.ref.Some? && |c.ref.value| == REF_SIZE
    ensures RefBytes(children) == REF_SIZE * |children|
  {
    var refs := RefsOf(ForksOf(children));
    forall i | 0 <= i < |refs|
      ensures |refs[i]| == REF_SIZE
    {
      assert children[i] in children;
    }
    FlatSize(refs, REF_SIZE);
  }

  method Pad(b: Bytes) returns (padded: Bytes)
    ensures padded == b + Zeros(Padding(|b|))
  {
    padded := b;
    var taken := |b| % 32;
    if taken > 0 {
      padded := b + Zeros(32 - taken);
    }
  }

  /** Writes the parts one behind the other into a buffer with room for c references; it fails when they do not fit. */
  method Assemble(keyBytes: Bytes, bitMap: Bytes, refs: Bytes, sizes: Bytes, value: Bytes, c: nat)
      returns (data: Option<Bytes>)
    requires |keyBytes| == KEY_SIZE && |bitMap| == BITMAP_SIZE
    ensures data.None? <==> |refs| > c * REF_SIZE
    ensures data.Some? ==> data.value == keyBytes + bitMap + refs + sizes + value + Zeros(c * REF_SIZE - |refs|)
  {
    var out := new Byte[32 + 32 + c * 32 + |sizes| + |value|](_ => 0);
    if 32 + 32 + |refs| + |sizes| + |value| > out.Length {
      return None;
    }
    var off := 0;
    assert out[..0] == [] && out[0..] == Zeros(out.Length);
    off := Put(out, off, [], keyBytes);
    off := Put(out, off, keyBytes, bitMap);
    off := Put(out, off, keyBytes + bitMap, refs);
    off := Put(out, off, keyBytes + bitMap + refs, sizes);
    off := Put(out, off, keyBytes + bitMap + refs + sizes, value);
    assert out[..] == out[..off] + out[off..];
    data := Some(out[..]);
  }

  method Put(out: array<Byte>, off: nat, ghost done: Bytes, part: Bytes) returns (next: nat)
    requires off + |part| <= out.Length && out[..off] == done && out[off..] == Zeros(out.Length - off)
    modifies out
    ensures next == off + |part| && out[..next] == done + part && out[next..] == Zeros(out.Length - next)
  {
    CopyTo(out, off, part);
    next := off + |part|;
    assert out[next..] == old(out[off..])[|part|..];
  }

  method ReadBitMap(bitMap: Bytes) returns (poMap: seq<nat>)
    ensures poMap == Positions(bitMap, 0)
  {
    hide Positions, Mask;
    poMap := [];
    var i := 0;
    while i < 256
      invariant i <= 256 && poMap + Positions(bitMap, i) == Positions(bitMap, 0)
    {
      PositionsStep(bitMap, i);
      if i / 8 < |bitMap| {
        ShiftedOne(i % 8);
        if bitMap[i / 8] & ((1 as Byte) << (7 - i % 8)) != 0 {
          poMap := poMap + [i];
        }
      }
      i := i + 1;
    }
    NoPositions(bitMap);
  }

  lemma {:induction false} NoPositions(bm: Bytes)
    ensures Positions(bm, 256) == []
  {
  }

  method UnmarshalBinary(buf: Bytes) returns (r: Option<Image>)
    ensures r == Decode(buf)
  {
    hide Positions, Uint32, Slice;
    var keyBytes, bitMap := Slice(buf, 0, 32), Slice(buf, 32, 64);
    var poMap := ReadBitMap(bitMap);
    var c := |poMap|;
    var forks: seq<Fork> := [];
    var i := 0;
    while i < c
      invariant i <= c && |forks| == i && (i > 0 ==> FORKS_AT + REF_SIZE * c + SIZE_SIZE * i <= |buf|)
      invariant forall j :: 0 <= j < i ==> forks[j] == ForkAt(buf, poMap, j)
    {
      var forkRef := Slice(buf, 64 + i * 32, 64 + (i + 1) * 32);
      var at := 64 + c * 32 + i * 4;
      if at + 4 > |buf| {
        return None;
      }
      var cn := Fork(poMap[i], forkRef, Uint32(buf[at..at + 4]));
      forks := forks + [cn];
      i := i + 1;
    }
    assert forks == seq(c, j requires 0 <= j < c => ForkAt(buf, poMap, j));
    var taken := (c * 4) % 32;
    var padding := if taken > 0 then 32 - taken else 0;
    var elementBytes := Slice(buf, 64 + c * 32 + c * 4 + padding, |buf|);
    return Some(Image(keyBytes, forks, elementBytes));
  }
}
