/**
 * The bytes of saved trie nodes. A reference is the hash of a node's bytes; it stands for one record,
 * and so for one tree, unless two different strings with one digest have been hashed.
 */
module RecordBytes {
  import opened Bits
  import opened Bmt
  import opened ByteBits
  import opened Bytes
  import opened Proximity
  import opened Store
  import Codec = NodeCodec

  // ---------------------------------------------------------------- keys as bytes

  /** Eight bits as a byte, most significant first. */
  function ByteOfBits(s: seq<bool>): Byte
    requires |s| == 8
  {
    (if s[0] then 0x80 else 0) | (if s[1] then 0x40 else 0) | (if s[2] then 0x20 else 0) | (if s[3] then 0x10 else 0) |
    (if s[4] then 0x08 else 0) | (if s[5] then 0x04 else 0) | (if s[6] then 0x02 else 0) | (if s[7] then 0x01 else 0)
  }

  lemma {:induction false} BitOfByte(s: seq<bool>, k: nat)
    requires |s| == 8 && k < 8
    ensures ByteOfBits(s) & Mask(k) != 0 <==> s[k]
  {
    match k
    case 0 =>
    case 1 =>
    case 2 =>
    case 3 =>
    case 4 =>
    case 5 =>
    case 6 =>
    case _ =>
  }

  function KeyByte(k: Key, i: nat): Byte
    requires i < Codec.KEY_SIZE
  {
    ByteOfBits(k[8 * i..8 * i + 8])
  }

  function KeyBytes(k: Key): (r: Bytes)
    ensures |r| == Codec.KEY_SIZE
  {
    seq(Codec.KEY_SIZE, i requires 0 <= i < Codec.KEY_SIZE => KeyByte(k, i))
  }

  lemma {:induction false} KeyBit(k: Key, i: nat, j: nat)
    requires i < Codec.KEY_SIZE && j < 8
    ensures BitSet(KeyByte(k, i), j) == k[8 * i + j]
  {
    hide ByteOfBits, Mask;
    BitOfByte(k[8 * i..8 * i + 8], j);
  }

  /** The bytes of a key have its bits. */
  lemma {:induction false} KeyBytesHaveBits(k: Key)
    ensures BitsOf(KeyBytes(k)) == k
  {
    hide KeyByte, BitSet;
    forall n | 0 <= n < DEPTH
      ensures BitsOf(KeyBytes(k))[n] == k[n]
    {
      KeyBit(k, n / 8, n % 8);
      assert KeyBytes(k)[n / 8] == KeyByte(k, n / 8);
    }
  }

  // ---------------------------------------------------------------- references as bytes

  /** What is hashed for a reference, and what that gives; `h` is the store's hash function. */
  function RefBytes(h: Keccak, r: Ref): (b: Bytes)
    ensures |b| == Codec.REF_SIZE
    decreases r, 2
  {
    h.Digest(RecordString(h, r))
  }

  function RecordString(h: Keccak, r: Ref): Bytes
    decreases r, 1
  {
    Codec.Encode(ImageOf(h, r))
  }

  /** The node as it is marshalled, with its children's references. */
  function ImageOf(h: Keccak, r: Ref): (n: Codec.Image)
    ensures n.key == KeyBytes(r.record.entry.key) && n.value == r.record.entry.value && |n.forks| == |r.record.forks|
    ensures forall i :: 0 <= i < |n.forks| ==>
              n.forks[i] == Codec.Fork(r.record.forks[i].at, RefBytes(h, r.record.forks[i].ref), r.record.forks[i].size)
    decreases r, 0
  {
    var fs := r.record.forks;
    Codec.Image(KeyBytes(r.record.entry.key),
                seq(|fs|, i requires 0 <= i < |fs| => Codec.Fork(fs[i].at, RefBytes(h, fs[i].ref), fs[i].size)),
                r.record.entry.value)
  }

  /** Positions ascend and fit the bitmap, and sizes fit four bytes, all the way down. */
  ghost predicate Writable(r: Ref)
    decreases r
  {
    var fs := r.record.forks;
    && (forall i :: 0 <= i < |fs| ==> fs[i].at < 256 && fs[i].size < 0x1_0000_0000)
    && (forall i, j :: 0 <= i < j < |fs| ==> fs[i].at < fs[j].at)
    && forall f | f in fs :: WritableFork(f)
  }

  ghost predicate WritableFork(f: RecordFork)
    decreases f
  {
    Writable(f.ref)
  }

  /** All strings that were hashed for a reference. */
  ghost function Hashed(h: Keccak, r: Ref): set<Bytes>
    decreases r
  {
    {RecordString(h, r)} + set f, x | f in r.record.forks && x in HashedFork(h, f) :: x
  }

  ghost function HashedFork(h: Keccak, f: RecordFork): set<Bytes>
    decreases f
  {
    Hashed(h, f.ref)
  }

  lemma {:induction false} ImageEncodable(h: Keccak, r: Ref)
    requires Writable(r)
    ensures Codec.Encodable(ImageOf(h, r))
  {
    hide KeyBytes, RefBytes;
  }

  lemma {:induction false} SameImage(h: Keccak, r: Ref, s: Ref)
    requires Writable(r) && Writable(s) && RecordString(h, r) == RecordString(h, s)
    ensures ImageOf(h, r) == ImageOf(h, s) && r.record.entry == s.record.entry
  {
    hide KeyBytes, RefBytes, Writable, Codec.Encode, Codec.Decode, Codec.Encodable, ImageOf;
    ImageEncodable(h, r);
    ImageEncodable(h, s);
    Codec.RoundTrip(ImageOf(h, r));
    Codec.RoundTrip(ImageOf(h, s));
    KeyBytesHaveBits(r.record.entry.key);
    KeyBytesHaveBits(s.record.entry.key);
  }

  lemma HashedBelow(h: Keccak, r: Ref, i: nat)
    requires i < |r.record.forks|
    ensures Hashed(h, r.record.forks[i].ref) <= Hashed(h, r)
  {
    var f := r.record.forks[i];
    assert f in r.record.forks && HashedFork(h, f) == Hashed(h, f.ref);
  }

  /** Equal reference bytes mean equal references, or two of the strings hashed for them collide. */
  lemma {:induction false} BytesPinRef(h: Keccak, r: Ref, s: Ref) returns (x: Bytes, y: Bytes)
    requires Writable(r) && Writable(s) && RefBytes(h, r) == RefBytes(h, s)
    ensures r == s || (Collision(h, x, y) && x in Hashed(h, r) && y in Hashed(h, s))
    decreases r
  {
    hide Codec.Encode, KeyBytes, Hashed;
    x, y := RecordString(h, r), RecordString(h, s);
    OwnString(h, r);
    OwnString(h, s);
    if x == y {
      SameImage(h, r, s);
      var i := 0;
      var a, b := r.record.forks, s.record.forks;
      while i < |a| && a[i] == b[i]
        invariant i <= |a| == |b| && a[..i] == b[..i]
      {
        i := i + 1;
      }
      if i < |a| {
        SameFork(h, r, s, i);
        x, y := BytesPinRef(h, a[i].ref, b[i].ref);
        HashedBelow(h, r, i);
        HashedBelow(h, s, i);
      } else {
        assert a == a[..i] && b == b[..i];
      }
    }
  }

  lemma OwnString(h: Keccak, r: Ref)
    ensures RecordString(h, r) in Hashed(h, r)
  {
  }

  lemma SameFork(h: Keccak, r: Ref, s: Ref, i: nat)
    requires Writable(r) && Writable(s) && ImageOf(h, r) == ImageOf(h, s) && i < |r.record.forks|
    ensures |s.record.forks| == |r.record.forks|
    ensures var f, g := r.record.forks[i], s.record.forks[i];
            f.at == g.at && f.size == g.size && RefBytes(h, f.ref) == RefBytes(h, g.ref) && Writable(f.ref) &&
              Writable(g.ref)
  {
    hide KeyBytes, RefBytes;
    assert ImageOf(h, r).forks[i] == ImageOf(h, s).forks[i];
    assert WritableFork(r.record.forks[i]) && WritableFork(s.record.forks[i]);
  }
}
