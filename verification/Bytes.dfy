/** Numbers below 256 as bytes. */
module ByteValues {
  lemma {:induction false} ByteRoundTrip(x: int)
    requires 0 <= x < 256
    ensures (x as bv8) as int == x
  {
  }

  function ByteOf(x: int): bv8
    requires 0 <= x < 256
  {
    x as bv8
  }

  function ValueOf(b: bv8): (x: int)
    ensures 0 <= x < 256
  {
    b as int
  }

  lemma {:induction false} ByteValue(x: int)
    requires 0 <= x < 256
    ensures ValueOf(ByteOf(x)) == x
  {
    ByteRoundTrip(x);
  }
}

/** Bytes, and numbers written little- or big-endian into them. */
module Bytes {
  import opened ByteValues

  type Byte = bv8

  type Bytes = seq<Byte>

  function Zeros(n: nat): (r: Bytes)
    ensures |r| == n
  {
    seq(n, _ => 0)
  }

  /** The last 8 * n bits of the number, least significant byte first. */
  function LittleEndian(x: nat, n: nat): (r: Bytes)
    ensures |r| == n
  {
    if n == 0 then [] else [ByteOf(x % 256)] + LittleEndian(x / 256, n - 1)
  }

  /** What has fewer bytes is filled with zeros. */
  lemma {:induction false} LittleEndianFits(x: nat, k: nat, n: nat, bound: nat)
    requires k <= n && bound == Pow256(k) && x < bound
    ensures LittleEndian(x, n) == LittleEndian(x, k) + Zeros(n - k)
    decreases n
  {
    if k == 0 {
      if n > 0 {
        LittleEndianFits(0, 0, n - 1, 1);
        assert Zeros(n) == [0] + Zeros(n - 1);
      }
    } else {
      LittleEndianFits(x / 256, k - 1, n - 1, bound / 256);
    }
  }

  function Pow2(n: nat): (r: nat)
    ensures r > 0
  {
    if n == 0 then 1 else 2 * Pow2(n - 1)
  }

  function Pow256(n: nat): (r: nat)
    ensures r > 0
  {
    if n == 0 then 1 else 256 * Pow256(n - 1)
  }

  function Power(base: nat, n: nat): nat
  {
    if n == 0 then 1 else base * Power(base, n - 1)
  }

  /** The sum of the bytes, the i-th of them times 256^i. */
  function Weighted(b: Bytes): nat
  {
    if b == [] then 0 else Weighted(b[..|b| - 1]) + ValueOf(b[|b| - 1]) * Power(256, |b| - 1)
  }

  lemma {:induction false} WeightedFirst(x: Byte, b: Bytes)
    ensures Weighted([x] + b) == ValueOf(x) + 256 * Weighted(b)
    decreases |b|
  {
    hide ValueOf;
    var s := [x] + b;
    if b == [] {
      assert s[..0] == [];
    } else {
      var n := |b| - 1;
      assert s[..|s| - 1] == [x] + b[..n];
      WeightedFirst(x, b[..n]);
      assert Power(256, n + 1) == 256 * Power(256, n);
      Regroup(ValueOf(b[n]), Power(256, n));
    }
  }

  lemma Regroup(v: nat, p: nat)
    ensures v * (256 * p) == 256 * (v * p)
  {
  }

  /** The number is the sum of its bytes times the powers of 256, as far as they go. */
  lemma {:induction false} LittleEndianValue(x: nat, n: nat)
    requires x < Power(256, n)
    ensures Weighted(LittleEndian(x, n)) == x
    decreases n
  {
    hide ByteOf, ValueOf, Weighted;
    if n == 0 {
      NoWeight();
    } else {
      ByteValue(x % 256);
      WeightedFirst(ByteOf(x % 256), LittleEndian(x / 256, n - 1));
      LittleEndianValue(x / 256, n - 1);
    }
  }

  lemma NoWeight()
    ensures Weighted([]) == 0
  {
  }

  /** The bytes determine the number. */
  lemma {:induction false} LittleEndianInjective(x: nat, y: nat, n: nat)
    requires x < Pow256(n) && y < Pow256(n) && LittleEndian(x, n) == LittleEndian(y, n)
    ensures x == y
  {
    hide ByteOf;
    if n > 0 {
      ByteValue(x % 256);
      ByteValue(y % 256);
      var a, b := LittleEndian(x, n), LittleEndian(y, n);
      assert a[0] == b[0] && a[1..] == LittleEndian(x / 256, n - 1) && b[1..] == LittleEndian(y / 256, n - 1);
      LittleEndianInjective(x / 256, y / 256, n - 1);
    }
  }

  /** The pieces one after the other. */
  function Flat(s: seq<Bytes>): (r: Bytes)
  {
    if s == [] then [] else Flat(s[..|s| - 1]) + s[|s| - 1]
  }

  predicate Sized(s: seq<Bytes>, n: nat)
  {
    forall x | x in s :: |x| == n
  }

  lemma {:induction false} Times(n: nat, i: nat, m: nat)
    requires i < m
    ensures n * i + n <= n * m && n * (i + 1) == n * i + n
  {
  }

  lemma {:induction false} FlatSize(s: seq<Bytes>, n: nat)
    requires Sized(s, n)
    ensures |Flat(s)| == n * |s|
    decreases |s|
  {
    if s != [] {
      Times(n, |s| - 1, |s|);
      FlatSize(s[..|s| - 1], n);
    }
  }

  lemma {:induction false} SliceOfPrefix(a: Bytes, b: Bytes, i: nat, j: nat)
    requires i <= j <= |a|
    ensures (a + b)[i..j] == a[i..j]
  {
  }

  lemma {:induction false} FlatAt(s: seq<Bytes>, n: nat, i: nat)
    requires Sized(s, n) && i < |s|
    ensures |Flat(s)| == n * |s| && n * i + n <= n * |s| && Flat(s)[n * i..n * i + n] == s[i]
    decreases |s|
  {
    var t := s[..|s| - 1];
    FlatSize(s, n);
    FlatSize(t, n);
    Times(n, i, |s|);
    assert Flat(s) == Flat(t) + s[|t|];
    hide Flat;
    if i < |t| {
      Times(n, i, |t|);
      FlatAt(t, n, i);
      SliceOfPrefix(Flat(t), s[|t|], n * i, n * i + n);
    }
  }

  lemma {:induction false} FlatCons(x: Bytes, s: seq<Bytes>)
    ensures Flat([x] + s) == x + Flat(s)
    decreases |s|
  {
    if s == [] {
      assert ([x] + s)[..0] == [];
    } else {
      var n := |s| - 1;
      assert ([x] + s)[..n + 1] == [x] + s[..n];
      FlatCons(x, s[..n]);
    }
  }

  /** The data cut into parts of this size; only the last may be shorter. */
  function Split(data: Bytes, size: nat): (r: seq<Bytes>)
    requires size > 0
    ensures data != [] ==> |r| > 0
    ensures forall i :: 0 <= i < |r| ==> 0 < |r[i]| <= size
    ensures forall i :: 0 <= i < |r| - 1 ==> |r[i]| == size
    decreases |data|
  {
    if data == [] then [] else if |data| <= size then [data] else [data[..size]] + Split(data[size..], size)
  }

  lemma {:induction false} FlatSplit(data: Bytes, size: nat)
    requires size > 0
    ensures Flat(Split(data, size)) == data
    decreases |data|
  {
    if data == [] {
    } else if |data| <= size {
      FlatCons(data, []);
      assert [data] + [] == [data];
    } else {
      FlatCons(data[..size], Split(data[size..], size));
      FlatSplit(data[size..], size);
    }
  }

  lemma {:induction false} SplitEven(data: Bytes, size: nat, n: nat)
    requires size > 0 && |data| == size * n
    ensures |Split(data, size)| == n && Sized(Split(data, size), size)
    decreases n
  {
    if n > 0 {
      Times(size, 0, n);
      if n > 1 {
        Times(size, n - 1, n);
        Times(size, 1, n);
        SplitEven(data[size..], size, n - 1);
      }
    }
  }

  /** Writes the bytes into the buffer from this place on. */
  method CopyTo(dst: array<Byte>, at: nat, src: Bytes)
    requires at + |src| <= dst.Length
    modifies dst
    ensures dst[..] == old(dst[..at]) + src + old(dst[at + |src|..])
    ensures dst[..at + |src|] == old(dst[..at]) + src
  {
    var i := 0;
    while i < |src|
      invariant i <= |src|
      invariant dst[..] == old(dst[..at]) + src[..i] + old(dst[at + i..])
    {
      dst[at + i] := src[i];
      i := i + 1;
    }
  }
}
