/** The binary Merkle tree address of a chunk: a pairwise hash over 128 zero-padded segments, and the span. */
module Bmt {
  import opened Bytes
  import opened Wrappers

  const SPAN_SIZE := 8
  const SEGMENT_SIZE := 32
  const PAIR_SIZE := 64
  const MAX_PAYLOAD_SIZE := 4096

  /** The hash function is a parameter; of it only the length of its digests is known. */
  datatype Keccak = Keccak(hash: Bytes -> Bytes) {
    function Digest(b: Bytes): (r: Bytes)
      ensures |r| == 32
    {
      if |hash(b)| == 32 then hash(b) else Zeros(32)
    }
  }

  function Pair(h: Keccak, a: Bytes, b: Bytes): (r: Bytes)
    ensures |r| == SEGMENT_SIZE
  {
    h.Digest(a + b)
  }

  /** The tree hash over 2^n segments: the hash of the tree hashes of the two halves. */
  function TreeHash(h: Keccak, s: seq<Bytes>, n: nat): (r: Bytes)
    requires |s| == Pow2(n)
    decreases n
  {
    if n == 0 then s[0]
    else var half := Pow2(n - 1); Pair(h, TreeHash(h, s[..half], n - 1), TreeHash(h, s[half..], n - 1))
  }

  /** The 32-byte pieces that are hashed in pairs. */
  function Segments(d: Bytes): (r: seq<Bytes>)
    requires |d| % SEGMENT_SIZE == 0
    ensures |r| == |d| / SEGMENT_SIZE && Sized(r, SEGMENT_SIZE) && Flat(r) == d
  {
    SplitEven(d, SEGMENT_SIZE, |d| / SEGMENT_SIZE);
    FlatSplit(d, SEGMENT_SIZE);
    Split(d, SEGMENT_SIZE)
  }

  function Padded(payload: Bytes): (r: Bytes)
    requires |payload| <= MAX_PAYLOAD_SIZE
    ensures |r| == MAX_PAYLOAD_SIZE && payload <= r && forall i :: |payload| <= i < |r| ==> r[i] == 0
  {
    payload + Zeros(MAX_PAYLOAD_SIZE - |payload|)
  }

  lemma {:induction false} SegmentCount()
    ensures Pow2(7) == 128
  {
    assert Pow2(3) == 8;
    assert Pow2(7) == 16 * Pow2(3);
  }

  function Root(h: Keccak, payload: Bytes): (r: Bytes)
    requires |payload| <= MAX_PAYLOAD_SIZE
  {
    SegmentCount();
    TreeHash(h, Segments(Padded(payload)), 7)
  }

  function Address(h: Keccak, span: Bytes, payload: Bytes): (r: Bytes)
    requires |payload| <= MAX_PAYLOAD_SIZE
    ensures |r| == 32
  {
    h.Digest(span + Root(h, payload))
  }

  /** Node i of level l of the hash tree over the buffer, counted from the leaves, which are its 32-byte pieces. */
  function HashAt(h: Keccak, d: Bytes, l: nat, i: nat): Bytes
    decreases l
  {
    if l == 0 then if 32 * i + 32 <= |d| then d[32 * i..32 * i + 32] else []
    else h.Digest(HashAt(h, d, l - 1, 2 * i) + HashAt(h, d, l - 1, 2 * i + 1))
  }

  lemma {:induction false} TreeHashIsIndexed(h: Keccak, s: seq<Bytes>, l: nat, i: nat, lo: nat)
    requires Sized(s, SEGMENT_SIZE) && lo == i * Pow2(l) && lo + Pow2(l) <= |s|
    ensures TreeHash(h, s[lo..lo + Pow2(l)], l) == HashAt(h, Flat(s), l, i)
    decreases l
  {
    hide Flat, Pow2, TreeHash, HashAt, Sized;
    HashParts(h, Flat(s), l, i);
    Halves(h, s[lo..lo + Pow2(l)], l);
    if l == 0 {
      FlatAt(s, SEGMENT_SIZE, i);
    } else {
      var half := Pow2(l - 1);
      Doubled(i, Pow2(l), half);
      TreeHashIsIndexed(h, s, l - 1, 2 * i, lo);
      TreeHashIsIndexed(h, s, l - 1, 2 * i + 1, lo + half);
      SliceInTwo(s, lo, half);
    }
  }

  lemma Doubled(i: nat, p: nat, half: nat)
    requires p == 2 * half
    ensures i * p == (2 * i) * half && i * p + half == (2 * i + 1) * half
  {
  }

  lemma SliceInTwo(s: seq<Bytes>, lo: nat, half: nat)
    requires lo + 2 * half <= |s|
    ensures var part := s[lo..lo + 2 * half];
            part[..half] == s[lo..lo + half] && part[half..] == s[lo + half..lo + half + half]
  {
  }

  lemma HashParts(h: Keccak, d: Bytes, l: nat, i: nat)
    ensures l > 0 ==> HashAt(h, d, l, i) == h.Digest(HashAt(h, d, l - 1, 2 * i) + HashAt(h, d, l - 1, 2 * i + 1))
    ensures l == 0 && 32 * i + 32 <= |d| ==> HashAt(h, d, l, i) == d[32 * i..32 * i + 32]
  {
  }

  lemma Halves(h: Keccak, s: seq<Bytes>, l: nat)
    requires |s| == Pow2(l)
    ensures l == 0 ==> Pow2(l) == 1 && TreeHash(h, s, l) == s[0]
    ensures l > 0 ==> var half := Pow2(l - 1);
                      Pow2(l) == 2 * half &&
                      TreeHash(h, s, l) == h.Digest(TreeHash(h, s[..half], l - 1) + TreeHash(h, s[half..], l - 1))
  {
  }

  /** The root is node 0 of level 7 over the padded payload. */
  lemma {:induction false} RootIsIndexed(h: Keccak, payload: Bytes)
    requires |payload| <= MAX_PAYLOAD_SIZE
    ensures |Padded(payload)| == 4096 && Root(h, payload) == HashAt(h, Padded(payload), 7, 0)
  {
    hide Flat, TreeHash, HashAt, Padded;
    var s := Segments(Padded(payload));
    SegmentCount();
    TreeHashIsIndexed(h, s, 7, 0, 0);
    assert s[0..0 + Pow2(7)] == s;
  }

  // ---------------------------------------------------------------- one level at a time

  /** Every pair of segments replaced by its hash. */
  function Level(h: Keccak, s: seq<Bytes>): (r: seq<Bytes>)
    ensures |r| == |s| / 2 && Sized(r, SEGMENT_SIZE)
  {
    if |s| < 2 then [] else Level(h, s[..|s| - 2]) + [Pair(h, s[|s| - 2], s[|s| - 1])]
  }

  lemma {:induction false} LastPair(h: Keccak, s: seq<Bytes>)
    requires |s| >= 2
    ensures Level(h, s) == Level(h, s[..|s| - 2]) + [Pair(h, s[|s| - 2], s[|s| - 1])]
  {
  }

  lemma {:induction false} NoPairs(h: Keccak)
    ensures Level(h, []) == []
  {
  }

  lemma {:induction false} LevelAppend(h: Keccak, a: seq<Bytes>, b: seq<Bytes>, j: nat)
    requires |b| == 2 * j
    ensures Level(h, a + b) == Level(h, a) + Level(h, b)
    decreases j
  {
    hide Pair, Level, Sized;
    if j == 0 {
      NoPairs(h);
      assert a + b == a && b == [];
    } else {
      var c, b' := a + b, b[..|b| - 2];
      LevelAppend(h, a, b', j - 1);
      LastPair(h, c);
      LastPair(h, b);
      assert c[..|c| - 2] == a + b' && c[|c| - 2] == b[|b| - 2] && c[|c| - 1] == b[|b| - 1];
    }
  }

  lemma {:induction false} OnePair(h: Keccak, s: seq<Bytes>)
    requires |s| == 2
    ensures Pow2(1) == 2 && TreeHash(h, Level(h, s), 0) == TreeHash(h, s, 1)
  {
    assert Pow2(0) == 1 && Pow2(1) == 2;
    assert Level(h, s[..0]) == [];
    assert s[..1][0] == s[0] && s[1..][0] == s[1];
  }

  lemma {:induction false} TreeHashHalves(h: Keccak, a: seq<Bytes>, b: seq<Bytes>, n: nat)
    requires |a| == |b| == Pow2(n)
    ensures |a + b| == Pow2(n + 1) && TreeHash(h, a + b, n + 1) == Pair(h, TreeHash(h, a, n), TreeHash(h, b, n))
  {
    assert (a + b)[..Pow2(n)] == a && (a + b)[Pow2(n)..] == b;
  }

  /** Hashing level by level from the leaves is hashing by halves from the root. */
  lemma {:induction false} LevelKeepsTreeHash(h: Keccak, s: seq<Bytes>, n: nat)
    requires n > 0 && |s| == Pow2(n)
    ensures |Level(h, s)| == Pow2(n - 1) && TreeHash(h, Level(h, s), n - 1) == TreeHash(h, s, n)
    decreases n
  {
    hide TreeHash, Level, Pair;
    if n == 1 {
      OnePair(h, s);
    } else {
      var q := Pow2(n - 2);
      assert Pow2(n - 1) == 2 * q && Pow2(n) == 4 * q;
      var a, b := s[..2 * q], s[2 * q..];
      assert s == a + b;
      LevelAppend(h, a, b, q);
      LevelKeepsTreeHash(h, a, n - 1);
      LevelKeepsTreeHash(h, b, n - 1);
      TreeHashHalves(h, a, b, n - 1);
      TreeHashHalves(h, Level(h, a), Level(h, b), n - 2);
    }
  }

  // ---------------------------------------------------------------- makeSpan, bmtHash, makeChunk

  method MakeSpan(length: int) returns (r: Option<Bytes>)
    ensures r.Some? <==> 0 < length <= 0xffffffff
    ensures r.Some? ==> r.value == LittleEndian(length, SPAN_SIZE) && |r.value| == 8 && Weighted(r.value) == length
  {
    hide Weighted;
    if length <= 0 || length > 0xffffffff {
      return None;
    }
    assert Power(256, 8) == 0x1_0000_0000 * Power(256, 4) && Power(256, 4) == 0x1_0000_0000;
    LittleEndianValue(length, SPAN_SIZE);
    assert Pow256(4) == 0x1_0000_0000;
    LittleEndianFits(length, 4, SPAN_SIZE, 0x1_0000_0000);
    var view := LittleEndian(length, 4);
    return Some(view + Zeros(4));
  }

  /** One round of the buffer loop: the output holds the hashes of the input's pairs of segments. */
  method Halve(h: Keccak, input: array<Byte>, ghost s: seq<Bytes>) returns (output: array<Byte>)
    requires Sized(s, SEGMENT_SIZE) && |s| % 2 == 0 && input[..] == Flat(s) && input.Length == SEGMENT_SIZE * |s|
    ensures fresh(output) && output.Length == input.Length / 2 && output[..] == Flat(Level(h, s))
  {
    hide Flat, Level;
    FlatNothing(h, s);
    output := new Byte[input.Length / 2](_ => 0);
    ghost var j := 0;
    var off := 0;
    while off < input.Length
      invariant 0 <= j <= |s| / 2 && off == PAIR_SIZE * j
      invariant output[..SEGMENT_SIZE * j] == Flat(Level(h, s[..2 * j]))
    {
      PairAt(s, 2 * j);
      var digest := h.Digest(input[off..off + PAIR_SIZE]);
      assert off / 2 == SEGMENT_SIZE * j;
      CopyTo(output, off / 2, digest);
      NextPair(h, s, 2 * j);
      off, j := off + PAIR_SIZE, j + 1;
    }
    assert s[..2 * j] == s && output[..SEGMENT_SIZE * j] == output[..];
  }

  lemma {:induction false} FlatNothing(h: Keccak, s: seq<Bytes>)
    ensures Flat(Level(h, s[..0])) == []
  {
  }

  lemma {:induction false} PairAt(s: seq<Bytes>, k: nat)
    requires Sized(s, SEGMENT_SIZE) && k + 1 < |s|
    ensures |Flat(s)| == SEGMENT_SIZE * |s|
    ensures Flat(s)[SEGMENT_SIZE * k..SEGMENT_SIZE * k + PAIR_SIZE] == s[k] + s[k + 1]
  {
    FlatAt(s, SEGMENT_SIZE, k);
    FlatAt(s, SEGMENT_SIZE, k + 1);
    var d := Flat(s);
    hide Flat;
    var i := SEGMENT_SIZE * k;
    assert d[i..i + PAIR_SIZE] == d[i..i + SEGMENT_SIZE] + d[i + SEGMENT_SIZE..i + PAIR_SIZE];
  }

  lemma {:induction false} NextPair(h: Keccak, s: seq<Bytes>, k: nat)
    requires k + 1 < |s|
    ensures Flat(Level(h, s[..k + 2])) == Flat(Level(h, s[..k])) + h.Digest(s[k] + s[k + 1])
  {
    assert s[..k + 2][..k] == s[..k];
    var l := Level(h, s[..k + 2]);
    assert l[..|l| - 1] == Level(h, s[..k]);
  }

  /** The halving loop over the padded buffer computes the tree hash. */
  method BmtRoot(h: Keccak, payload: Bytes) returns (r: Bytes)
    requires |payload| <= MAX_PAYLOAD_SIZE
    ensures r == Root(h, payload)
  {
    hide Flat, Level, TreeHash;
    var input := new Byte[MAX_PAYLOAD_SIZE](_ => 0);
    assert input[..] == Zeros(MAX_PAYLOAD_SIZE);
    CopyTo(input, 0, payload);
    assert input[..] == Padded(payload);
    ghost var s := Segments(Padded(payload));
    ghost var n := 7;
    SegmentCount();
    while input.Length != SEGMENT_SIZE
      invariant Sized(s, SEGMENT_SIZE) && |s| == Pow2(n) && input.Length == SEGMENT_SIZE * |s| && input[..] == Flat(s)
      invariant TreeHash(h, s, n) == Root(h, payload)
      decreases n
    {
      assert n > 0;
      LevelKeepsTreeHash(h, s, n);
      input := Halve(h, input, s);
      s, n := Level(h, s), n - 1;
    }
    OneSegment(h, s, n);
    r := input[..];
  }

  lemma {:induction false} OneSegment(h: Keccak, s: seq<Bytes>, n: nat)
    requires |s| == Pow2(n) == 1
    ensures TreeHash(h, s, n) == Flat(s)
  {
    assert n == 0;
    assert Flat(s[..0]) == [];
  }

  method BmtHash(h: Keccak, chunkContent: Bytes) returns (r: Option<Bytes>)
    ensures r.Some? <==> 8 <= |chunkContent| <= 8 + 4096
    ensures r.Some? ==> r.value == Address(h, chunkContent[..8], chunkContent[8..])
    ensures r.Some? ==> r.value == h.Digest(chunkContent[..8] + HashAt(h, Padded(chunkContent[8..]), 7, 0))
  {
    if |chunkContent| < SPAN_SIZE {
      return None;
    }
    var span, payload := chunkContent[..SPAN_SIZE], chunkContent[SPAN_SIZE..];
    if |payload| > MAX_PAYLOAD_SIZE {
      return None;
    }
    var root := BmtRoot(h, payload);
    RootIsIndexed(h, payload);
    return Some(h.Digest(span + root));
  }

  datatype Chunk = Chunk(data: Bytes, address: Bytes)

  method MakeChunk(h: Keccak, payload: Bytes) returns (r: Option<Chunk>)
    ensures r.Some? <==> 1 <= |payload| <= 4096
    ensures r.Some? ==> r.value.data == LittleEndian(|payload|, SPAN_SIZE) + payload
    ensures r.Some? ==> |r.value.data| == 8 + |payload| && Weighted(r.value.data[..8]) == |payload|
    ensures r.Some? ==> r.value.address == Address(h, LittleEndian(|payload|, SPAN_SIZE), payload)
  {
    if |payload| == 0 || |payload| > MAX_PAYLOAD_SIZE {
      return None;
    }
    var span := MakeSpan(|payload|);
    var data := span.value + payload;
    assert data[..SPAN_SIZE] == span.value && data[SPAN_SIZE..] == payload;
    var address := BmtHash(h, data);
    return Some(Chunk(data, address.value));
  }

  // ---------------------------------------------------------------- the uploader's own computation

  datatype SpannedChunk = SpannedChunk(data: Bytes, address: Bytes, span: nat)

  method Partition(data: Bytes, size: nat) returns (r: seq<Bytes>)
    requires size > 0
    ensures r == Split(data, size)
  {
    hide Sized, Flat;
    r := [];
    assert data[0..] == data;
    var i := 0;
    while i < |data|
      invariant r + Split(data[if i < |data| then i else |data|..], size) == Split(data, size)
      decreases |data| - i
    {
      var end := if i + size < |data| then i + size else |data|;
      NextPart(data, size, i, end);
      assert r + Split(data[i..], size) == (r + [data[i..end]]) + Split(data[end..], size);
      r := r + [data[i..end]];
      i := i + size;
    }
    assert data[|data|..] == [] && r + [] == r;
  }

  lemma {:induction false} NextPart(data: Bytes, size: nat, i: nat, end: nat)
    requires size > 0 && i < |data| && end == if i + size < |data| then i + size else |data|
    ensures Split(data[i..], size) == [data[i..end]] + Split(data[end..], size)
  {
    var rest := data[i..];
    if |rest| <= size {
      assert data[i..end] == rest && data[end..] == [];
    } else {
      assert rest[..size] == data[i..end] && rest[size..] == data[end..];
    }
  }

  method NextLevel(h: Keccak, level: seq<Bytes>) returns (next: seq<Bytes>)
    requires |level| % 2 == 0
    ensures next == Level(h, level)
  {
    hide Level;
    NoPairs(h);
    assert level[..0] == [];
    next := [];
    ghost var j := 0;
    var i := 0;
    while i < |level|
      invariant 0 <= j <= |level| / 2 && i == 2 * j
      invariant next == Level(h, level[..i])
    {
      LastPair(h, level[..i + 2]);
      assert level[..i + 2][..i] == level[..i];
      next := next + [h.Digest(level[i] + level[i + 1])];
      i, j := i + 2, j + 1;
    }
    assert level[..i] == level;
  }

  /** A payload beyond 4096 bytes is cut for the address, though not for the data. */
  method MakeContentAddressedChunkWithSpan(h: Keccak, payload: Bytes, span: Option<nat>) returns (r: SpannedChunk)
    ensures r.span == if span.Some? then span.value else |payload|
    ensures r.data == LittleEndian(r.span, SPAN_SIZE) + payload && |r.data| == 8 + |payload|
    ensures r.span < Power(256, 8) ==> Weighted(r.data[..8]) == r.span
    ensures var head := if |payload| <= MAX_PAYLOAD_SIZE then payload else payload[..MAX_PAYLOAD_SIZE];
      r.address == Address(h, LittleEndian(r.span, SPAN_SIZE), head)
  {
    hide Level, TreeHash, Flat, Weighted, Power;
    var actualSpan := if span.Some? then span.value else |payload|;
    if actualSpan < Power(256, 8) {
      LittleEndianValue(actualSpan, SPAN_SIZE);
    }
    var spanBytes := LittleEndian(actualSpan, SPAN_SIZE);
    var head := if |payload| <= MAX_PAYLOAD_SIZE then payload else payload[..MAX_PAYLOAD_SIZE];
    var currentLevel := Partition(Padded(head), SEGMENT_SIZE);
    assert currentLevel == Segments(Padded(head));
    ghost var n := 7;
    SegmentCount();
    while |currentLevel| > 1
      invariant |currentLevel| == Pow2(n) && TreeHash(h, currentLevel, n) == Root(h, head)
      decreases n
    {
      assert n > 0;
      LevelKeepsTreeHash(h, currentLevel, n);
      currentLevel := NextLevel(h, currentLevel);
      n := n - 1;
    }
    Single(h, currentLevel, n);
    r := SpannedChunk(spanBytes + payload, h.Digest(spanBytes + currentLevel[0]), actualSpan);
    assert r.data[..8] == spanBytes;
  }

  lemma {:induction false} Single(h: Keccak, s: seq<Bytes>, n: nat)
    requires |s| == Pow2(n) == 1
    ensures TreeHash(h, s, n) == s[0]
  {
    assert n == 0;
  }

  /** The two computations give every payload the same data and the same address. */
  method BothAgree(h: Keccak, payload: Bytes) returns (client: Option<Chunk>, uploader: SpannedChunk)
    ensures client.Some? <==> 1 <= |payload| <= MAX_PAYLOAD_SIZE
    ensures client.Some? ==> client.value.data == uploader.data && client.value.address == uploader.address
  {
    client := MakeChunk(h, payload);
    uploader := MakeContentAddressedChunkWithSpan(h, payload, None);
  }

  // ---------------------------------------------------------------- what an address pins

  predicate Collision(h: Keccak, x: Bytes, y: Bytes)
  {
    x != y && h.Digest(x) == h.Digest(y)
  }

  /** The strings that are hashed for the tree hash of `s`. */
  ghost function TreeInputs(h: Keccak, s: seq<Bytes>, n: nat): set<Bytes>
    requires |s| == Pow2(n)
    decreases n
  {
    if n == 0 then {}
    else
      var half := Pow2(n - 1);
      var a, b := s[..half], s[half..];
      {TreeHash(h, a, n - 1) + TreeHash(h, b, n - 1)} + TreeInputs(h, a, n - 1) + TreeInputs(h, b, n - 1)
  }

  /** The strings that are hashed for the address of a chunk. */
  ghost function Inputs(h: Keccak, span: Bytes, payload: Bytes): set<Bytes>
    requires |payload| <= MAX_PAYLOAD_SIZE
  {
    SegmentCount();
    {span + Root(h, payload)} + TreeInputs(h, Segments(Padded(payload)), 7)
  }

  lemma {:induction false} TreeHashSize(h: Keccak, s: seq<Bytes>, n: nat)
    requires Sized(s, SEGMENT_SIZE) && |s| == Pow2(n)
    ensures |TreeHash(h, s, n)| == SEGMENT_SIZE
  {
  }

  lemma {:induction false} PairIs(h: Keccak, a: Bytes, b: Bytes)
    ensures Pair(h, a, b) == h.Digest(a + b)
  {
  }

  lemma {:induction false} NotLeaves(h: Keccak, s: seq<Bytes>, t: seq<Bytes>, n: nat)
    requires |s| == |t| == Pow2(n) && s != t && TreeHash(h, s, n) == TreeHash(h, t, n)
    ensures n > 0
  {
  }

  lemma {:induction false} SidesAgree(a: Bytes, b: Bytes, c: Bytes, d: Bytes)
    requires a + b == c + d && |a| == |c|
    ensures a == c && b == d
  {
    assert a == (a + b)[..|a|] && c == (c + d)[..|a|];
    assert b == (a + b)[|a|..] && d == (c + d)[|a|..];
  }

  lemma {:induction false} InputsOfHalves(h: Keccak, s: seq<Bytes>, n: nat)
    requires n > 0 && |s| == Pow2(n)
    ensures var half := Pow2(n - 1);
            var a, b := s[..half], s[half..];
            |a| == |b| == half && TreeHash(h, a, n - 1) + TreeHash(h, b, n - 1) in TreeInputs(h, s, n) &&
            TreeInputs(h, a, n - 1) <= TreeInputs(h, s, n) && TreeInputs(h, b, n - 1) <= TreeInputs(h, s, n)
  {
  }

  /** Different segments with one tree hash give away a collision between strings hashed for them. */
  lemma {:induction false} TreeHashPins(h: Keccak, s: seq<Bytes>, t: seq<Bytes>, n: nat) returns (x: Bytes, y: Bytes)
    requires Sized(s, SEGMENT_SIZE) && Sized(t, SEGMENT_SIZE) && |s| == |t| == Pow2(n) && s != t
    requires TreeHash(h, s, n) == TreeHash(h, t, n)
    ensures Collision(h, x, y) && x in TreeInputs(h, s, n) && y in TreeInputs(h, t, n)
    decreases n
  {
    hide TreeHash, TreeInputs, Pair;
    NotLeaves(h, s, t, n);
    var half := Pow2(n - 1);
    var a, b, c, d := s[..half], s[half..], t[..half], t[half..];
    assert s == a + b && t == c + d;
    InputsOfHalves(h, s, n);
    InputsOfHalves(h, t, n);
    TreeHashSize(h, a, n - 1);
    TreeHashSize(h, c, n - 1);
    TreeHashHalves(h, a, b, n - 1);
    TreeHashHalves(h, c, d, n - 1);
    PairIs(h, TreeHash(h, a, n - 1), TreeHash(h, b, n - 1));
    PairIs(h, TreeHash(h, c, n - 1), TreeHash(h, d, n - 1));
    x := TreeHash(h, a, n - 1) + TreeHash(h, b, n - 1);
    y := TreeHash(h, c, n - 1) + TreeHash(h, d, n - 1);
    if x == y {
      SidesAgree(TreeHash(h, a, n - 1), TreeHash(h, b, n - 1), TreeHash(h, c, n - 1), TreeHash(h, d, n - 1));
      if a != c {
        x, y := TreeHashPins(h, a, c, n - 1);
      } else {
        x, y := TreeHashPins(h, b, d, n - 1);
      }
    }
  }

  /**
   * Two chunks with one address have the same span and, filled up with zeros, the same payload, or
   * give away a collision between strings hashed for them.
   */
  lemma {:induction false} AddressPinsChunk(h: Keccak, u: Bytes, p: Bytes, v: Bytes, q: Bytes)
      returns (x: Bytes, y: Bytes)
    requires |p| <= MAX_PAYLOAD_SIZE && |q| <= MAX_PAYLOAD_SIZE && |u| == |v| == SPAN_SIZE
    requires Address(h, u, p) == Address(h, v, q)
    ensures (u == v && Padded(p) == Padded(q)) ||
            (Collision(h, x, y) && x in Inputs(h, u, p) && y in Inputs(h, v, q))
  {
    hide TreeHash, TreeInputs, Segments;
    x, y := u + Root(h, p), v + Root(h, q);
    if x == y {
      assert u == x[..SPAN_SIZE] == v && Root(h, p) == x[SPAN_SIZE..] == Root(h, q);
      SegmentCount();
      if Segments(Padded(p)) == Segments(Padded(q)) {
        assert Padded(p) == Flat(Segments(Padded(p))) == Padded(q);
      } else {
        x, y := TreeHashPins(h, Segments(Padded(p)), Segments(Padded(q)), 7);
      }
    }
  }

  /** Two payloads with one address are the same payload, or give away a collision. */
  lemma {:induction false} AddressPinsPayload(h: Keccak, p: Bytes, q: Bytes) returns (x: Bytes, y: Bytes)
    requires |p| <= MAX_PAYLOAD_SIZE && |q| <= MAX_PAYLOAD_SIZE
    requires Address(h, LittleEndian(|p|, SPAN_SIZE), p) == Address(h, LittleEndian(|q|, SPAN_SIZE), q)
    ensures p == q || (Collision(h, x, y) && x in Inputs(h, LittleEndian(|p|, SPAN_SIZE), p) &&
                       y in Inputs(h, LittleEndian(|q|, SPAN_SIZE), q))
  {
    hide Address, LittleEndian, Inputs;
    x, y := AddressPinsChunk(h, LittleEndian(|p|, SPAN_SIZE), p, LittleEndian(|q|, SPAN_SIZE), q);
    assert Pow256(8) >= Pow256(2) == 65536;
    if LittleEndian(|p|, SPAN_SIZE) == LittleEndian(|q|, SPAN_SIZE) && Padded(p) == Padded(q) {
      LittleEndianInjective(|p|, |q|, SPAN_SIZE);
      assert p == Padded(p)[..|p|] && q == Padded(q)[..|q|];
    }
  }
}
