/** The tree of chunks over a file: 4096-byte pages, 128 references to a node, cumulative spans. */
module ChunkTree {
  import opened Bmt
  import opened Bytes
  import opened Wrappers

  const PAGE_SIZE := 4096
  const REFS_PER_CHUNK := 128
  const REF_SIZE := 32

  datatype Tree = Leaf(page: Bytes) | Node(kids: seq<Tree>)

  ghost predicate Sound(t: Tree)
    decreases t
  {
    match t
    case Leaf(page) => 1 <= |page| <= PAGE_SIZE
    case Node(kids) => 1 <= |kids| <= REFS_PER_CHUNK && forall i :: 0 <= i < |kids| ==> Sound(kids[i])
  }

  ghost predicate AllSound(ts: seq<Tree>)
  {
    forall i :: 0 <= i < |ts| ==> Sound(ts[i])
  }

  ghost function Span(t: Tree): (r: nat)
    decreases t, 0
  {
    match t
    case Leaf(page) => |page|
    case Node(kids) => Spans(kids)
  }

  ghost function Spans(ts: seq<Tree>): (r: nat)
    decreases ts, 0
  {
    if ts == [] then 0 else Span(ts[0]) + Spans(ts[1..])
  }

  ghost function Payload(h: Keccak, t: Tree): (r: Bytes)
    requires Sound(t)
    ensures |r| <= MAX_PAYLOAD_SIZE
    decreases t, 0
  {
    match t
    case Leaf(page) => page
    case Node(kids) => FlatSize(Refs(h, kids), REF_SIZE); Flat(Refs(h, kids))
  }

  ghost function Refs(h: Keccak, ts: seq<Tree>): (r: seq<Bytes>)
    requires AllSound(ts)
    ensures Sized(r, REF_SIZE) && |r| == |ts|
    decreases ts, 0
  {
    seq(|ts|, i requires 0 <= i < |ts| => Ref(h, ts[i]))
  }

  ghost function Ref(h: Keccak, t: Tree): (r: Bytes)
    requires Sound(t)
    ensures |r| == REF_SIZE
    decreases t, 1
  {
    Address(h, LittleEndian(Span(t), SPAN_SIZE), Payload(h, t))
  }

  ghost function ChunkOf(h: Keccak, t: Tree): SpannedChunk
    requires Sound(t)
  {
    SpannedChunk(LittleEndian(Span(t), SPAN_SIZE) + Payload(h, t), Ref(h, t), Span(t))
  }

  // ---------------------------------------------------------------- the levels

  /** What a node of level k can hold. */
  function Capacity(k: nat): (r: nat)
    ensures r >= PAGE_SIZE
  {
    if k == 0 then PAGE_SIZE else REFS_PER_CHUNK * Capacity(k - 1)
  }

  ghost function TreeOf(data: Bytes, k: nat): (t: Tree)
    requires 0 < |data| <= Capacity(k)
    decreases k, 0
  {
    if k == 0 then Leaf(data) else Node(LevelOf(data, k - 1))
  }

  /** The nodes of level k over the data. */
  ghost function LevelOf(data: Bytes, k: nat): (r: seq<Tree>)
    ensures |r| == |Split(data, Capacity(k))|
    ensures forall i :: 0 <= i < |r| ==> r[i] == TreeOf(Split(data, Capacity(k))[i], k)
    decreases k, 1
  {
    var parts := Split(data, Capacity(k));
    seq(|parts|, i requires 0 <= i < |parts| => TreeOf(parts[i], k))
  }

  /** Every 128 references make a node; what is left over makes the last one. */
  ghost function Groups(ts: seq<Tree>): (r: seq<Tree>)
    decreases |ts|
  {
    if ts == [] then [] else if |ts| <= REFS_PER_CHUNK then [Node(ts)]
    else [Node(ts[..REFS_PER_CHUNK])] + Groups(ts[REFS_PER_CHUNK..])
  }

  lemma {:induction false} OneMore(n: nat, size: nat)
    requires n > 0
    ensures n * size == (n - 1) * size + size
  {
  }

  lemma {:induction false} SplitFirst(a: Bytes, b: Bytes, size: nat)
    requires 0 < size <= |a|
    ensures Split(a + b, size) == [a[..size]] + Split(a[size..] + b, size)
  {
    if |a + b| == size {
      assert a + b == a[..size] && a[size..] + b == [];
    } else {
      assert (a + b)[..size] == a[..size] && (a + b)[size..] == a[size..] + b;
    }
  }

  lemma {:induction false} SplitAppend(a: Bytes, b: Bytes, size: nat, n: nat)
    requires size > 0 && |a| == n * size
    ensures Split(a + b, size) == Split(a, size) + Split(b, size) && |Split(a, size)| == n
    decreases n
  {
    if n == 0 {
      assert a == [] && a + b == b;
    } else {
      OneMore(n, size);
      SplitFirst(a, b, size);
      SplitFirst(a, [], size);
      assert a + [] == a && a[size..] + [] == a[size..];
      hide Split;
      SplitAppend(a[size..], b, size, n - 1);
    }
  }

  /** Grouping the nodes of one level gives the nodes of the next. */
  lemma {:induction false} GroupsOfLevel(data: Bytes, k: nat)
    ensures Groups(LevelOf(data, k)) == LevelOf(data, k + 1)
    decreases |data|
  {
    var s := Capacity(k);
    if data == [] {
    } else if |data| <= REFS_PER_CHUNK * s {
      FewParts(data, s, REFS_PER_CHUNK);
    } else {
      var a, b := data[..REFS_PER_CHUNK * s], data[REFS_PER_CHUNK * s..];
      assert data == a + b;
      SplitAppend(a, b, s, REFS_PER_CHUNK);
      GroupsOfLevel(b, k);
      assert LevelOf(data, k) == LevelOf(a, k) + LevelOf(b, k);
      assert LevelOf(data, k + 1) == [TreeOf(a, k + 1)] + LevelOf(b, k + 1);
    }
  }

  lemma {:induction false} FewParts(data: Bytes, size: nat, n: nat)
    requires size > 0 && |data| <= n * size
    ensures |Split(data, size)| <= n
    decreases n
  {
    if |data| > size {
      FewParts(data[size..], size, n - 1);
    }
  }

  lemma {:induction false} LevelStep(data: Bytes, k: nat)
    requires |data| > Capacity(k)
    ensures var s := Capacity(k); LevelOf(data, k) == [TreeOf(data[..s], k)] + LevelOf(data[s..], k)
  {
  }

  lemma {:induction false} LastLevel(data: Bytes, k: nat)
    requires 0 < |data| <= Capacity(k)
    ensures LevelOf(data, k) == [TreeOf(data, k)]
  {
  }

  /** The span of the tree is the length of the data. */
  lemma {:induction false} SpanIsLength(data: Bytes, k: nat)
    requires 0 < |data| <= Capacity(k)
    ensures Span(TreeOf(data, k)) == |data|
    decreases k, 0, 0
  {
    if k > 0 {
      SpansAreLength(data, k - 1);
    }
  }

  lemma {:induction false} SpansAreLength(data: Bytes, k: nat)
    ensures Spans(LevelOf(data, k)) == |data|
    decreases k, 1, |data|
  {
    var s := Capacity(k);
    if data == [] {
    } else if |data| <= s {
      LastLevel(data, k);
      SpanIsLength(data, k);
    } else {
      LevelStep(data, k);
      SpanIsLength(data[..s], k);
      SpansAreLength(data[s..], k);
      hide TreeOf, LevelOf, Split;
      var ts := LevelOf(data, k);
      assert ts[1..] == LevelOf(data[s..], k);
    }
  }

  lemma {:induction false} CapacityIs(k: nat)
    ensures Capacity(k) == 4096 * Power(128, k)
  {
    if k > 0 {
      CapacityIs(k - 1);
    }
  }

  /** Every node but the last of its level is full: it stands for 4096 times 128^k bytes, in 128 children. */
  lemma {:induction false} FullButLast(data: Bytes, k: nat, i: nat)
    requires i < |LevelOf(data, k)| - 1
    ensures Span(LevelOf(data, k)[i]) == 4096 * Power(128, k)
    ensures k > 0 ==> LevelOf(data, k)[i].Node? && |LevelOf(data, k)[i].kids| == 128
  {
    CapacityIs(k);
    var part := Split(data, Capacity(k))[i];
    SpanIsLength(part, k);
    if k > 0 {
      SplitAppend(part, [], Capacity(k - 1), REFS_PER_CHUNK);
      assert part + [] == part;
    }
  }

  /** The last node of a level has as many children as it takes. */
  lemma {:induction false} LastHasTheRest(data: Bytes, k: nat)
    requires k > 0 && data != []
    ensures |LevelOf(data, k)| > 0
    ensures var n := |LevelOf(data, k)| - 1;
            && LevelOf(data, k)[n].Node?
            && |LevelOf(data, k - 1)| == 128 * n + |LevelOf(data, k)[n].kids|
            && 1 <= |LevelOf(data, k)[n].kids| <= 128
    decreases |data|
  {
    var s := Capacity(k);
    if |data| <= s {
      LastLevel(data, k);
      FewParts(data, Capacity(k - 1), REFS_PER_CHUNK);
    } else {
      LevelStep(data, k);
      LastHasTheRest(data[s..], k);
      assert data == data[..s] + data[s..];
      SplitAppend(data[..s], data[s..], Capacity(k - 1), REFS_PER_CHUNK);
    }
  }

  /** No node has more than 128 references, so no payload more than 4096 bytes. */
  lemma {:induction false} TreeIsSound(data: Bytes, k: nat)
    requires 0 < |data| <= Capacity(k)
    ensures Sound(TreeOf(data, k))
    decreases k, 0
  {
    if k > 0 {
      FewParts(data, Capacity(k - 1), REFS_PER_CHUNK);
      LevelIsSound(data, k - 1);
    }
  }

  lemma {:induction false} LevelIsSound(data: Bytes, k: nat)
    ensures AllSound(LevelOf(data, k))
    decreases k, 1
  {
    var parts := Split(data, Capacity(k));
    forall i | 0 <= i < |parts|
      ensures Sound(LevelOf(data, k)[i])
    {
      TreeIsSound(parts[i], k);
    }
  }

  // ---------------------------------------------------------------- reading a byte range

  function Min(a: nat, b: nat): nat
  {
    if a < b then a else b
  }

  /** The payload of a stored chunk, filled up with zeros as it is for its address. */
  function PayloadOf(data: Bytes): (r: Option<Bytes>)
    ensures r.Some? ==> |r.value| == MAX_PAYLOAD_SIZE
  {
    if SPAN_SIZE <= |data| <= SPAN_SIZE + MAX_PAYLOAD_SIZE then Some(Padded(data[SPAN_SIZE..])) else None
  }

  /** Reads a range below a reference of level k; the child is found by division. */
  function Read(store: map<Bytes, Bytes>, ref: Bytes, k: nat, off: nat, len: nat): (r: Option<Bytes>)
    decreases k, 1, len
  {
    if ref !in store || PayloadOf(store[ref]).None? then None
    else
      var payload := PayloadOf(store[ref]).value;
      if k > 0 then ReadKids(store, payload, k, off / Capacity(k - 1), off % Capacity(k - 1), len)
      else if off + len <= |payload| then Some(payload[off..off + len]) else None
  }

  /** Reads on from this place in child i. */
  function ReadKids(store: map<Bytes, Bytes>, payload: Bytes, k: nat, i: nat, within: nat, len: nat): (r: Option<Bytes>)
    requires k > 0 && within < Capacity(k - 1)
    decreases k, 0, len
  {
    if len == 0 then Some([])
    else if REF_SIZE * i + REF_SIZE > |payload| then None
    else
      var n := Min(len, Capacity(k - 1) - within);
      var head := Read(store, payload[REF_SIZE * i..REF_SIZE * i + REF_SIZE], k - 1, within, n);
      var tail := ReadKids(store, payload, k, i + 1, 0, len - n);
      if head.Some? && tail.Some? then Some(head.value + tail.value) else None
  }

  /** For every chunk of the tree the store has one with its address, its span and its padded payload. */
  ghost predicate Stored(store: map<Bytes, Bytes>, h: Keccak, t: Tree)
    requires Sound(t)
    decreases t
  {
    && Ref(h, t) in store && Alike(store[Ref(h, t)], ChunkOf(h, t).data)
    && (t.Node? ==> forall i :: 0 <= i < |t.kids| ==> Stored(store, h, t.kids[i]))
  }

  /** The same span, and the same payload up to zeros at the end. */
  ghost predicate Alike(a: Bytes, b: Bytes)
  {
    PayloadOf(a).Some? && PayloadOf(a) == PayloadOf(b) && a[..SPAN_SIZE] == b[..SPAN_SIZE]
  }

  lemma {:induction false} StoredPayload(store: map<Bytes, Bytes>, h: Keccak, t: Tree)
    requires Sound(t) && Stored(store, h, t)
    ensures Ref(h, t) in store && PayloadOf(store[Ref(h, t)]) == Some(Padded(Payload(h, t)))
  {
    hide Ref, Payload, Padded, Span;
    var d := ChunkOf(h, t).data;
    assert d[SPAN_SIZE..] == Payload(h, t);
  }

  lemma {:induction false} SliceOfRest(data: Bytes, at: nat, lo: nat, hi: nat)
    requires at <= lo <= hi <= |data|
    ensures data[at..][lo - at..hi - at] == data[lo..hi]
  {
  }

  lemma {:induction false} PartAt(data: Bytes, size: nat, i: nat)
    requires size > 0 && i * size < |data|
    ensures i < |Split(data, size)|
    ensures Split(data, size)[i] == data[i * size..Min(i * size + size, |data|)]
    decreases i
  {
    if i == 0 {
      assert data[..|data|] == data;
    } else {
      OneMore(i, size);
      PartAt(data[size..], size, i - 1);
      SplitRest(data, size, i);
      hide Split;
      SliceOfRest(data, size, i * size, Min(i * size + size, |data|));
    }
  }

  lemma {:induction false} SplitRest(data: Bytes, size: nat, i: nat)
    requires 0 < size < |data| && 0 < i <= |Split(data[size..], size)|
    ensures i < |Split(data, size)| && Split(data, size)[i] == Split(data[size..], size)[i - 1]
  {
  }

  lemma {:induction false} KidAt(store: map<Bytes, Bytes>, h: Keccak, t: Tree, i: nat)
    requires Sound(t) && t.Node? && i < |t.kids| && Stored(store, h, t)
    ensures Sound(t.kids[i]) && Stored(store, h, t.kids[i]) && REF_SIZE * i + REF_SIZE <= MAX_PAYLOAD_SIZE
    ensures Padded(Payload(h, t))[REF_SIZE * i..REF_SIZE * i + REF_SIZE] == Ref(h, t.kids[i])
  {
    hide Ref, Flat, ChunkOf, Alike;
    FlatAt(Refs(h, t.kids), REF_SIZE, i);
    var p := Payload(h, t);
    assert Padded(p)[..|p|] == p;
  }

  ghost predicate Covers(t: Tree, data: Bytes, k: nat)
  {
    0 < |data| <= Capacity(k) && t == TreeOf(data, k)
  }

  lemma {:induction false} KidCovers(t: Tree, data: Bytes, k: nat, i: nat)
    requires k > 0 && Covers(t, data, k) && i * Capacity(k - 1) < |data|
    ensures t.Node? && i < |t.kids|
    ensures Covers(t.kids[i], data[i * Capacity(k - 1)..Min(i * Capacity(k - 1) + Capacity(k - 1), |data|)], k - 1)
  {
    PartAt(data, Capacity(k - 1), i);
  }

  lemma {:induction false} DivMod(off: nat, size: nat)
    requires size > 0
    ensures off == (off / size) * size + off % size && off / size >= 0 && 0 <= off % size < size
  {
  }

  lemma {:induction false} ReadsPage(store: map<Bytes, Bytes>, ref: Bytes, page: Bytes, off: nat, len: nat)
    requires |page| <= MAX_PAYLOAD_SIZE && off + len <= |page|
    requires ref in store && PayloadOf(store[ref]) == Some(Padded(page))
    ensures Read(store, ref, 0, off, len) == Some(page[off..off + len])
  {
    hide PayloadOf;
    assert Padded(page)[..|page|] == page;
    SliceOfPrefix(page, Padded(page)[|page|..], off, off + len);
  }

  lemma {:induction false} ReadsNode(store: map<Bytes, Bytes>, ref: Bytes, payload: Bytes, k: nat, off: nat, len: nat)
    requires k > 0 && ref in store && PayloadOf(store[ref]) == Some(payload)
    ensures Read(store, ref, k, off, len) ==
            ReadKids(store, payload, k, off / Capacity(k - 1), off % Capacity(k - 1), len)
  {
    hide ReadKids, PayloadOf, Capacity;
  }

  lemma {:induction false} CoversPage(h: Keccak, t: Tree, data: Bytes)
    requires Covers(t, data, 0) && Sound(t)
    ensures Payload(h, t) == data
  {
  }

  /** A reader that knows the level gets exactly the bytes it asks for. */
  lemma {:induction false} ReadsExactly(store: map<Bytes, Bytes>, h: Keccak, t: Tree, data: Bytes, k: nat,
      off: nat, len: nat)
    requires Covers(t, data, k) && Sound(t) && Stored(store, h, t) && off + len <= |data|
    ensures Read(store, Ref(h, t), k, off, len) == Some(data[off..off + len])
    decreases k, 1, len
  {
    hide Capacity, Covers, Read, ReadKids, Sound, Stored, Ref, Payload, Padded, PayloadOf;
    StoredPayload(store, h, t);
    if k == 0 {
      CoversPage(h, t, data);
      ReadsPage(store, Ref(h, t), data, off, len);
    } else {
      var size := Capacity(k - 1);
      DivMod(off, size);
      ReadsNode(store, Ref(h, t), Padded(Payload(h, t)), k, off, len);
      ReadsKidsExactly(store, h, t, data, k, off / size, off % size, off, len);
    }
  }

  lemma {:induction false} ReadsKidsExactly(store: map<Bytes, Bytes>, h: Keccak, t: Tree, data: Bytes, k: nat,
      i: nat, within: nat, off: nat, len: nat)
    requires Covers(t, data, k) && Sound(t) && Stored(store, h, t) && off + len <= |data|
    requires k > 0 && within < Capacity(k - 1) && off == i * Capacity(k - 1) + within
    ensures ReadKids(store, Padded(Payload(h, t)), k, i, within, len) == Some(data[off..off + len])
    decreases k, 0, len
  {
    hide Covers, Capacity, Read, ReadKids, Ref, Payload, Stored, Padded;
    if len == 0 {
      ReadsNothing(store, Padded(Payload(h, t)), k, i, within);
    } else {
      var size := Capacity(k - 1);
      var n := Min(len, size - within);
      KidCovers(t, data, k, i);
      KidAt(store, h, t, i);
      var part := data[i * size..Min(i * size + size, |data|)];
      PartRange(data, size, off, n, i * size, within, part);
      ReadsExactly(store, h, t.kids[i], part, k - 1, within, n);
      if len > n {
        OneMore(i + 1, size);
        ReadsKidsExactly(store, h, t, data, k, i + 1, 0, off + n, len - n);
      }
      JoinsReads(store, Padded(Payload(h, t)), k, i, within, len, n, data[off..off + n], data[off + n..off + len]);
      assert data[off..off + n] + data[off + n..off + len] == data[off..off + len];
    }
  }

  lemma {:induction false} ReadsNothing(store: map<Bytes, Bytes>, payload: Bytes, k: nat, i: nat, within: nat)
    requires k > 0 && within < Capacity(k - 1)
    ensures ReadKids(store, payload, k, i, within, 0) == Some([])
  {
  }

  lemma {:induction false} JoinsReads(store: map<Bytes, Bytes>, payload: Bytes, k: nat, i: nat, within: nat,
      len: nat, n: nat, head: Bytes, tail: Bytes)
    requires k > 0 && within < Capacity(k - 1) && len > 0 && REF_SIZE * i + REF_SIZE <= |payload|
    requires n == Min(len, Capacity(k - 1) - within)
    requires Read(store, payload[REF_SIZE * i..REF_SIZE * i + REF_SIZE], k - 1, within, n) == Some(head)
    requires if n == len then tail == [] else ReadKids(store, payload, k, i + 1, 0, len - n) == Some(tail)
    ensures ReadKids(store, payload, k, i, within, len) == Some(head + tail)
  {
    hide Read, Capacity;
  }

  lemma {:induction false} PartRange(data: Bytes, size: nat, off: nat, n: nat, at: nat, within: nat, part: Bytes)
    requires off == at + within && within + n <= size && n > 0 && off + n <= |data|
    requires part == data[at..Min(at + size, |data|)]
    ensures within + n <= |part| && part[within..within + n] == data[off..off + n]
  {
  }

  // ---------------------------------------------------------------- the root

  lemma {:induction false} FewerGroups(ts: seq<Tree>)
    ensures |ts| > 1 ==> |Groups(ts)| < |ts|
    ensures |ts| > 0 ==> 0 < |Groups(ts)| <= |ts|
    decreases |ts|
  {
    if |ts| > REFS_PER_CHUNK {
      FewerGroups(ts[REFS_PER_CHUNK..]);
    }
  }

  /** Levels are built until one node is left. */
  ghost function RootOf(ts: seq<Tree>): (t: Tree)
    requires |ts| > 0
    decreases |ts|
  {
    FewerGroups(ts);
    if |ts| == 1 then ts[0] else RootOf(Groups(ts))
  }

  /** The least level, from k on, at which one node holds n bytes. */
  function Height(n: nat, k: nat): (r: nat)
    ensures k <= r && n <= Capacity(r) && (r > k ==> Capacity(r - 1) < n)
    decreases if n > Capacity(k) then n - Capacity(k) else 0
  {
    if n <= Capacity(k) then k else Height(n, k + 1)
  }

  lemma {:induction false} RootOfLevel(data: Bytes, k: nat)
    requires |data| > 0
    ensures |LevelOf(data, k)| > 0 && RootOf(LevelOf(data, k)) == TreeOf(data, Height(|data|, k))
    decreases if |data| > Capacity(k) then |data| - Capacity(k) else 0
  {
    if |data| <= Capacity(k) {
      LastLevel(data, k);
    } else {
      LevelStep(data, k);
      GroupsOfLevel(data, k);
      RootOfLevel(data, k + 1);
    }
  }

  /**
   * A page left over after a full node is wrapped in a node of its own, whose span is a page's: the span does
   * not tell the level.
   */
  lemma {:induction false} LeftOverPageIsWrapped(data: Bytes)
    requires Capacity(1) < |data| <= Capacity(1) + PAGE_SIZE
    ensures var rest := data[Capacity(1)..];
      |LevelOf(data, 1)| == 2 && LevelOf(data, 1)[1] == Node([Leaf(rest)]) &&
        Span(Node([Leaf(rest)])) == Span(Leaf(rest)) <= PAGE_SIZE
  {
    var rest := data[Capacity(1)..];
    assert Capacity(1) == REFS_PER_CHUNK * Capacity(0);
    LevelStep(data, 1);
    LastLevel(rest, 1);
    LastLevel(rest, 0);
    WrappedSpan(Leaf(rest));
  }

  lemma {:induction false} WrappedSpan(t: Tree)
    ensures Span(Node([t])) == Span(t)
  {
    assert [t][1..] == [];
    assert Spans([t]) == Span(t) + Spans([]);
  }

  /**
   * An address does not tell how long the payload is: a page that begins with the address of a page
   * of its own length and goes on with zeros has the address of the node above that page.
   */
  lemma {:induction false} LoneNodeHasATwin(h: Keccak, page: Bytes)
    requires REF_SIZE < |page| <= PAGE_SIZE
    ensures Sound(Leaf(page)) && Sound(Node([Leaf(page)]))
    ensures var twin := Leaf(Ref(h, Leaf(page)) + Zeros(|page| - REF_SIZE));
            && Sound(twin) && Ref(h, twin) == Ref(h, Node([Leaf(page)]))
            && |ChunkOf(h, twin).data| > |ChunkOf(h, Node([Leaf(page)])).data|
  {
    assert Sound(Leaf(page)) && Sound(Node([Leaf(page)]));
    var ref := Ref(h, Leaf(page));
    var twin := Leaf(ref + Zeros(|page| - REF_SIZE));
    assert Sound(twin) && Payload(h, twin) == twin.page && Span(twin) == |page| == Span(Leaf(page));
    WrappedSpan(Leaf(page));
    LonePayload(h, page);
    hide Ref, Address, Payload, Span, Sound;
    ZerosFillUp(ref, |page| - REF_SIZE);
    SameAddress(h, twin, Node([Leaf(page)]));
  }

  lemma ZerosFillUp(p: Bytes, n: nat)
    requires |p| + n <= MAX_PAYLOAD_SIZE
    ensures Padded(p + Zeros(n)) == Padded(p)
  {
  }

  lemma {:induction false} LonePayload(h: Keccak, page: Bytes)
    requires Sound(Leaf(page)) && Sound(Node([Leaf(page)]))
    ensures Payload(h, Node([Leaf(page)])) == Ref(h, Leaf(page))
  {
    hide Address, Span;
    var refs := Refs(h, [Leaf(page)]);
    assert refs == [Ref(h, Leaf(page))];
    assert refs[..0] == [];
    assert Flat(refs) == Flat([]) + refs[0];
    assert Flat([]) + refs[0] == refs[0];
  }

  lemma {:induction false} SameAddress(h: Keccak, s: Tree, t: Tree)
    requires Sound(s) && Sound(t) && Span(s) == Span(t) && Padded(Payload(h, s)) == Padded(Payload(h, t))
    ensures Ref(h, s) == Ref(h, t)
  {
  }
}
