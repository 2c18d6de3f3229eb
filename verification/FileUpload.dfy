/** The upload of a database file: pages, then one level of references after the other, then the root. */
module FileUpload {
  import opened Bmt
  import opened Bytes
  import opened ChunkTree
  import opened Requests
  import opened Wrappers

  ghost predicate ChunksAre(h: Keccak, refs: seq<SpannedChunk>, ts: seq<Tree>)
  {
    |refs| == |ts| && AllSound(ts) && forall i :: 0 <= i < |ts| ==> refs[i] == ChunkOf(h, ts[i])
  }

  /** What a node refers to comes earlier. */
  ghost predicate ChildrenFirst(order: seq<Tree>)
  {
    forall j :: 0 <= j < |order| && order[j].Node? ==> Among(order[j].kids, order[..j])
  }

  ghost predicate Among(ts: seq<Tree>, order: seq<Tree>)
  {
    forall t | t in ts :: t in order
  }

  /** Under every address there is what was uploaded to it last. */
  ghost predicate Latest(store: map<Bytes, Bytes>, chunks: seq<SpannedChunk>)
  {
    forall i :: 0 <= i < |chunks| ==>
      chunks[i].address in store &&
      From(chunks, chunks[i].address, store[chunks[i].address])
  }

  /** A chunk with this address and this data was uploaded. */
  ghost predicate From(chunks: seq<SpannedChunk>, address: Bytes, data: Bytes)
  {
    exists j :: 0 <= j < |chunks| && chunks[j].address == address && chunks[j].data == data
  }

  lemma {:induction false} LatestMore(store: map<Bytes, Bytes>, chunks: seq<SpannedChunk>, c: SpannedChunk)
    requires Latest(store, chunks)
    ensures Latest(store[c.address := c.data], chunks + [c])
  {
    var more, s := chunks + [c], store[c.address := c.data];
    forall i | 0 <= i < |more|
      ensures more[i].address in s && From(more, more[i].address, s[more[i].address])
    {
      if more[i].address == c.address {
        assert more[|chunks|] == c;
      } else {
        assert chunks[i] == more[i] && From(chunks, chunks[i].address, store[chunks[i].address]);
        var j :| 0 <= j < |chunks| && chunks[j].address == more[i].address && chunks[j].data == s[more[i].address];
        assert more[j] == chunks[j];
      }
    }
  }

  /** The strings that are hashed for the address of a tree's chunk. */
  ghost function InputsOf(h: Keccak, t: Tree): set<Bytes>
    requires Sound(t)
  {
    Inputs(h, LittleEndian(Span(t), SPAN_SIZE), Payload(h, t))
  }

  /** Two different strings with one digest were hashed for the chunks of these trees. */
  ghost predicate Clash(h: Keccak, ts: seq<Tree>)
  {
    exists s, t, x, y :: Clashing(h, ts, s, t, x, y)
  }

  ghost predicate Clashing(h: Keccak, ts: seq<Tree>, s: Tree, t: Tree, x: Bytes, y: Bytes)
  {
    && s in ts && t in ts && Sound(s) && Sound(t)
    && x in InputsOf(h, s) && y in InputsOf(h, t) && Collision(h, x, y)
  }

  /** Chunks with one address are alike, or show a collision. */
  lemma {:induction false} AlikeOrClash(h: Keccak, ts: seq<Tree>, s: Tree, t: Tree)
    requires s in ts && t in ts && Sound(s) && Sound(t) && Ref(h, s) == Ref(h, t)
    ensures Alike(ChunkOf(h, s).data, ChunkOf(h, t).data) || Clash(h, ts)
  {
    hide Address, Inputs, Padded, Span, Payload, LittleEndian, Sound;
    var u, v := LittleEndian(Span(s), SPAN_SIZE), LittleEndian(Span(t), SPAN_SIZE);
    RefIsAddress(h, s);
    RefIsAddress(h, t);
    var x, y := AddressPinsChunk(h, u, Payload(h, s), v, Payload(h, t));
    if u == v && Padded(Payload(h, s)) == Padded(Payload(h, t)) {
      assert (u + Payload(h, s))[..SPAN_SIZE] == u && (u + Payload(h, s))[SPAN_SIZE..] == Payload(h, s);
      assert (v + Payload(h, t))[..SPAN_SIZE] == v && (v + Payload(h, t))[SPAN_SIZE..] == Payload(h, t);
    } else {
      assert Clashing(h, ts, s, t, x, y);
    }
  }

  lemma RefIsAddress(h: Keccak, t: Tree)
    requires Sound(t)
    ensures Ref(h, t) == Address(h, LittleEndian(Span(t), SPAN_SIZE), Payload(h, t))
  {
  }

  lemma {:induction false} ChunksMore(h: Keccak, refs: seq<SpannedChunk>, ts: seq<Tree>, c: SpannedChunk, t: Tree)
    requires ChunksAre(h, refs, ts) && Sound(t) && c == ChunkOf(h, t)
    ensures ChunksAre(h, refs + [c], ts + [t])
  {
    hide Sound, ChunkOf;
  }

  lemma {:induction false} FirstMore(order: seq<Tree>, t: Tree)
    requires ChildrenFirst(order) && (t.Node? ==> Among(t.kids, order))
    ensures ChildrenFirst(order + [t])
  {
    var more := order + [t];
    forall j | 0 <= j < |more| && more[j].Node?
      ensures Among(more[j].kids, more[..j])
    {
      assert more[..j] == order[..j];
      assert order[..|order|] == order;
    }
  }

  /** A store with the uploaded chunks has the whole tree below each, unless two of them clash. */
  lemma {:induction false} HoldsTree(store: map<Bytes, Bytes>, h: Keccak, chunks: seq<SpannedChunk>, order: seq<Tree>,
      j: nat)
    requires ChunksAre(h, chunks, order) && ChildrenFirst(order) && Latest(store, chunks) && j < |order|
    requires !Clash(h, order)
    ensures Stored(store, h, order[j])
    decreases j
  {
    hide Span, Payload, Ref, Alike, ChunkOf, Clash, Latest;
    var t := order[j];
    ChunkStored(store, h, chunks, order, j);
    if t.Node? {
      forall i | 0 <= i < |t.kids|
        ensures Stored(store, h, t.kids[i])
      {
        assert t.kids[i] in order[..j];
        var m :| 0 <= m < j && order[m] == t.kids[i];
        HoldsTree(store, h, chunks, order, m);
      }
    }
  }

  lemma {:induction false} ChunkStored(store: map<Bytes, Bytes>, h: Keccak, chunks: seq<SpannedChunk>,
      order: seq<Tree>, j: nat)
    requires ChunksAre(h, chunks, order) && Latest(store, chunks) && j < |order| && !Clash(h, order)
    ensures Sound(order[j]) && Ref(h, order[j]) in store && Alike(store[Ref(h, order[j])], ChunkOf(h, order[j]).data)
  {
    hide Span, Payload, Ref, Alike, Clash, Sound;
    var t := order[j];
    assert chunks[j] == ChunkOf(h, t);
    assert From(chunks, chunks[j].address, store[chunks[j].address]);
    var m :| 0 <= m < |chunks| && chunks[m].address == chunks[j].address && chunks[m].data == store[chunks[j].address];
    assert chunks[m] == ChunkOf(h, order[m]);
    AlikeOrClash(h, order, order[m], t);
  }

  /** The levels above `ts`, one after the other, up to the root. */
  ghost function Above(ts: seq<Tree>): (r: seq<Tree>)
    decreases |ts|
  {
    if |ts| <= 1 then [] else FewerGroups(ts); Groups(ts) + Above(Groups(ts))
  }

  class Uploader {
    const h: Keccak
    /** Whether the i-th upload goes through. */
    const answers: nat -> bool
    var requests: nat
    var store: map<Bytes, Bytes>
    var uploads: seq<SpannedChunk>

    ghost var order: seq<Tree>

    constructor (h: Keccak, answers: nat -> bool, store: map<Bytes, Bytes>)
      ensures Valid() && this.h == h && this.answers == answers && requests == 0
      ensures this.store == store && uploads == [] && order == []
    {
      this.h, this.answers, requests := h, answers, 0;
      this.store, uploads, order := store, [], [];
    }

    /** The uploads that have failed so far. */
    ghost function Faults(): nat
      reads this`requests
    {
      Unanswered(answers, requests)
    }

    /** A call fails if and only if one of its uploads did. */
    twostate predicate Answered(ok: bool)
      reads this`requests
    {
      old(requests) <= requests && old(Faults()) <= Faults() && (ok <==> Faults() == old(Faults()))
    }

    ghost predicate Valid()
      reads this
    {
      ChunksAre(h, uploads, order) && ChildrenFirst(order) && Latest(store, uploads)
    }

    /** An upload may fail; then the chunk may be missing. */
    method UploadChunk(chunk: SpannedChunk, ghost t: Tree) returns (ok: bool)
      requires Valid() && Sound(t) && chunk == ChunkOf(h, t) && (t.Node? ==> Among(t.kids, order))
      modifies this
      ensures Valid() && old(order) <= order && store.Keys >= old(store).Keys
      ensures requests == old(requests) + 1 && ok == answers(old(requests)) && Answered(ok)
      ensures if ok then order == old(order) + [t] else order == old(order) && store == old(store)
    {
      hide ChildrenFirst, Latest, ChunksAre, Sound, ChunkOf;
      ok := answers(requests);
      requests := requests + 1;
      if ok {
        ChunksMore(h, uploads, order, chunk, t);
        LatestMore(store, uploads, chunk);
        FirstMore(order, t);
        store := store[chunk.address := chunk.data];
        uploads := uploads + [chunk];
        order := order + [t];
      }
    }

    /** The chunk over a batch of references, with the sum of their spans. */
    method MakeNode(batch: seq<SpannedChunk>, ghost ts: seq<Tree>) returns (chunk: SpannedChunk)
      requires ChunksAre(h, batch, ts) && 1 <= |batch| <= REFS_PER_CHUNK
      ensures Sound(Node(ts)) && chunk == ChunkOf(h, Node(ts))
    {
      hide Ref, Flat, Address, Span, Sound, Weighted, Power, LittleEndian;
      var totalSpan := 0;
      var payload := new Byte[|batch| * REF_SIZE](_ => 0);
      ghost var refs := Refs(h, ts);
      FlatNone(refs);
      var i := 0;
      while i < |batch|
        invariant i <= |batch| && totalSpan == Spans(ts[..i])
        invariant payload[..REF_SIZE * i] == Flat(refs[..i])
      {
        NextSpan(ts, i);
        FlatNext(refs, i);
        assert batch[i] == ChunkOf(h, ts[i]);
        totalSpan := totalSpan + batch[i].span;
        CopyTo(payload, i * REF_SIZE, batch[i].address);
        i := i + 1;
      }
      assert ts[..i] == ts && refs[..i] == refs && payload[..REF_SIZE * i] == payload[..];
      NodeSound(ts);
      NodeParts(h, ts);
      chunk := MakeContentAddressedChunkWithSpan(h, payload[..], Some(totalSpan));
    }

    method BuildNode(refs: seq<SpannedChunk>, ghost ts: seq<Tree>, i: nat, end: nat)
        returns (chunk: SpannedChunk, ok: bool)
      requires Valid() && ChunksAre(h, refs, ts) && Among(ts, order) && |refs| == |ts|
      requires i < end <= |refs| && end - i <= REFS_PER_CHUNK
      modifies this
      ensures Valid() && Sound(Node(ts[i..end])) && chunk == ChunkOf(h, Node(ts[i..end]))
      ensures order == if ok then old(order) + [Node(ts[i..end])] else old(order)
      ensures requests == old(requests) + 1 && Answered(ok)
    {
      hide Valid, ChunksAre, Among, ChunkOf;
      Batch(h, refs, ts, i, end, order);
      chunk := MakeNode(refs[i..end], ts[i..end]);
      ok := UploadChunk(chunk, Node(ts[i..end]));
    }

    /** One level of nodes over the references, 128 to a node, uploaded as they are made. */
    method BuildLevel(refs: seq<SpannedChunk>, ghost ts: seq<Tree>) returns (r: Option<seq<SpannedChunk>>)
      requires Valid() && ChunksAre(h, refs, ts) && Among(ts, order)
      modifies this
      ensures Valid() && old(order) <= order <= old(order) + Groups(ts) && Answered(r.Some?)
      ensures r.Some? ==>
              order == old(order) + Groups(ts) && ChunksAre(h, r.value, Groups(ts)) &&
              Among(Groups(ts), order)
    {
      hide Valid, ChunksAre, Among, ChunkOf, Sound, Unanswered;
      var intermediateRefs: seq<SpannedChunk> := [];
      ghost var made: seq<Tree> := [];
      NoChunks(h, order);
      LengthOf(h, refs, ts);
      assert ts[0..] == ts && order == order + made;
      var i := 0;
      while i < |refs|
        invariant i <= |refs| == |ts| && Valid() && order == old(order) + made && Among(ts, order)
        invariant ChunksAre(h, intermediateRefs, made) && Among(made, order) && made + Groups(ts[i..]) == Groups(ts)
        invariant Answered(true)
        decreases |refs| - i
      {
        var end := Min(i + REFS_PER_CHUNK, |refs|);
        ghost var before := order;
        var chunk, ok := BuildNode(refs, ts, i, end);
        if !ok {
          return None;
        }
        ghost var t := Node(ts[i..end]);
        AmongGrows(made, before, order);
        AmongGrows(ts, before, order);
        GroupsStep(ts, i, end);
        ChunksMore(h, intermediateRefs, made, chunk, t);
        AmongMore(made, t, order);
        assert made + Groups(ts[i..]) == (made + [t]) + Groups(ts[end..]);
        assert (old(order) + made) + [t] == old(order) + (made + [t]);
        intermediateRefs := intermediateRefs + [chunk];
        made := made + [t];
        i := end;
      }
      NoGroups(ts);
      assert made + [] == made;
      return Some(intermediateRefs);
    }

    /** Level after level, until a single reference is left: the root's. */
    method BuildMerkleTree(refs: seq<SpannedChunk>, ghost ts: seq<Tree>) returns (r: Option<Bytes>)
      requires Valid() && |refs| > 0 && |ts| > 0 && ChunksAre(h, refs, ts) && Among(ts, order)
      modifies this
      ensures Valid() && old(order) <= order <= old(order) + Above(ts) && Answered(r.Some?)
      ensures r.Some? ==> order == old(order) + Above(ts)
      ensures r.Some? ==> RootOf(ts) in order && Sound(RootOf(ts)) && r.value == Ref(h, RootOf(ts))
      decreases |refs|
    {
      hide Valid, ChunkOf, Groups, Ref, Sound, Unanswered;
      FewerGroups(ts);
      if |refs| == 1 {
        RefOf(h, ts[0]);
        return Some(refs[0].address);
      }
      assert old(order) + (Groups(ts) + Above(Groups(ts))) == (old(order) + Groups(ts)) + Above(Groups(ts));
      var level := BuildLevel(refs, ts);
      if level.None? {
        return None;
      }
      r := BuildMerkleTree(level.value, Groups(ts));
    }

    method MakePage(page: Bytes) returns (chunk: SpannedChunk)
      requires 1 <= |page| <= PAGE_SIZE
      ensures Sound(Leaf(page)) && chunk == ChunkOf(h, Leaf(page))
    {
      hide Address;
      PageChunk(h, page);
      chunk := MakeContentAddressedChunkWithSpan(h, page, None);
    }

    /** The pages of the file, each as a chunk. */
    method MakeLeaves(data: Bytes) returns (leafChunks: seq<SpannedChunk>)
      ensures ChunksAre(h, leafChunks, LevelOf(data, 0))
    {
      hide ChunksAre, Sound, ChunkOf;
      leafChunks := [];
      NoChunks(h, []);
      ghost var made: seq<Tree> := [];
      assert data[0..] == data;
      var i := 0;
      while i < |data|
        invariant i <= |data| && ChunksAre(h, leafChunks, made) && made + LevelOf(data[i..], 0) == LevelOf(data, 0)
        decreases |data| - i
      {
        var end := Min(i + PAGE_SIZE, |data|);
        var chunk := MakePage(data[i..end]);
        PageStep(data, i, end);
        ChunksMore(h, leafChunks, made, chunk, Leaf(data[i..end]));
        leafChunks := leafChunks + [chunk];
        made := made + [Leaf(data[i..end])];
        i := end;
      }
      assert data[i..] == [] && made + [] == made;
    }

    method UploadLeaves(leafChunks: seq<SpannedChunk>, ghost ts: seq<Tree>) returns (ok: bool)
      requires Valid() && ChunksAre(h, leafChunks, ts) && (forall t | t in ts :: t.Leaf?)
      modifies this
      ensures Valid() && old(order) <= order <= old(order) + ts && Answered(ok)
      ensures ok ==> order == old(order) + ts && Among(ts, order)
    {
      hide Valid, Sound, ChunkOf, Unanswered;
      var i := 0;
      while i < |leafChunks|
        invariant i <= |leafChunks| && Valid() && order == old(order) + ts[..i] && Among(ts[..i], order)
        invariant Answered(true)
      {
        ghost var before := order;
        assert ts[i] in ts;
        ok := UploadChunk(leafChunks[i], ts[i]);
        if !ok {
          return;
        }
        AmongGrows(ts[..i], before, order);
        AmongMore(ts[..i], ts[i], order);
        assert ts[..i + 1] == ts[..i] + [ts[i]];
        i := i + 1;
      }
      assert ts[..i] == ts;
      ok := true;
    }

    /**
     * Uploads the file: its pages, then every level of references above them. When every upload went
     * through, a reader who knows the height of the tree gets any range of the file back, or there are
     * two different strings with one digest among those that were hashed for the uploaded chunks.
     */
    method Sync(data: Bytes) returns (r: Option<Bytes>)
      requires Valid() && |data| > 0
      modifies this
      ensures Valid() && old(order) <= order <= old(order) + LevelOf(data, 0) + Above(LevelOf(data, 0))
      ensures Answered(r.Some?)
      ensures r.Some? ==> order == old(order) + LevelOf(data, 0) + Above(LevelOf(data, 0)) && Uploaded(data, r.value)
      ensures r.Some? ==> Clash(h, order) || forall off: nat, len: nat | off + len <= |data| ::
        Read(store, r.value, Height(|data|, 0), off, len) == Some(data[off..off + len])
    {
      hide Valid, ChunksAre, LevelOf, Sound, Ref, Read, Above, Clash, Unanswered;
      var leafChunks := MakeLeaves(data);
      PagesAreLeaves(data);
      LengthOf(h, leafChunks, LevelOf(data, 0));
      RootOfLevel(data, 0);
      var ok := UploadLeaves(leafChunks, LevelOf(data, 0));
      if !ok {
        return None;
      }
      r := BuildMerkleTree(leafChunks, LevelOf(data, 0));
      if r.Some? && !Clash(h, order) {
        ReadsBack(data, r.value);
      }
    }

    /** The reference is the root's, and the whole tree was uploaded. */
    ghost predicate Uploaded(data: Bytes, ref: Bytes)
      requires |data| > 0
      reads this
    {
      var t := TreeOf(data, Height(|data|, 0));
      t in order && Sound(t) && ref == Ref(h, t)
    }

    lemma {:induction false} ReadsBack(data: Bytes, ref: Bytes)
      requires Valid() && |data| > 0 && Uploaded(data, ref) && !Clash(h, order)
      ensures forall off: nat, len: nat | off + len <= |data| ::
        Read(store, ref, Height(|data|, 0), off, len) == Some(data[off..off + len])
    {
      hide Read, Ref, Sound, Stored, ChunksAre, ChildrenFirst, Clash, Latest;
      var k := Height(|data|, 0);
      var t := TreeOf(data, k);
      var j :| 0 <= j < |order| && order[j] == t;
      HoldsTree(store, h, uploads, order, j);
      forall off: nat, len: nat | off + len <= |data|
        ensures Read(store, ref, k, off, len) == Some(data[off..off + len])
      {
        ReadsExactly(store, h, t, data, k, off, len);
      }
    }
  }

  lemma {:induction false} NodeSound(ts: seq<Tree>)
    requires AllSound(ts) && 1 <= |ts| <= REFS_PER_CHUNK
    ensures Sound(Node(ts))
  {
  }

  lemma {:induction false} NodeParts(h: Keccak, ts: seq<Tree>)
    requires Sound(Node(ts)) && AllSound(ts)
    ensures Span(Node(ts)) == Spans(ts) && Payload(h, Node(ts)) == Flat(Refs(h, ts))
    ensures Ref(h, Node(ts)) == Address(h, LittleEndian(Spans(ts), SPAN_SIZE), Payload(h, Node(ts)))
  {
  }

  lemma {:induction false} FlatNone(s: seq<Bytes>)
    ensures Flat(s[..0]) == []
  {
  }

  lemma {:induction false} FlatNext(s: seq<Bytes>, i: nat)
    requires i < |s|
    ensures Flat(s[..i + 1]) == Flat(s[..i]) + s[i]
  {
    assert s[..i + 1][..i] == s[..i];
  }

  lemma {:induction false} SpansAppend(a: seq<Tree>, b: seq<Tree>)
    ensures Spans(a + b) == Spans(a) + Spans(b)
    decreases |a|
  {
    if a == [] {
      assert a + b == b;
    } else {
      assert (a + b)[1..] == a[1..] + b;
      SpansAppend(a[1..], b);
    }
  }

  lemma {:induction false} NextSpan(ts: seq<Tree>, i: nat)
    requires i < |ts|
    ensures Spans(ts[..i + 1]) == Spans(ts[..i]) + Span(ts[i])
  {
    assert ts[..i + 1] == ts[..i] + [ts[i]];
    SpansAppend(ts[..i], [ts[i]]);
    assert [ts[i]][1..] == [];
  }

  lemma {:induction false} NoChunks(h: Keccak, order: seq<Tree>)
    ensures ChunksAre(h, [], []) && Among([], order)
  {
  }

  lemma {:induction false} LengthOf(h: Keccak, refs: seq<SpannedChunk>, ts: seq<Tree>)
    requires ChunksAre(h, refs, ts)
    ensures |refs| == |ts|
  {
  }

  lemma {:induction false} NoGroups(ts: seq<Tree>)
    ensures Groups(ts[|ts|..]) == []
  {
  }

  lemma {:induction false} GroupsStep(ts: seq<Tree>, i: nat, end: nat)
    requires i < |ts| && end == Min(i + REFS_PER_CHUNK, |ts|)
    ensures Groups(ts[i..]) == [Node(ts[i..end])] + Groups(ts[end..])
  {
    var rest := ts[i..];
    if |rest| <= REFS_PER_CHUNK {
      assert ts[i..end] == rest && ts[end..] == [];
    } else {
      assert rest[..REFS_PER_CHUNK] == ts[i..end] && rest[REFS_PER_CHUNK..] == ts[end..];
    }
  }

  lemma {:induction false} AmongMore(made: seq<Tree>, t: Tree, order: seq<Tree>)
    requires Among(made, order) && t in order
    ensures Among(made + [t], order)
  {
  }

  lemma {:induction false} AmongGrows(made: seq<Tree>, order: seq<Tree>, more: seq<Tree>)
    requires Among(made, order) && order <= more
    ensures Among(made, more)
  {
    assert forall t | t in order :: t in more;
  }

  lemma {:induction false} Batch(h: Keccak, refs: seq<SpannedChunk>, ts: seq<Tree>, i: nat, end: nat, order: seq<Tree>)
    requires ChunksAre(h, refs, ts) && i <= end <= |refs| && Among(ts, order)
    ensures |refs| == |ts| && ChunksAre(h, refs[i..end], ts[i..end]) && Among(ts[i..end], order)
  {
    hide ChunkOf, Sound;
  }

  lemma {:induction false} RefOf(h: Keccak, t: Tree)
    requires Sound(t)
    ensures ChunkOf(h, t).address == Ref(h, t)
  {
  }

  lemma {:induction false} PageChunk(h: Keccak, page: Bytes)
    requires 1 <= |page| <= PAGE_SIZE
    ensures Sound(Leaf(page)) && Span(Leaf(page)) == |page| && Payload(h, Leaf(page)) == page
    ensures Ref(h, Leaf(page)) == Address(h, LittleEndian(|page|, SPAN_SIZE), page)
    ensures ChunkOf(h, Leaf(page)) == SpannedChunk(LittleEndian(|page|, SPAN_SIZE) + page, Ref(h, Leaf(page)), |page|)
  {
  }

  lemma {:induction false} PageStep(data: Bytes, i: nat, end: nat)
    requires i < |data| && end == Min(i + PAGE_SIZE, |data|)
    ensures LevelOf(data[i..], 0) == [Leaf(data[i..end])] + LevelOf(data[end..], 0)
  {
    var rest := data[i..];
    if |rest| <= PAGE_SIZE {
      assert data[i..end] == rest && data[end..] == [];
    } else {
      LevelStep(rest, 0);
      assert rest[..PAGE_SIZE] == data[i..end] && rest[PAGE_SIZE..] == data[end..];
    }
  }

  lemma {:induction false} PagesAreLeaves(data: Bytes)
    ensures forall t | t in LevelOf(data, 0) :: t.Leaf?
  {
  }
}
