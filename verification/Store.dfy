/**
 * The content-addressed store. A reference is the ideal digest of a record, so that equal
 * references mean equal records.
 */
module Store {
  import opened Trie

  datatype Ref = Digest(record: Record)

  /** What marshalBinary writes: the entry, and position, reference and size of each fork. */
  datatype Record = Record(entry: Entry, forks: seq<RecordFork>)

  datatype RecordFork = RecordFork(at: nat, ref: Ref, size: nat)

  /** The tree that a reference stands for. */
  ghost function Resolve(r: Ref): Tree
    decreases r
  {
    Node(r.record.entry, ResolveForks(r.record.forks))
  }

  ghost function ResolveForks(fs: seq<RecordFork>): (r: seq<Fork>)
    ensures |r| == |fs|
    ensures forall i :: 0 <= i < |fs| ==> r[i] == ResolveFork(fs[i])
    decreases fs
  {
    if fs == [] then [] else [ResolveFork(fs[0])] + ResolveForks(fs[1..])
  }

  ghost function ResolveFork(f: RecordFork): Fork
    decreases f
  {
    Fork(f.at, Resolve(f.ref), f.size)
  }

  /** Everything that can be reached from `r` is in the store. */
  ghost predicate Closed(r: Ref, store: map<Ref, Record>)
    decreases r
  {
    r in store && store[r] == r.record && forall f | f in r.record.forks :: ForkClosed(f, store)
  }

  ghost predicate ForkClosed(f: RecordFork, store: map<Ref, Record>)
    decreases f
  {
    Closed(f.ref, store)
  }

  ghost predicate Grows(a: map<Ref, Record>, b: map<Ref, Record>)
  {
    forall r | r in a :: r in b && b[r] == a[r]
  }

  /** Every stored record has all it refers to in the store. */
  ghost predicate StoreOk(store: map<Ref, Record>)
  {
    forall r | r in store :: Closed(r, store)
  }

  /** Writing a record whose children are stored keeps the store closed. */
  lemma {:induction false} PutKeepsClosed(rec: Record, store: map<Ref, Record>)
    requires StoreOk(store) && forall f | f in rec.forks :: ForkClosed(f, store)
    ensures var s := store[Digest(rec) := rec]; StoreOk(s) && Grows(store, s) && Closed(Digest(rec), s)
  {
    var s := store[Digest(rec) := rec];
    assert Digest(rec) in store ==> Closed(Digest(rec), store);
    forall r | r in store
      ensures Closed(r, s)
    {
      ClosedGrows(r, store, s);
    }
    forall f | f in rec.forks
      ensures ForkClosed(f, s)
    {
      assert ForkClosed(f, store);
      ClosedGrows(f.ref, store, s);
    }
  }

  lemma {:induction false} ClosedGrows(r: Ref, a: map<Ref, Record>, b: map<Ref, Record>)
    requires Closed(r, a) && Grows(a, b)
    ensures Closed(r, b)
    decreases r
  {
    forall f | f in r.record.forks
      ensures ForkClosed(f, b)
    {
      assert ForkClosed(f, a);
      ClosedGrows(f.ref, a, b);
    }
  }

  /** The digest of a tree determines the tree, and the tree its digest. */
  lemma {:induction false} ResolveInjective(r: Ref, s: Ref)
    requires Resolve(r) == Resolve(s)
    ensures r == s
    decreases r
  {
    var a, b := r.record.forks, s.record.forks;
    assert ResolveForks(a) == ResolveForks(b);
    forall i | 0 <= i < |a|
      ensures a[i] == b[i]
    {
      assert ResolveFork(a[i]) == ResolveFork(b[i]);
      ResolveInjective(a[i].ref, b[i].ref);
    }
    assert a == b;
  }
}
