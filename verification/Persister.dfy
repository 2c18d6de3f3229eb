/** Saving a tree, children first; a node that has a reference is skipped. */
module Persister {
  import opened Wrappers
  import opened Trie
  import opened Store
  import opened PotNodes
  import opened Requests
  import opened PotMode
  import Ops = PotOps

  /** Writes one record. The write may fail; then the store is unchanged. */
  method Put(pot: Pot, rec: Record) returns (ok: bool)
    requires pot.Valid() && forall f | f in rec.forks :: ForkClosed(f, pot.store)
    modifies pot`requests, pot`store
    ensures pot.Valid() && Grows(old(pot.store), pot.store) && pot.Answered(ok)
    ensures if ok then pot.store == old(pot.store)[Digest(rec) := rec] && Closed(Digest(rec), pot.store)
            else pot.store == old(pot.store)
  {
    ok := pot.Request();
    if ok {
      ghost var was := pot.store;
      PutKeepsClosed(rec, was);
      pot.store := pot.store[Digest(rec) := rec];
      forall m | m in pot.trees
        ensures NodeOk(m, pot.trees, pot.store)
      {
        NodeOkExtends(m, pot.trees, pot.trees, was, pot.store);
      }
    }
  }

  /** A node's record: its entry, and position, reference and size of every fork. */
  method Marshal(pot: Pot, n: PotNode) returns (rec: Record)
    requires pot.Valid() && Ops.Loaded(n, pot.trees)
    requires forall c | c in n.forks :: c.node.ref.Some?
    ensures Resolve(Digest(rec)) == pot.trees[n]
    ensures forall f | f in rec.forks :: ForkClosed(f, pot.store)
  {
    var fs: seq<RecordFork> := [];
    var i := 0;
    while i < |n.forks|
      invariant 0 <= i == |fs| <= |n.forks|
      invariant ResolveForks(fs) == View(n.forks, pot.trees)[..i]
      invariant forall f | f in fs :: ForkClosed(f, pot.store)
    {
      var c := n.forks[i];
      assert CNodeOk(c, pot.trees);
      pot.Member(c.node);
      var f := RecordFork(c.at, c.node.ref.value, c.size);
      assert ForkClosed(f, pot.store);
      assert ResolveFork(f) == View(n.forks, pot.trees)[i];
      ResolveSnoc(fs, f);
      fs := fs + [f];
      i := i + 1;
    }
    rec := Record(n.pinned.value, fs);
  }

  lemma ResolveSnoc(fs: seq<RecordFork>, f: RecordFork)
    ensures ResolveForks(fs + [f]) == ResolveForks(fs) + [ResolveFork(f)]
  {
    assert forall i | 0 <= i < |fs| :: (fs + [f])[i] == fs[i];
  }

  /** References are only ever added. */
  twostate predicate RefsKept(ts: map<PotNode, Tree>)
    reads ts.Keys
  {
    forall m | m in ts :: old(m.ref).Some? ==> m.ref == old(m.ref)
  }

  method Save(pot: Pot, n: PotNode) returns (ok: bool)
    requires pot.Valid() && n in pot.trees
    modifies pot`requests, pot`store, pot.trees.Keys`ref
    ensures pot.Valid() && Grows(old(pot.store), pot.store) && RefsKept(pot.trees) && pot.Answered(ok)
    ensures ok && pot.trees[n].Node? ==>
      n.ref.Some? && Closed(n.ref.value, pot.store) && Resolve(n.ref.value) == pot.trees[n]
    ensures old(n.ref).Some? ==>
      ok && pot.requests == old(pot.requests) && pot.store == old(pot.store) &&
      forall m | m in pot.trees :: m.ref == old(m.ref)
    decreases pot.trees[n], 1
  {
    hide Arena, View, Resolve, Closed, StoreOk, Unanswered;
    pot.Member(n);
    ok := true;
    if n.ref.None? && n.pinned.Some? {
      ok := SaveChildren(pot, n);
      if ok {
        pot.Member(n);
        var rec := Marshal(pot, n);
        ok := Put(pot, rec);
        if ok {
          SetReference(pot, n, Digest(rec));
        }
      }
    }
  }

  method SetReference(pot: Pot, n: PotNode, ref: Ref)
    requires pot.Valid() && n in pot.trees && Closed(ref, pot.store) && Resolve(ref) == pot.trees[n]
    modifies n`ref
    ensures pot.Valid() && n.ref == Some(ref)
  {
    n.ref := Some(ref);
    assert forall m | m in pot.trees && m != n :: NodeOk(m, pot.trees, pot.store);
  }

  method SaveChildren(pot: Pot, n: PotNode) returns (ok: bool)
    requires pot.Valid() && Ops.Loaded(n, pot.trees)
    modifies pot`requests, pot`store, pot.trees.Keys`ref
    ensures pot.Valid() && Grows(old(pot.store), pot.store) && RefsKept(pot.trees) && pot.Answered(ok)
    ensures ok ==> forall c | c in n.forks :: c.node.ref.Some?
    decreases pot.trees[n], 0
  {
    hide Arena, Resolve, Closed, StoreOk, Unanswered;
    ok := true;
    var i := 0;
    while i < |n.forks|
      invariant 0 <= i <= |n.forks| && ok
      invariant pot.Valid() && Grows(old(pot.store), pot.store) && RefsKept(pot.trees) && pot.Answered(true)
      invariant forall j | 0 <= j < i :: n.forks[j].node.ref.Some?
    {
      assert CNodeOk(n.forks[i], pot.trees);
      assert View(n.forks, pot.trees)[i].tree < pot.trees[n];
      ok := Save(pot, n.forks[i].node);
      if !ok {
        return;
      }
      i := i + 1;
    }
  }
}
